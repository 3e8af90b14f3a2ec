/** The etcd watcher: a full snapshot patched with watch events converges to the server's key map,
    although the stream may start before the snapshot and replay older events over it. */
module EtcdWatcher {
  import opened Wrappers

  type Key = string

  datatype Event<V> = Put(key: Key, value: V) | Delete(key: Key)

  // ---------------------------------------------------------------- the server

  /** The server's key map after a history of events. */
  function Server<V>(history: seq<Event<V>>): map<Key, V> {
    if history == [] then map[] else
      var before := Server(history[..|history| - 1]);
      match history[|history| - 1]
      case Put(k, v) => before[k := v]
      case Delete(k) => before - {k}
  }

  /** The instances of a key map: values that do not decode are left out. */
  function Decoded<V, I>(decode: V -> Option<I>, m: map<Key, V>): map<Key, I> {
    map k | k in m && decode(m[k]).Some? :: decode(m[k]).value
  }

  // ---------------------------------------------------------------- the watcher

  /** One watch event applied to the local map: a put that does not decode is skipped. */
  function Patch<V, I>(decode: V -> Option<I>, m: map<Key, I>, ev: Event<V>): map<Key, I> {
    match ev
    case Put(k, v) => if decode(v).Some? then m[k := decode(v).value] else m
    case Delete(k) => m - {k}
  }

  function PatchAll<V, I>(decode: V -> Option<I>, m: map<Key, I>, events: seq<Event<V>>): map<Key, I> {
    if events == [] then m else Patch(decode, PatchAll(decode, m, events[..|events| - 1]), events[|events| - 1])
  }

  /** The watcher within a server history: the events consumed so far are history[..pos], and the last full
      snapshot was taken at revision `snap`, when `base` events had been consumed. */
  datatype Watching<I> = Watching(pos: nat, base: nat, snap: nat, current: map<Key, I>)

  datatype Input = Batch(n: nat) | Resync(rev: nat)

  /** The stream delivers in order, and a snapshot is never older than what has been delivered. */
  predicate Delivers<V, I>(history: seq<Event<V>>, w: Watching<I>, x: Input) {
    match x
    case Batch(n) => w.pos + n <= |history|
    case Resync(rev) => w.pos <= rev <= |history|
  }

  function Feed<V, I>(decode: V -> Option<I>, history: seq<Event<V>>, w: Watching<I>, x: Input): Watching<I>
    requires Delivers(history, w, x)
  {
    match x
    case Batch(n) => w.(pos := w.pos + n, current := PatchAll(decode, w.current, history[w.pos..w.pos + n]))
    case Resync(rev) => Watching(w.pos, w.pos, rev, Decoded(decode, Server(history[..rev])))
  }

  ghost predicate Feeds<V, I>(decode: V -> Option<I>, history: seq<Event<V>>, w: Watching<I>, xs: seq<Input>)
    decreases |xs|
  {
    xs == [] || (Delivers(history, w, xs[0]) && Feeds(decode, history, Feed(decode, history, w, xs[0]), xs[1..]))
  }

  function FeedAll<V, I>(decode: V -> Option<I>, history: seq<Event<V>>, w: Watching<I>, xs: seq<Input>): Watching<I>
    requires Feeds(decode, history, w, xs)
    decreases |xs|
  {
    if xs == [] then w else FeedAll(decode, history, Feed(decode, history, w, xs[0]), xs[1..])
  }

  // ---------------------------------------------------------------- one key

  /** The last event on a key, and the last one that the watcher does not skip. */
  ghost function Last<V>(events: seq<Event<V>>, k: Key): Option<Event<V>> {
    if events == [] then None
    else if events[|events| - 1].key == k then Some(events[|events| - 1])
    else Last(events[..|events| - 1], k)
  }

  ghost predicate Skipped<V, I>(decode: V -> Option<I>, ev: Event<V>) {
    ev.Put? && decode(ev.value).None?
  }

  ghost function LastKept<V, I>(decode: V -> Option<I>, events: seq<Event<V>>, k: Key): Option<Event<V>> {
    if events == [] then None
    else if events[|events| - 1].key == k && !Skipped(decode, events[|events| - 1]) then Some(events[|events| - 1])
    else LastKept(decode, events[..|events| - 1], k)
  }

  ghost function Lookup<T>(m: map<Key, T>, k: Key): Option<T> {
    if k in m then Some(m[k]) else None
  }

  /** What an event leaves under its key, as an instance. */
  ghost function Leaves<V, I>(decode: V -> Option<I>, ev: Event<V>): Option<I> {
    if ev.Put? then decode(ev.value) else None
  }

  lemma {:induction false} ServerAt<V, I>(decode: V -> Option<I>, history: seq<Event<V>>, k: Key)
    ensures Lookup(Decoded(decode, Server(history)), k) ==
            match Last(history, k) { case None => None case Some(ev) => Leaves(decode, ev) }
  {
    if history != [] {
      ServerAt(decode, history[..|history| - 1], k);
    }
  }

  lemma {:induction false} PatchedAt<V, I>(decode: V -> Option<I>, m: map<Key, I>, events: seq<Event<V>>, k: Key)
    ensures Lookup(PatchAll(decode, m, events), k) ==
            match LastKept(decode, events, k) { case None => Lookup(m, k) case Some(ev) => Leaves(decode, ev) }
  {
    if events != [] {
      PatchedAt(decode, m, events[..|events| - 1], k);
    }
  }

  /** The last event of a history is that of its end, if the end has one. */
  lemma {:induction false} LastSplits<V>(front: seq<Event<V>>, back: seq<Event<V>>, k: Key)
    ensures Last(front + back, k) == if Last(back, k).Some? then Last(back, k) else Last(front, k)
  {
    if back == [] {
      assert front + back == front;
    } else {
      assert (front + back)[..|front + back| - 1] == front + back[..|back| - 1];
      LastSplits(front, back[..|back| - 1], k);
    }
  }

  lemma {:induction false} LastIsKept<V, I>(decode: V -> Option<I>, events: seq<Event<V>>, k: Key)
    ensures Last(events, k).None? ==> LastKept(decode, events, k).None?
    ensures Last(events, k).Some? && !Skipped(decode, Last(events, k).value) ==> LastKept(decode, events, k) == Last(events, k)
  {
    if events != [] {
      LastIsKept(decode, events[..|events| - 1], k);
    }
  }

  /** The instance the watcher would go on holding under `k`: what the last event it did not skip left there,
      or else what the snapshot held. */
  ghost function Held<V, I>(decode: V -> Option<I>, history: seq<Event<V>>, base: nat, snap: nat, pos: nat, k: Key): Option<I>
    requires base <= snap <= pos <= |history|
  {
    match LastKept(decode, history[base..pos], k)
    case None => Lookup(Decoded(decode, Server(history[..snap])), k)
    case Some(ev) => Leaves(decode, ev)
  }

  lemma Joined<T>(s: seq<T>, a: nat, b: nat, c: nat)
    requires a <= b <= c <= |s|
    ensures s[a..c] == s[a..b] + s[b..c]
    ensures a == 0 ==> s[..c] == s[..b] + s[b..c]
  {
  }

  /** The last event on a key is in the replayed part of the history or before it; if it is before, the snapshot
      has seen it. */
  lemma LastOfHistory<V>(history: seq<Event<V>>, base: nat, snap: nat, pos: nat, k: Key)
    requires base <= snap <= pos <= |history|
    ensures var last := Last(history[base..pos], k);
            && Last(history[..pos], k) == (if last.Some? then last else Last(history[..base], k))
            && (last.None? ==> Last(history[..snap], k) == Last(history[..base], k))
  {
    Joined(history, 0, base, pos);
    LastSplits(history[..base], history[base..pos], k);
    Joined(history, 0, base, snap);
    LastSplits(history[..base], history[base..snap], k);
    Joined(history, base, snap, pos);
    LastSplits(history[base..snap], history[snap..pos], k);
  }

  /** With a snapshot taken at revision `snap` over a stream that began at `base`, the map agrees with the server
      at revision `pos` under key `k` unless -- and only unless -- the last replayed event on `k` is a put
      that does not decode while an older instance is still held. */
  lemma AgreesUnlessSkipped<V, I>(decode: V -> Option<I>, history: seq<Event<V>>, base: nat, snap: nat, pos: nat, k: Key)
    requires base <= snap <= pos <= |history|
    ensures var local := PatchAll(decode, Decoded(decode, Server(history[..snap])), history[base..pos]);
            var last := Last(history[base..pos], k);
            Lookup(local, k) == Lookup(Decoded(decode, Server(history[..pos])), k) <==>
              !(last.Some? && Skipped(decode, last.value) && Held(decode, history, base, snap, pos, k).Some?)
  {
    PatchedAt(decode, Decoded(decode, Server(history[..snap])), history[base..pos], k);
    ServerAt(decode, history[..pos], k);
    ServerAt(decode, history[..snap], k);
    LastIsKept(decode, history[base..pos], k);
    LastOfHistory(history, base, snap, pos, k);
  }

  // ---------------------------------------------------------------- every run

  /** What the watcher holds, in terms of its last snapshot. */
  ghost predicate Inv<V, I>(decode: V -> Option<I>, history: seq<Event<V>>, w: Watching<I>) {
    && w.base <= w.pos <= |history| && w.base <= w.snap <= |history|
    && w.current == PatchAll(decode, Decoded(decode, Server(history[..w.snap])), history[w.base..w.pos])
  }

  lemma {:induction false} PatchAllSplits<V, I>(decode: V -> Option<I>, m: map<Key, I>, a: seq<Event<V>>, b: seq<Event<V>>)
    ensures PatchAll(decode, m, a + b) == PatchAll(decode, PatchAll(decode, m, a), b)
  {
    if b == [] {
      assert a + b == a;
    } else {
      assert (a + b)[..|a + b| - 1] == a + b[..|b| - 1];
      PatchAllSplits(decode, m, a, b[..|b| - 1]);
    }
  }

  lemma {:induction false} PatchOn<V, I>(decode: V -> Option<I>, m: map<Key, I>, history: seq<Event<V>>, base: nat, pos: nat, n: nat)
    requires base <= pos && pos + n <= |history|
    ensures PatchAll(decode, m, history[base..pos + n]) == PatchAll(decode, PatchAll(decode, m, history[base..pos]), history[pos..pos + n])
  {
    var consumed, more := history[base..pos], history[pos..pos + n];
    Joined(history, base, pos, pos + n);
    PatchAllSplits(decode, m, consumed, more);
  }

  lemma {:induction false} FeedKeepsInv<V, I>(decode: V -> Option<I>, history: seq<Event<V>>, w: Watching<I>, x: Input)
    requires Inv(decode, history, w) && Delivers(history, w, x)
    ensures Inv(decode, history, Feed(decode, history, w, x))
  {
    if x.Batch? {
      PatchOn(decode, Decoded(decode, Server(history[..w.snap])), history, w.base, w.pos, x.n);
    } else {
      assert history[w.pos..w.pos] == [];
    }
  }

  lemma {:induction false} FeedAllKeepsInv<V, I>(decode: V -> Option<I>, history: seq<Event<V>>, w: Watching<I>, xs: seq<Input>)
    requires Inv(decode, history, w) && Feeds(decode, history, w, xs)
    ensures Inv(decode, history, FeedAll(decode, history, w, xs))
    decreases |xs|
  {
    if xs != [] {
      FeedKeepsInv(decode, history, w, xs[0]);
      FeedAllKeepsInv(decode, history, Feed(decode, history, w, xs[0]), xs[1..]);
    }
  }

  /** A watcher whose stream starts at `start` and whose first call takes a snapshot at `rev`. */
  function Opened<V, I>(decode: V -> Option<I>, history: seq<Event<V>>, start: nat, rev: nat): Watching<I>
    requires start <= rev <= |history|
  {
    Watching(start, start, rev, Decoded(decode, Server(history[..rev])))
  }

  /** Over every run of batches and resyncs: once the stream has caught up with the last snapshot, and if
      every put decodes, the local map is the server's key map at the last revision consumed. */
  lemma WatcherConverges<V, I>(decode: V -> Option<I>, history: seq<Event<V>>, start: nat, rev: nat, xs: seq<Input>)
    requires start <= rev <= |history| && Feeds(decode, history, Opened(decode, history, start, rev), xs)
    requires forall ev | ev in history :: !Skipped(decode, ev)
    ensures var w := FeedAll(decode, history, Opened(decode, history, start, rev), xs);
            w.snap <= w.pos ==> w.pos <= |history| && w.current == Decoded(decode, Server(history[..w.pos]))
  {
    assert history[start..start] == [];
    FeedAllKeepsInv(decode, history, Opened(decode, history, start, rev), xs);
    var w := FeedAll(decode, history, Opened(decode, history, start, rev), xs);
    if w.snap <= w.pos {
      var server := Decoded(decode, Server(history[..w.pos]));
      forall k: Key
        ensures Lookup(w.current, k) == Lookup(server, k)
      {
        AgreesUnlessSkipped(decode, history, w.base, w.snap, w.pos, k);
        LastIsThere(history[w.base..w.pos], k);
      }
      SameLookups(w.current, server);
    }
  }

  lemma {:induction false} LastIsThere<V>(events: seq<Event<V>>, k: Key)
    ensures Last(events, k).Some? ==> Last(events, k).value in events && Last(events, k).value.key == k
  {
    if events != [] {
      LastIsThere(events[..|events| - 1], k);
    }
  }

  lemma SameLookups<T>(m: map<Key, T>, m': map<Key, T>)
    requires forall k: Key :: Lookup(m, k) == Lookup(m', k)
    ensures m == m'
  {
    forall k: Key
      ensures k in m <==> k in m'
      ensures k in m ==> m[k] == m'[k]
    {
      assert Lookup(m, k) == Lookup(m', k);
    }
  }

  /** The same key by key, whatever decodes: over every run, once the stream has caught up with the last snapshot, the
      watcher is right about `k` unless, and only unless, the last event on `k` since the snapshot's base is a put
      that does not decode while an older instance is still held. */
  lemma WatcherAgreesUnlessSkipped<V, I>(decode: V -> Option<I>, history: seq<Event<V>>, start: nat, rev: nat, xs: seq<Input>, k: Key)
    requires start <= rev <= |history| && Feeds(decode, history, Opened(decode, history, start, rev), xs)
    ensures var w := FeedAll(decode, history, Opened(decode, history, start, rev), xs);
            w.snap <= w.pos ==>
              && w.base <= w.snap && w.pos <= |history|
              && var last := Last(history[w.base..w.pos], k);
                 Lookup(w.current, k) == Lookup(Decoded(decode, Server(history[..w.pos])), k) <==>
                   !(last.Some? && Skipped(decode, last.value) && Held(decode, history, w.base, w.snap, w.pos, k).Some?)
  {
    var first := Opened(decode, history, start, rev);
    assert history[start..start] == [];
    FeedAllKeepsInv(decode, history, first, xs);
    var w := FeedAll(decode, history, first, xs);
    if w.snap <= w.pos {
      AgreesUnlessSkipped(decode, history, w.base, w.snap, w.pos, k);
    }
  }

  /** It happens with any value that decodes followed by any that does not: the old instance stays. */
  lemma StaleInstanceStays<V, I>(decode: V -> Option<I>, k: Key, good: V, bad: V)
    requires decode(good).Some? && decode(bad).None?
    ensures var history, xs := [Put(k, good), Put(k, bad)], [Batch(1)];
            && Feeds(decode, history, Opened(decode, history, 1, 1), xs)
            && var w := FeedAll(decode, history, Opened(decode, history, 1, 1), xs);
               w.pos == |history| && Lookup(w.current, k) == decode(good) && Lookup(Decoded(decode, Server(history)), k) == None
  {
    var history, xs := [Put(k, good), Put(k, bad)], [Batch(1)];
    assert history[..1] == [Put(k, good)] && history[1..2] == [Put(k, bad)] && history[..2] == history;
    assert [Put(k, good)][..0] == [] && [Put(k, bad)][..0] == [];
    assert Server([Put(k, good)]) == map[k := good];
    assert Server(history)[k] == bad;
    var first := Opened(decode, history, 1, 1);
    assert first.current == map[k := decode(good).value];
    assert PatchAll(decode, first.current, [Put(k, bad)]) == Patch(decode, PatchAll(decode, first.current, []), Put(k, bad));
    assert Feed(decode, history, first, xs[0]).current == first.current;
    assert xs[1..] == [];
  }

  // ---------------------------------------------------------------- the watcher object

  /** What the watch channel yields, when Next gets to read it. */
  datatype Receipt<V> = Closed | Broken | Events(events: seq<Event<V>>)

  datatype Reply<I> = Instances(list: seq<I>) | Error | Panic

  /** The list holds each instance of the map once, in some order. */
  ghost predicate Lists<I>(list: seq<I>, m: map<Key, I>, keys: seq<Key>) {
    && |keys| == |list|
    && (forall i, j | 0 <= i < j < |keys| :: keys[i] != keys[j])
    && (forall k :: k in keys <==> k in m)
    && (forall i | 0 <= i < |keys| :: keys[i] in m && list[i] == m[keys[i]])
  }

  /** Keys in a Get response are distinct, so that skipping a pair that does not decode leaves its key out. */
  ghost predicate DistinctKeys<V>(kvs: seq<(Key, V)>) {
    forall i, j | 0 <= i < j < |kvs| :: kvs[i].0 != kvs[j].0
  }

  /** The map holds, for every pair whose value decodes, that instance under the pair's key, and nothing else. */
  ghost predicate HoldsPairs<V, I>(decode: V -> Option<I>, m: map<Key, I>, kvs: seq<(Key, V)>) {
    && (forall i | 0 <= i < |kvs| && decode(kvs[i].1).Some? :: kvs[i].0 in m && m[kvs[i].0] == decode(kvs[i].1).value)
    && (forall k | k in m :: exists i :: 0 <= i < |kvs| && kvs[i].0 == k && decode(kvs[i].1).Some?)
  }

  /** The pairs are those of the map. */
  ghost predicate PairsOf<V>(kvs: seq<(Key, V)>, m: map<Key, V>) {
    && DistinctKeys(kvs)
    && (forall i | 0 <= i < |kvs| :: kvs[i].0 in m && m[kvs[i].0] == kvs[i].1)
    && (forall k | k in m :: exists i :: 0 <= i < |kvs| && kvs[i].0 == k)
  }

  lemma SnapshotDecodes<V, I>(decode: V -> Option<I>, held: map<Key, I>, kvs: seq<(Key, V)>, m: map<Key, V>)
    requires HoldsPairs(decode, held, kvs) && PairsOf(kvs, m)
    ensures held == Decoded(decode, m)
  {
    var server := Decoded(decode, m);
    forall k | k in held
      ensures k in server && server[k] == held[k]
    {
      var i :| 0 <= i < |kvs| && kvs[i].0 == k && decode(kvs[i].1).Some?;
      assert kvs[i].0 in m;
    }
    forall k | k in server
      ensures k in held
    {
      var i :| 0 <= i < |kvs| && kvs[i].0 == k;
      assert decode(kvs[i].1).Some?;
    }
  }

  class Watcher<V, I> {
    const decode: V -> Option<I>
    var init: bool
    var current: Option<map<Key, I>>    // None until a snapshot has succeeded

    constructor (decode: V -> Option<I>)
      ensures this.decode == decode && !init && current == None
    {
      this.decode, this.init, this.current := decode, false, None;
    }

    method Snapshot(m: map<Key, I>) returns (list: seq<I>, ghost keys: seq<Key>)
      ensures Lists(list, m, keys)
    {
      list, keys := [], [];
      var todo := m.Keys;
      while todo != {}
        invariant todo <= m.Keys && |keys| == |list|
        invariant forall i, j | 0 <= i < j < |keys| :: keys[i] != keys[j]
        invariant forall k :: k in keys <==> k in m && k !in todo
        invariant forall i | 0 <= i < |keys| :: keys[i] in m && list[i] == m[keys[i]]
        decreases |todo|
      {
        var k :| k in todo;
        list, keys, todo := list + [m[k]], keys + [k], todo - {k};
      }
    }

    /** A full Get rebuilds the map; a failed one leaves it as it is. */
    method FullSnapshot(get: Option<seq<(Key, V)>>) returns (reply: Reply<I>, ghost keys: seq<Key>)
      requires get.Some? ==> DistinctKeys(get.value)
      modifies this`current
      ensures get.None? ==> reply == Error && current == old(current)
      ensures get.Some? ==> current.Some? && HoldsPairs(decode, current.value, get.value)
                            && reply.Instances? && Lists(reply.list, current.value, keys)
    {
      keys := [];
      if get.None? {
        return Error, [];
      }
      var kvs, m := get.value, map[];
      for i := 0 to |kvs|
        invariant forall j | 0 <= j < i && decode(kvs[j].1).Some? :: kvs[j].0 in m && m[kvs[j].0] == decode(kvs[j].1).value
        invariant forall k | k in m :: exists j :: 0 <= j < i && kvs[j].0 == k && decode(kvs[j].1).Some?
      {
        var d := decode(kvs[i].1);
        if d.Some? {
          m := m[kvs[i].0 := d.value];
        }
      }
      current := Some(m);
      var list, ks := Snapshot(m);
      return Instances(list), ks;
    }

    /** The first call, and every call after a broken watch, takes a full snapshot; the others patch the map.
        If no snapshot has ever succeeded, patching a decodable put into the missing map panics. */
    method Next(recv: Receipt<V>, get: Option<seq<(Key, V)>>) returns (reply: Reply<I>, ghost keys: seq<Key>)
      requires get.Some? ==> DistinctKeys(get.value)
      modifies this
      ensures init
      ensures !old(init) || recv.Broken? ==>
                if get.None? then reply == Error && current == old(current)
                else current.Some? && HoldsPairs(decode, current.value, get.value) && reply.Instances? && Lists(reply.list, current.value, keys)
      ensures old(init) && recv.Closed? ==> reply == Error && current == old(current)
      ensures old(init) && recv.Events? && old(current).Some? ==>
                && current == Some(PatchAll(decode, old(current).value, recv.events))
                && reply.Instances? && Lists(reply.list, current.value, keys)
      ensures old(init) && recv.Events? && old(current).None? ==>
                && current.None?
                && if exists ev :: ev in recv.events && ev.Put? && !Skipped(decode, ev) then reply == Panic else reply == Instances([])
    {
      keys := [];
      if !init {
        init := true;
        reply, keys := FullSnapshot(get);
        return;
      }
      match recv
      case Closed =>
        return Error, [];
      case Broken =>
        reply, keys := FullSnapshot(get);
      case Events(events) =>
        if current.None? {
          for i := 0 to |events|
            invariant forall j | 0 <= j < i :: !(events[j].Put? && !Skipped(decode, events[j]))
          {
            if events[i].Put? && decode(events[i].value).Some? {
              assert events[i] in events && !Skipped(decode, events[i]);
              return Panic, [];
            }
          }
          return Instances([]), [];
        }
        var m := current.value;
        for i := 0 to |events|
          invariant m == PatchAll(decode, current.value, events[..i])
        {
          assert events[..i + 1][..i] == events[..i];
          match events[i] {
            case Put(k, v) =>
              if decode(v).Some? {
                m := m[k := decode(v).value];
              }
            case Delete(k) =>
              m := m - {k};
          }
        }
        assert events[..|events|] == events;
        current := Some(m);
        var list, ks := Snapshot(m);
        return Instances(list), ks;
    }
  }

  /** The first call on a new watcher, when Get lists the server's map at revision `rev`. */
  method Open<V, I>(decode: V -> Option<I>, ghost history: seq<Event<V>>, ghost start: nat, ghost rev: nat, get: seq<(Key, V)>)
    returns (w: Watcher<V, I>, list: seq<I>, ghost keys: seq<Key>)
    requires start <= rev <= |history| && PairsOf(get, Server(history[..rev]))
    ensures fresh(w) && w.decode == decode && w.init && w.current == Some(Opened(decode, history, start, rev).current)
    ensures Lists(list, w.current.value, keys)
  {
    w := new Watcher(decode);
    var reply;
    reply, keys := w.Next(Closed, Some(get));
    list := reply.list;
    SnapshotDecodes(decode, w.current.value, get, Server(history[..rev]));
  }

  /** Every later call does to the object what its input does to the watcher within the server's history: a broken
      watch resyncs at the revision of the Get, and a batch delivers the next events.  So what is proved of runs of
      inputs holds of the object. */
  method Follow<V, I>(w: Watcher<V, I>, ghost history: seq<Event<V>>, ghost s: Watching<I>, ghost x: Input, recv: Receipt<V>, get: Option<seq<(Key, V)>>)
    returns (list: seq<I>, ghost keys: seq<Key>)
    requires w.init && w.current == Some(s.current) && Delivers(history, s, x)
    requires x.Batch? ==> recv == Events(history[s.pos..s.pos + x.n]) && get.None?
    requires x.Resync? ==> recv.Broken? && get.Some? && PairsOf(get.value, Server(history[..x.rev]))
    modifies w
    ensures w.init && w.current == Some(Feed(w.decode, history, s, x).current)
    ensures Lists(list, w.current.value, keys)
  {
    var reply;
    reply, keys := w.Next(recv, get);
    list := reply.list;
    if x.Resync? {
      SnapshotDecodes(w.decode, w.current.value, get.value, Server(history[..x.rev]));
    }
  }

  /** From a new watcher: the first Get fails, and then any put that decodes panics. */
  method PanicsAfterFailedSnapshot<V, I>(decode: V -> Option<I>, key: Key, value: V) returns (first: Reply<I>, second: Reply<I>)
    requires decode(value).Some?
    ensures first == Error && second == Panic
  {
    var w := new Watcher(decode);
    ghost var keys;
    first, keys := w.Next(Closed, None);
    var put := Put(key, value);
    assert put in [put] && !Skipped(decode, put);
    second, keys := w.Next(Events([put]), None);
  }
}
