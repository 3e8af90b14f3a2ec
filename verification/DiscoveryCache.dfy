/** The discovery cache: what it returns, and when it may ask the registry, over any run for one name. */
module DiscoveryCaches {
  import opened Wrappers

  datatype Instance = Instance(id: string, payload: string)

  datatype Config = Config(ttl: int, nodeTTL: int, minRetryInterval: int)

  /** What the cache knows about one service name. */
  datatype Entry = Entry(snapshot: Option<seq<Instance>>, expires: Option<int>, nodeExpiry: map<string, int>, lastRefresh: Option<int>)

  const UNKNOWN := Entry(None, None, map[], None)

  /** One lookup: the clock when it starts, and, if it asks the registry, its answer and the clock after it. */
  datatype Lookup = Lookup(now: int, answer: Option<seq<Instance>>, done: int)

  datatype Outcome = Outcome(entry: Entry, result: Option<seq<Instance>>, asked: bool)

  predicate IsValid(e: Entry, now: int) {
    e.snapshot.Some? && e.expires.Some? && now <= e.expires.value
  }

  function Known(e: Entry): seq<Instance> {
    if e.snapshot.Some? then e.snapshot.value else []
  }

  predicate IsThrottled(cfg: Config, e: Entry, now: int) {
    Known(e) != [] && e.lastRefresh.Some? && now - e.lastRefresh.value < cfg.minRetryInterval
  }

  /** The instances whose mark has not expired, from position `i` on, and the marks that are left: an expired
      mark is dropped with the first instance that carries it. */
  function Prune(insts: seq<Instance>, i: nat, marks: map<string, int>, now: int): (seq<Instance>, map<string, int>)
    requires i <= |insts|
    decreases |insts| - i
  {
    if i == |insts| then ([], marks) else
      var x := insts[i];
      if x.id in marks && marks[x.id] < now then Prune(insts, i + 1, marks - {x.id}, now)
      else var (kept, left) := Prune(insts, i + 1, marks, now); ([x] + kept, left)
  }

  function Pruned(e: Entry, now: int): Outcome {
    if |e.nodeExpiry| == 0 then Outcome(e, Some(Known(e)), false) else
      var (kept, left) := Prune(Known(e), 0, e.nodeExpiry, now);
      Outcome(e.(nodeExpiry := left), Some(kept), false)
  }

  function Marks(insts: seq<Instance>, expiry: int): map<string, int> {
    if insts == [] then map[] else Marks(insts[..|insts| - 1], expiry)[insts[|insts| - 1].id := expiry]
  }

  function Serve(cfg: Config, e: Entry, l: Lookup): Outcome {
    if IsValid(e, l.now) || IsThrottled(cfg, e, l.now) then Pruned(e, l.now)
    else if l.answer.None? then
      Outcome(e.(lastRefresh := Some(l.done)), if Known(e) != [] then Some(Known(e)) else None, true)
    else
      Outcome(Entry(l.answer, Some(l.done + cfg.ttl), Marks(l.answer.value, l.done + cfg.nodeTTL), Some(l.done)), l.answer, true)
  }

  // ---------------------------------------------------------------- runs

  function After(cfg: Config, ls: seq<Lookup>): Entry {
    if ls == [] then UNKNOWN else Serve(cfg, After(cfg, ls[..|ls| - 1]), ls[|ls| - 1]).entry
  }

  /** What lookup `i` of a run comes to. */
  function At(cfg: Config, ls: seq<Lookup>, i: nat): Outcome
    requires i < |ls|
  {
    Serve(cfg, After(cfg, ls[..i]), ls[i])
  }

  /** The answer of the last lookup that asked the registry and got one. */
  function LastSuccess(cfg: Config, ls: seq<Lookup>): Option<seq<Instance>> {
    if ls == [] then None else
      var n := |ls| - 1;
      if At(cfg, ls, n).asked && ls[n].answer.Some? then ls[n].answer else LastSuccess(cfg, ls[..n])
  }

  /** Lookups of one name do not overlap, and the clock does not go back. */
  ghost predicate InOrder(ls: seq<Lookup>) {
    && (forall i | 0 <= i < |ls| :: ls[i].now <= ls[i].done)
    && (forall i, j | 0 <= i < j < |ls| :: ls[i].done <= ls[j].now)
  }

  ghost predicate SubList<T>(a: seq<T>, b: seq<T>) {
    a == [] || (b != [] && if a[0] == b[0] then SubList(a[1..], b[1..]) || SubList(a, b[1..]) else SubList(a, b[1..]))
  }

  lemma {:induction false} PrunedIsSubList(insts: seq<Instance>, i: nat, marks: map<string, int>, now: int)
    requires i <= |insts|
    ensures SubList(Prune(insts, i, marks, now).0, insts[i..])
    decreases |insts| - i
  {
    if i < |insts| {
      var x := insts[i];
      assert insts[i..] == [x] + insts[i + 1..];
      if x.id in marks && marks[x.id] < now {
        PrunedIsSubList(insts, i + 1, marks - {x.id}, now);
        SkipHead(Prune(insts, i + 1, marks - {x.id}, now).0, x, insts[i + 1..]);
      } else {
        PrunedIsSubList(insts, i + 1, marks, now);
        var kept := Prune(insts, i + 1, marks, now).0;
        assert ([x] + kept)[1..] == kept && ([x] + insts[i + 1..])[1..] == insts[i + 1..];
      }
    }
  }

  lemma PruneStep(insts: seq<Instance>, i: nat, marks: map<string, int>, now: int, done: seq<Instance>)
    requires i < |insts|
    ensures var x := insts[i];
            if x.id in marks && marks[x.id] < now then Prune(insts, i, marks, now) == Prune(insts, i + 1, marks - {x.id}, now)
            else
              && done + Prune(insts, i, marks, now).0 == (done + [x]) + Prune(insts, i + 1, marks, now).0
              && Prune(insts, i, marks, now).1 == Prune(insts, i + 1, marks, now).1
  {
  }

  lemma SkipHead<T>(a: seq<T>, x: T, b: seq<T>)
    requires SubList(a, b)
    ensures SubList(a, [x] + b)
  {
    assert ([x] + b)[1..] == b;
  }

  lemma {:induction false} WholeIsSubList<T>(a: seq<T>)
    ensures SubList(a, a)
  {
    if a != [] {
      WholeIsSubList(a[1..]);
    }
  }

  lemma {:induction false} SnapshotIsLastSuccess(cfg: Config, ls: seq<Lookup>)
    ensures After(cfg, ls).snapshot == LastSuccess(cfg, ls)
  {
    if ls != [] {
      SnapshotIsLastSuccess(cfg, ls[..|ls| - 1]);
    }
  }

  /** Every successful result is a sub-list of the latest answer the registry gave, this lookup's included; an
      error is returned only when the registry has just failed and there is no instance to fall back on. */
  lemma ResultsComeFromTheLastSuccess(cfg: Config, ls: seq<Lookup>, i: nat)
    requires i < |ls|
    ensures var out := At(cfg, ls, i);
            var last := LastSuccess(cfg, ls[..i + 1]);
            && (out.result.Some? ==> last.Some? && SubList(out.result.value, last.value))
            && (out.result.None? <==> out.asked && ls[i].answer.None? && (last.None? || last.value == []))
  {
    var out, e := At(cfg, ls, i), After(cfg, ls[..i]);
    assert ls[..i + 1][..i] == ls[..i];
    SnapshotIsLastSuccess(cfg, ls[..i]);
    SnapshotIsLastSuccess(cfg, ls[..i + 1]);
    WholeIsSubList(Known(e));
    PrunedIsSubList(Known(e), 0, e.nodeExpiry, ls[i].now);
    assert Known(e)[0..] == Known(e);
    if ls[i].answer.Some? {
      WholeIsSubList(ls[i].answer.value);
    }
  }

  /** The instance's id occurs earlier in the list. */
  predicate Repeated(insts: seq<Instance>, i: nat)
    requires i < |insts|
  {
    exists j | 0 <= j < i :: insts[j].id == insts[i].id
  }

  /** A lookup that prunes leaves out exactly the instances whose mark has expired, each id once ... */
  function Unexpired(insts: seq<Instance>, i: nat, marks: map<string, int>, now: int): seq<Instance>
    requires i <= |insts|
    decreases |insts| - i
  {
    if i == |insts| then [] else
      var x := insts[i];
      (if x.id in marks && marks[x.id] < now && !Repeated(insts, i) then [] else [x]) + Unexpired(insts, i + 1, marks, now)
  }

  lemma {:induction false} PruneIsExact(insts: seq<Instance>, i: nat, all: map<string, int>, marks: map<string, int>, now: int)
    requires i <= |insts|
    requires forall id :: id in marks <==> id in all && !(all[id] < now && exists j | 0 <= j < i :: insts[j].id == id)
    requires forall id | id in marks :: marks[id] == all[id]
    ensures Prune(insts, i, marks, now).0 == Unexpired(insts, i, all, now)
    ensures forall id :: id in Prune(insts, i, marks, now).1 <==> id in all && !(all[id] < now && exists j | 0 <= j < |insts| :: insts[j].id == id)
    decreases |insts| - i
  {
    if i < |insts| {
      var x := insts[i];
      if x.id in marks && marks[x.id] < now {
        PruneIsExact(insts, i + 1, all, marks - {x.id}, now);
      } else {
        PruneIsExact(insts, i + 1, all, marks, now);
      }
    }
  }

  lemma {:induction false} NothingExpiredNothingPruned(insts: seq<Instance>, i: nat, marks: map<string, int>, now: int)
    requires i <= |insts| && forall j | 0 <= j < |insts| :: insts[j].id in marks ==> marks[insts[j].id] >= now
    ensures Prune(insts, i, marks, now) == (insts[i..], marks)
    decreases |insts| - i
  {
    if i < |insts| {
      NothingExpiredNothingPruned(insts, i + 1, marks, now);
      assert insts[i..] == [insts[i]] + insts[i + 1..];
    }
  }

  // ---------------------------------------------------------------- what the node TTL comes to

  /** The instances whose id occurs earlier in the list. */
  function Repeats(insts: seq<Instance>, i: nat): seq<Instance>
    requires i <= |insts|
    decreases |insts| - i
  {
    if i == |insts| then [] else
      (if Repeated(insts, i) then [insts[i]] else []) + Repeats(insts, i + 1)
  }

  lemma {:induction false} DistinctIdsDoNotRepeat(insts: seq<Instance>, i: nat)
    requires i <= |insts| && forall j, k | 0 <= j < k < |insts| :: insts[j].id != insts[k].id
    ensures Repeats(insts, i) == []
    decreases |insts| - i
  {
    if i < |insts| {
      DistinctIdsDoNotRepeat(insts, i + 1);
    }
  }

  lemma {:induction false} MarksAreForAll(insts: seq<Instance>, expiry: int)
    ensures forall j | 0 <= j < |insts| :: insts[j].id in Marks(insts, expiry)
    ensures forall id | id in Marks(insts, expiry) :: Marks(insts, expiry)[id] == expiry && exists j :: 0 <= j < |insts| && insts[j].id == id
  {
    if insts != [] {
      var front := insts[..|insts| - 1];
      MarksAreForAll(front, expiry);
      assert insts == front + [insts[|insts| - 1]];
      forall id | id in Marks(insts, expiry)
        ensures exists j :: 0 <= j < |insts| && insts[j].id == id
      {
        if id != insts[|insts| - 1].id {
          var j :| 0 <= j < |front| && front[j].id == id;
          assert insts[j].id == id;
        }
      }
    }
  }

  lemma {:induction false} UnexpiredRepeats(insts: seq<Instance>, i: nat, marks: map<string, int>, now: int)
    requires i <= |insts| && forall j | 0 <= j < |insts| :: insts[j].id in marks && marks[insts[j].id] < now
    ensures Unexpired(insts, i, marks, now) == Repeats(insts, i)
    decreases |insts| - i
  {
    if i < |insts| {
      UnexpiredRepeats(insts, i + 1, marks, now);
    }
  }

  /** All marks of one answer expire together: up to then nothing is pruned, afterwards everything, marks included. */
  lemma PruneAnswer(insts: seq<Instance>, expiry: int, now: int)
    ensures Prune(insts, 0, Marks(insts, expiry), now) ==
            if expiry < now then (Repeats(insts, 0), map[]) else (insts, Marks(insts, expiry))
  {
    var marks := Marks(insts, expiry);
    MarksAreForAll(insts, expiry);
    if expiry < now {
      PruneIsExact(insts, 0, marks, marks, now);
      UnexpiredRepeats(insts, 0, marks, now);
      var left := Prune(insts, 0, marks, now).1;
      assert forall id :: id !in left;
      assert left == map[];
    } else {
      NothingExpiredNothingPruned(insts, 0, marks, now);
      assert insts[0..] == insts;
    }
  }

  predicate Succeeds(cfg: Config, ls: seq<Lookup>, i: nat)
    requires i < |ls|
  {
    At(cfg, ls, i).asked && ls[i].answer.Some?
  }

  /** A lookup that the cache serves by itself, after the expiry. */
  predicate ServedLate(cfg: Config, ls: seq<Lookup>, i: nat, expiry: int)
    requires i < |ls|
  {
    !At(cfg, ls, i).asked && expiry < ls[i].now
  }

  /** The entry holds an answer, with all its marks or, once they are `gone`, none. */
  predicate Keeps(e: Entry, insts: seq<Instance>, expiry: int, gone: bool) {
    e.snapshot == Some(insts) && e.nodeExpiry == if gone then map[] else Marks(insts, expiry)
  }

  lemma PruneKept(e: Entry, insts: seq<Instance>, expiry: int, gone: bool, now: int)
    requires Keeps(e, insts, expiry, gone)
    ensures Keeps(Pruned(e, now).entry, insts, expiry, gone || expiry < now)
    ensures Pruned(e, now).result == Some(if !gone && expiry < now then Repeats(insts, 0) else insts)
  {
    PruneAnswer(insts, expiry, now);
    MarksAreForAll(insts, expiry);
    if insts != [] {
      assert insts[0].id in Marks(insts, expiry);
    }
  }

  /** One lookup that does not succeed. */
  lemma ServeKept(cfg: Config, e: Entry, insts: seq<Instance>, expiry: int, gone: bool, l: Lookup)
    requires Keeps(e, insts, expiry, gone) && !(Serve(cfg, e, l).asked && l.answer.Some?)
    ensures var out := Serve(cfg, e, l);
            var late := !out.asked && expiry < l.now;
            && Keeps(out.entry, insts, expiry, gone || late)
            && out.result == if out.asked && insts == [] then None else if late && !gone then Some(Repeats(insts, 0)) else Some(insts)
  {
    PruneKept(e, insts, expiry, gone, l.now);
  }

  predicate SomeServedLate(cfg: Config, ls: seq<Lookup>, i: nat, j: nat, expiry: int)
    requires i < j <= |ls|
  {
    exists k | i < k < j :: ServedLate(cfg, ls, k, expiry)
  }

  /** Until the next success, the snapshot stays, and its marks until the first lookup served late. */
  lemma {:induction false} MarksUntilServedLate(cfg: Config, ls: seq<Lookup>, i: nat, j: nat)
    requires i < j <= |ls| && Succeeds(cfg, ls, i) && forall k | i < k < j :: !Succeeds(cfg, ls, k)
    ensures var insts, expiry := ls[i].answer.value, ls[i].done + cfg.nodeTTL;
            Keeps(After(cfg, ls[..j]), insts, expiry, SomeServedLate(cfg, ls, i, j, expiry))
    decreases j
  {
    var insts, expiry := ls[i].answer.value, ls[i].done + cfg.nodeTTL;
    var n := j - 1;
    assert ls[..j][..n] == ls[..n];
    assert After(cfg, ls[..j]) == At(cfg, ls, n).entry;
    if n > i {
      MarksUntilServedLate(cfg, ls, i, n);
      assert !Succeeds(cfg, ls, n);
      ServeKept(cfg, After(cfg, ls[..n]), insts, expiry, SomeServedLate(cfg, ls, i, n, expiry), ls[n]);
      OneMoreServed(cfg, ls, i, n, expiry);
    }
  }

  lemma OneMoreServed(cfg: Config, ls: seq<Lookup>, i: nat, n: nat, expiry: int)
    requires i < n < |ls|
    ensures SomeServedLate(cfg, ls, i, n + 1, expiry) <==> SomeServedLate(cfg, ls, i, n, expiry) || ServedLate(cfg, ls, n, expiry)
  {
  }

  /** Over any run, until the next success: a lookup served by the cache returns the whole snapshot, expired or not,
      unless it is the first one after the expiry, and then it returns nothing but repeated ids; a lookup that
      asks in vain falls back on the whole snapshot whatever has expired. */
  lemma NodesVanishOnce(cfg: Config, ls: seq<Lookup>, i: nat, j: nat)
    requires i < j < |ls| && Succeeds(cfg, ls, i) && forall k | i < k <= j :: !Succeeds(cfg, ls, k)
    ensures var insts, expiry := ls[i].answer.value, ls[i].done + cfg.nodeTTL;
            var out := At(cfg, ls, j);
            var first := ServedLate(cfg, ls, j, expiry) && forall k | i < k < j :: !ServedLate(cfg, ls, k, expiry);
            out.result == if out.asked && insts == [] then None else if first then Some(Repeats(insts, 0)) else Some(insts)
  {
    var insts, expiry := ls[i].answer.value, ls[i].done + cfg.nodeTTL;
    MarksUntilServedLate(cfg, ls, i, j);
    assert !Succeeds(cfg, ls, j);
    ServeKept(cfg, After(cfg, ls[..j]), insts, expiry, SomeServedLate(cfg, ls, i, j, expiry), ls[j]);
  }

  /** So an answer of distinct nodes is gone as a whole from the first lookup served after its expiry, and back in
      every later one, until the registry answers again. */
  lemma ExpiredNodesComeBack(cfg: Config, ls: seq<Lookup>, i: nat, j: nat, l: nat)
    requires i < j < l < |ls| && Succeeds(cfg, ls, i) && forall k | i < k <= l :: !Succeeds(cfg, ls, k)
    requires var insts := ls[i].answer.value; forall a, b | 0 <= a < b < |insts| :: insts[a].id != insts[b].id
    requires var expiry := ls[i].done + cfg.nodeTTL;
             ServedLate(cfg, ls, j, expiry) && forall k | i < k < j :: !ServedLate(cfg, ls, k, expiry)
    ensures At(cfg, ls, j).result == Some([])
    ensures !At(cfg, ls, l).asked || ls[i].answer.value != [] ==> At(cfg, ls, l).result == ls[i].answer
  {
    DistinctIdsDoNotRepeat(ls[i].answer.value, 0);
    NodesVanishOnce(cfg, ls, i, j);
    NodesVanishOnce(cfg, ls, i, l);
  }

  /** It happens: nodes that expire at once, within the TTL of the answer. */
  lemma NodesDoVanish(x: Instance) returns (cfg: Config, ls: seq<Lookup>)
    ensures |ls| == 3 && At(cfg, ls, 0).result == Some([x]) && At(cfg, ls, 1).result == Some([]) && At(cfg, ls, 2).result == Some([x])
  {
    cfg := Config(10, 0, 0);
    ls := [Lookup(0, Some([x]), 0), Lookup(1, None, 1), Lookup(2, None, 2)];
    assert After(cfg, ls[..0]) == UNKNOWN;
    assert Succeeds(cfg, ls, 0);
    var e := Entry(Some([x]), Some(10), Marks([x], 0), Some(0));
    assert ls[..1][..0] == [] && After(cfg, ls[..1]) == e;
    assert IsValid(e, 1);
    NodesVanishOnce(cfg, ls, 0, 1);
    DistinctIdsDoNotRepeat([x], 0);
    assert ls[..2][..1] == ls[..1];
    assert IsValid(After(cfg, ls[..2]), 2);
    ExpiredNodesComeBack(cfg, ls, 0, 1, 2);
  }

  /** The marks a lookup leaves: when the last attempt ended, and how long the last success counts. */
  lemma {:induction false} AttemptsAreRemembered(cfg: Config, ls: seq<Lookup>, i: nat)
    requires InOrder(ls) && i < |ls| && At(cfg, ls, i).asked
    ensures var e := After(cfg, ls);
            && e.lastRefresh.Some? && ls[i].done <= e.lastRefresh.value
            && (ls[i].answer.Some? ==> e.snapshot.Some? && e.expires.Some? && ls[i].done + cfg.ttl <= e.expires.value)
    decreases |ls|
  {
    var n := |ls| - 1;
    assert ls[..n + 1] == ls;
    if i < n {
      assert ls[..n][..i] == ls[..i];
      AttemptsAreRemembered(cfg, ls[..n], i);
      assert ls[i].done <= ls[n].now <= ls[n].done;
    }
  }

  /** The registry is asked neither within the TTL of a success, nor within the retry interval of any attempt
      while a non-empty snapshot is held. */
  lemma RegistryIsSpared(cfg: Config, ls: seq<Lookup>, i: nat, j: nat)
    requires InOrder(ls) && i < j < |ls| && At(cfg, ls, i).asked && At(cfg, ls, j).asked
    ensures ls[i].answer.Some? ==> ls[j].now > ls[i].done + cfg.ttl
    ensures Known(After(cfg, ls[..j])) != [] ==> ls[j].now - ls[i].done >= cfg.minRetryInterval
  {
    assert ls[..j][..i] == ls[..i];
    AttemptsAreRemembered(cfg, ls[..j], i);
  }

  lemma {:induction false} SameAt(cfg: Config, ls: seq<Lookup>, j: nat, i: nat)
    requires i < j <= |ls|
    ensures ls[..j][i] == ls[i] && At(cfg, ls[..j], i) == At(cfg, ls, i)
  {
    assert ls[..j][..i] == ls[..i];
  }

  /** Where the cache's marks come from: the end of an attempt, and a success. */
  lemma {:induction false} MarksHaveCauses(cfg: Config, ls: seq<Lookup>) returns (attempt: nat, success: nat)
    ensures var e := After(cfg, ls);
            && (e.lastRefresh.Some? ==> attempt < |ls| && At(cfg, ls, attempt).asked && ls[attempt].done == e.lastRefresh.value)
            && (e.expires.Some? ==> success < |ls| && Succeeds(cfg, ls, success) && ls[success].done + cfg.ttl == e.expires.value)
  {
    attempt, success := 0, 0;
    if ls != [] {
      var n := |ls| - 1;
      attempt, success := MarksHaveCauses(cfg, ls[..n]);
      if attempt < n {
        SameAt(cfg, ls, n, attempt);
      }
      if success < n {
        SameAt(cfg, ls, n, success);
      }
      assert After(cfg, ls) == At(cfg, ls, n).entry;
      if At(cfg, ls, n).asked {
        attempt := n;
      }
      if Succeeds(cfg, ls, n) {
        success := n;
      }
    }
  }

  /** Within the TTL of an earlier success. */
  ghost predicate RecentSuccess(cfg: Config, ls: seq<Lookup>, j: nat)
    requires j < |ls|
  {
    exists i :: 0 <= i < j && Succeeds(cfg, ls, i) && ls[j].now <= ls[i].done + cfg.ttl
  }

  /** Within the retry interval of an earlier attempt. */
  ghost predicate RecentAttempt(cfg: Config, ls: seq<Lookup>, j: nat)
    requires j < |ls|
  {
    exists i :: 0 <= i < j && At(cfg, ls, i).asked && ls[j].now - ls[i].done < cfg.minRetryInterval
  }

  lemma {:induction false} ValidIffRecent(cfg: Config, ls: seq<Lookup>, j: nat)
    requires InOrder(ls) && j < |ls|
    ensures IsValid(After(cfg, ls[..j]), ls[j].now) <==> RecentSuccess(cfg, ls, j)
  {
    var front, e := ls[..j], After(cfg, ls[..j]);
    if RecentSuccess(cfg, ls, j) {
      var i :| 0 <= i < j && Succeeds(cfg, ls, i) && ls[j].now <= ls[i].done + cfg.ttl;
      SameAt(cfg, ls, j, i);
      AttemptsAreRemembered(cfg, front, i);
    }
    if IsValid(e, ls[j].now) {
      var _, i := MarksHaveCauses(cfg, front);
      SameAt(cfg, ls, j, i);
      assert Succeeds(cfg, ls, i);
    }
  }

  lemma {:induction false} ThrottledIffRecent(cfg: Config, ls: seq<Lookup>, j: nat)
    requires InOrder(ls) && j < |ls|
    ensures IsThrottled(cfg, After(cfg, ls[..j]), ls[j].now) <==> Known(After(cfg, ls[..j])) != [] && RecentAttempt(cfg, ls, j)
  {
    var front, e := ls[..j], After(cfg, ls[..j]);
    if RecentAttempt(cfg, ls, j) {
      var i :| 0 <= i < j && At(cfg, ls, i).asked && ls[j].now - ls[i].done < cfg.minRetryInterval;
      SameAt(cfg, ls, j, i);
      AttemptsAreRemembered(cfg, front, i);
    }
    if IsThrottled(cfg, e, ls[j].now) {
      var i, _ := MarksHaveCauses(cfg, front);
      SameAt(cfg, ls, j, i);
    }
  }

  /** Over every run, a lookup asks the registry if and only if it does not come within the TTL of an earlier success,
      nor, while the last success gave any instances, within the retry interval of an earlier attempt; and a lookup
      that asks and is answered returns that very answer. */
  lemma {:induction false} AsksIff(cfg: Config, ls: seq<Lookup>, j: nat)
    requires InOrder(ls) && j < |ls|
    ensures var last := LastSuccess(cfg, ls[..j]);
            At(cfg, ls, j).asked <==>
              && (forall i | 0 <= i < j && Succeeds(cfg, ls, i) :: ls[j].now > ls[i].done + cfg.ttl)
              && (last.None? || last.value == [] ||
                  forall i | 0 <= i < j && At(cfg, ls, i).asked :: ls[j].now - ls[i].done >= cfg.minRetryInterval)
    ensures Succeeds(cfg, ls, j) ==> At(cfg, ls, j).result == ls[j].answer
  {
    ValidIffRecent(cfg, ls, j);
    ThrottledIffRecent(cfg, ls, j);
    SnapshotIsLastSuccess(cfg, ls[..j]);
  }

  // ---------------------------------------------------------------- the cache object

  class DiscoveryCache {
    const cfg: Config
    var cache: map<string, seq<Instance>>
    var ttls: map<string, int>
    var nttls: map<string, map<string, int>>
    var lastRefresh: map<string, int>

    constructor (cfg: Config)
      ensures this.cfg == cfg && forall name :: View(name) == UNKNOWN
    {
      this.cfg := cfg;
      cache, ttls, nttls, lastRefresh := map[], map[], map[], map[];
    }

    ghost function View(name: string): Entry
      reads this
    {
      Entry(if name in cache then Some(cache[name]) else None,
            if name in ttls then Some(ttls[name]) else None,
            if name in nttls then nttls[name] else map[],
            if name in lastRefresh then Some(lastRefresh[name]) else None)
    }

    method PruneExpiredNodes(name: string, now: int) returns (kept: seq<Instance>)
      modifies this`nttls
      ensures Outcome(View(name), Some(kept), false) == Pruned(old(View(name)), now)
      ensures forall other | other != name :: View(other) == old(View(other))
    {
      var insts := if name in cache then cache[name] else [];
      var marks := if name in nttls then nttls[name] else map[];
      if |marks| == 0 {
        return insts;
      }
      ghost var all := Prune(insts, 0, marks, now);
      kept := [];
      for i := 0 to |insts|
        invariant nttls == old(nttls)
        invariant kept + Prune(insts, i, marks, now).0 == all.0 && Prune(insts, i, marks, now).1 == all.1
      {
        PruneStep(insts, i, marks, now, kept);
        if insts[i].id in marks && marks[insts[i].id] < now {
          marks := marks - {insts[i].id};
        } else {
          kept := kept + [insts[i]];
        }
      }
      assert Prune(insts, |insts|, marks, now) == ([], marks);
      assert kept + [] == kept;
      nttls := nttls[name := marks];
    }

    /** fetch: serves a valid snapshot, or a stale one while throttled; otherwise asks the registry, and on an
        error falls back to what it has. */
    method Fetch(name: string, l: Lookup) returns (result: Option<seq<Instance>>, asked: bool)
      modifies this
      ensures Outcome(View(name), result, asked) == Serve(cfg, old(View(name)), l)
      ensures forall other | other != name :: View(other) == old(View(other))
    {
      var valid := name in cache && name in ttls && l.now <= ttls[name];
      var throttled := name in cache && |cache[name]| > 0 && name in lastRefresh && l.now - lastRefresh[name] < cfg.minRetryInterval;
      if valid || throttled {
        var kept := PruneExpiredNodes(name, l.now);
        return Some(kept), false;
      }
      lastRefresh := lastRefresh[name := l.done];
      if l.answer.None? {
        if name in cache && |cache[name]| > 0 {
          return Some(cache[name]), true;
        }
        return None, true;
      }
      Record(name, l.answer.value, l.done);
      return l.answer, true;
    }

    /** Keeps an answer, with its expiry and a mark for every instance. */
    method Record(name: string, insts: seq<Instance>, done: int)
      modifies this`cache, this`ttls, this`nttls
      ensures View(name) == Entry(Some(insts), Some(done + cfg.ttl), Marks(insts, done + cfg.nodeTTL), old(View(name)).lastRefresh)
      ensures forall other | other != name :: View(other) == old(View(other))
    {
      cache := cache[name := insts];
      ttls := ttls[name := done + cfg.ttl];
      var marks := map[];
      for i := 0 to |insts|
        invariant marks == Marks(insts[..i], done + cfg.nodeTTL)
      {
        assert insts[..i + 1][..i] == insts[..i];
        marks := marks[insts[i].id := done + cfg.nodeTTL];
      }
      assert insts[..|insts|] == insts;
      nttls := nttls[name := marks];
    }
  }
}
