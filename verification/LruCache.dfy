/** The LRU part of the in-memory cache: a recency list, an element index and the data map, with an eviction
    callback from the list into the cache. */
module LruCaches {
  import opened Lists
  import opened Wrappers

  type Key = string

  ghost function Upto<T>(s: seq<T>, n: nat): seq<T> {
    if |s| <= n then s else s[..n]
  }

  ghost function Minus(keys: seq<Key>, k: Key): seq<Key> {
    if keys == [] then [] else (if keys[0] == k then [] else [keys[0]]) + Minus(keys[1..], k)
  }

  // ---------------------------------------------------------------- the ideal

  /** An ideal LRU cache: the keys it holds, most recently used first, and their values. */
  datatype Lru<V> = Lru(limit: nat, order: seq<Key>, data: map<Key, V>)

  ghost predicate Sound<V>(c: Lru<V>) {
    && 1 <= c.limit && |c.order| <= c.limit && NoDup(c.order)
    && forall k :: k in c.order <==> k in c.data
  }

  ghost function Keep<V>(c: Lru<V>, order: seq<Key>, data: map<Key, V>): Lru<V> {
    c.(order := order, data := map k | k in data && k in order :: data[k])
  }

  ghost function Set<V>(c: Lru<V>, k: Key, v: V): Lru<V> {
    Keep(c, Upto([k] + Minus(c.order, k), c.limit), c.data[k := v])
  }

  ghost function Get<V>(c: Lru<V>, k: Key): Lru<V> {
    if k in c.data then c.(order := [k] + Minus(c.order, k)) else c
  }

  ghost function Del<V>(c: Lru<V>, k: Key): Lru<V> {
    Keep(c, Minus(c.order, k), c.data)
  }

  // ---------------------------------------------------------------- the most recent keys

  /** The keys used one after the other, kept in a list of unlimited length. */
  ghost function Unlimited(uses: seq<Key>): seq<Key> {
    if uses == [] then [] else
      var k := uses[|uses| - 1];
      [k] + Minus(Unlimited(uses[..|uses| - 1]), k)
  }

  /** ... and in a list that drops its last key when it grows over the limit. */
  ghost function Limited(uses: seq<Key>, limit: nat): seq<Key> {
    if uses == [] then [] else
      var k := uses[|uses| - 1];
      Upto([k] + Minus(Limited(uses[..|uses| - 1], limit), k), limit)
  }

  lemma {:induction false} MinusFacts(keys: seq<Key>, k: Key)
    requires NoDup(keys)
    ensures NoDup(Minus(keys, k)) && forall x :: x in Minus(keys, k) <==> x in keys && x != k
    ensures k !in keys ==> Minus(keys, k) == keys
    ensures |Minus(keys, k)| == |keys| - if k in keys then 1 else 0
  {
    if keys != [] {
      MinusFacts(keys[1..], k);
      assert keys == [keys[0]] + keys[1..];
      assert keys[0] !in keys[1..];
    }
  }

  lemma {:induction false} MinusAt(keys: seq<Key>, i: nat)
    requires i < |keys| && NoDup(keys)
    ensures Minus(keys, keys[i]) == keys[..i] + keys[i + 1..]
  {
    MinusFacts(keys[1..], keys[i]);
    if i == 0 {
      assert keys[0] !in keys[1..];
    } else {
      MinusAt(keys[1..], i - 1);
      assert keys[..i] + keys[i + 1..] == [keys[0]] + (keys[1..][..i - 1] + keys[1..][i..]);
    }
  }

  /** Taking a key out of a prefix is a prefix of taking it out of the whole. */
  lemma {:induction false} MinusPrefix(keys: seq<Key>, n: nat, k: Key)
    requires NoDup(keys) && n <= |keys|
    ensures var m, m' := Minus(keys[..n], k), Minus(keys, k);
            |m| <= |m'| && m == m'[..|m|] && |m| >= n - 1 && (k !in keys[..n] ==> |m| == n)
  {
    MinusFacts(keys, k);
    MinusFacts(keys[..n], k);
    if k in keys {
      var i :| 0 <= i < |keys| && keys[i] == k;
      MinusAt(keys, i);
      if i < n {
        MinusAt(keys[..n], i);
        assert keys[..n][..i] + keys[..n][i + 1..] == (keys[..i] + keys[i + 1..])[..n - 1];
      }
    }
  }

  lemma {:induction false} UnlimitedNoDup(uses: seq<Key>)
    ensures NoDup(Unlimited(uses))
    ensures forall k :: k in Unlimited(uses) <==> k in uses
  {
    if uses != [] {
      UnlimitedNoDup(uses[..|uses| - 1]);
      MinusFacts(Unlimited(uses[..|uses| - 1]), uses[|uses| - 1]);
      assert uses == uses[..|uses| - 1] + [uses[|uses| - 1]];
    }
  }

  /** A limited list holds exactly the `limit` most recently used distinct keys, in order. */
  lemma {:induction false} LimitedIsMostRecent(uses: seq<Key>, limit: nat)
    requires limit >= 1
    ensures Limited(uses, limit) == Upto(Unlimited(uses), limit)
  {
    if uses != [] {
      var before, k := uses[..|uses| - 1], uses[|uses| - 1];
      LimitedIsMostRecent(before, limit);
      UnlimitedNoDup(before);
      var all := Unlimited(before);
      if |all| > limit {
        MinusPrefix(all, limit, k);
        var m, m' := Minus(all[..limit], k), Minus(all, k);
        assert Upto([k] + m, limit) == Upto([k] + m', limit);
      }
    }
  }

  // ---------------------------------------------------------------- every run

  datatype Op<V> = SetOp(key: Key, value: V) | GetOp(key: Key) | DelOp(key: Key)

  ghost function Step<V>(c: Lru<V>, op: Op<V>): Lru<V> {
    match op
    case SetOp(k, v) => Set(c, k, v)
    case GetOp(k) => Get(c, k)
    case DelOp(k) => Del(c, k)
  }

  ghost function Run<V>(c: Lru<V>, ops: seq<Op<V>>): Lru<V> {
    if ops == [] then c else Step(Run(c, ops[..|ops| - 1]), ops[|ops| - 1])
  }

  /** The keys a run uses: every set, and every get that finds its key. */
  ghost function Uses<V>(c: Lru<V>, ops: seq<Op<V>>): seq<Key> {
    if ops == [] then [] else
      var before, op := ops[..|ops| - 1], ops[|ops| - 1];
      Uses(c, before) + if op.SetOp? || (op.GetOp? && op.key in Run(c, before).data) then [op.key] else []
  }

  lemma StepSound<V>(c: Lru<V>, op: Op<V>)
    requires Sound(c)
    ensures Sound(Step(c, op)) && Step(c, op).limit == c.limit
  {
    MinusFacts(c.order, op.key);
    var order := [op.key] + Minus(c.order, op.key);
    assert NoDup(order);
    if op.SetOp? {
      assert forall k | k in Upto(order, c.limit) :: k in order;
    }
  }

  lemma {:induction false} RunSound<V>(c: Lru<V>, ops: seq<Op<V>>)
    requires Sound(c)
    ensures Sound(Run(c, ops)) && Run(c, ops).limit == c.limit
  {
    if ops != [] {
      RunSound(c, ops[..|ops| - 1]);
      StepSound(Run(c, ops[..|ops| - 1]), ops[|ops| - 1]);
    }
  }

  /** Until something is deleted, the cache holds exactly the most recently used distinct keys, up to its limit. */
  lemma {:induction false} HoldsTheMostRecent<V>(limit: nat, ops: seq<Op<V>>)
    requires limit >= 1 && forall op | op in ops :: !op.DelOp?
    ensures var c: Lru<V> := Lru(limit, [], map[]);
            Run(c, ops).order == Upto(Unlimited(Uses(c, ops)), limit)
  {
    var c: Lru<V> := Lru(limit, [], map[]);
    if ops != [] {
      var before, op := ops[..|ops| - 1], ops[|ops| - 1];
      HoldsTheMostRecent<V>(limit, before);
      RunSound(c, before);
      LimitedIsMostRecent(Uses(c, before), limit);
      LimitedIsMostRecent(Uses(c, ops), limit);
      assert op in ops;
      var held := Run(c, before);
      if op.GetOp? && op.key in held.data {
        MinusFacts(held.order, op.key);
      }
      assert Uses(c, ops) != Uses(c, before) ==> Uses(c, ops)[..|Uses(c, before)|] == Uses(c, before);
    }
  }

  // ---------------------------------------------------------------- the values

  /** The value of the last set on a key, unless it has been deleted since. */
  function LastSet<V>(ops: seq<Op<V>>, k: Key): Option<V> {
    if ops == [] then None else
      match ops[|ops| - 1]
      case SetOp(x, v) => if x == k then Some(v) else LastSet(ops[..|ops| - 1], k)
      case DelOp(x) => if x == k then None else LastSet(ops[..|ops| - 1], k)
      case GetOp(_) => LastSet(ops[..|ops| - 1], k)
  }

  /** Over any run from the empty cache, a key that is held has the value of the last set on it, and a key that was
      deleted since is not held. */
  lemma {:induction false} HoldsTheLastSet<V>(limit: nat, ops: seq<Op<V>>, k: Key)
    requires limit >= 1
    ensures var c: Lru<V> := Lru(limit, [], map[]);
            k in Run(c, ops).data ==> LastSet(ops, k) == Some(Run(c, ops).data[k])
    ensures ops != [] && ops[|ops| - 1].SetOp? && ops[|ops| - 1].key == k ==> k in Run(Lru(limit, [], map[]), ops).data
  {
    var c: Lru<V> := Lru(limit, [], map[]);
    if ops != [] {
      var before, op := ops[..|ops| - 1], ops[|ops| - 1];
      HoldsTheLastSet(limit, before, k);
      RunSound(c, before);
      MinusFacts(Run(c, before).order, op.key);
      assert op.SetOp? ==> Run(c, ops).order[0] == op.key;
    }
  }

  // ---------------------------------------------------------------- which keys stay, with deletions too

  /** The keys that come before a key used just before the run: used since, and not deleted after that. */
  ghost function Ahead<V>(c: Lru<V>, ops: seq<Op<V>>): set<Key> {
    if ops == [] then {} else
      var before, op := ops[..|ops| - 1], ops[|ops| - 1];
      match op
      case SetOp(x, _) => Ahead(c, before) + {x}
      case GetOp(x) => if x in Run(c, before).data then Ahead(c, before) + {x} else Ahead(c, before)
      case DelOp(x) => Ahead(c, before) - {x}
  }

  /** The list starts with `front`, and `k` comes next. */
  ghost predicate Leads(order: seq<Key>, front: seq<Key>, k: Key) {
    |front| < |order| && order[..|front|] == front && order[|front|] == k
  }

  ghost predicate SameKeys(keys: seq<Key>, all: set<Key>) {
    forall x :: x in keys <==> x in all
  }

  lemma {:induction false} SizeOfKeys(keys: seq<Key>, all: set<Key>)
    requires NoDup(keys) && SameKeys(keys, all)
    ensures |keys| == |all|
  {
    if keys == [] {
      assert all == {};
    } else {
      assert keys == [keys[0]] + keys[1..];
      assert keys[0] !in keys[1..];
      SizeOfKeys(keys[1..], all - {keys[0]});
    }
  }

  lemma {:induction false} MinusSplits(a: seq<Key>, b: seq<Key>, x: Key)
    ensures Minus(a + b, x) == Minus(a, x) + Minus(b, x)
  {
    if a == [] {
      assert a + b == b;
    } else {
      var head := if a[0] == x then [] else [a[0]];
      MinusSplits(a[1..], b, x);
      assert (a + b)[1..] == a[1..] + b;
      assert Minus(a + b, x) == head + (Minus(a[1..], x) + Minus(b, x));
      assert Minus(a, x) == head + Minus(a[1..], x);
    }
  }

  /** Taking another key out leaves `k` behind what is left of the front. */
  lemma MinusLeads(order: seq<Key>, front: seq<Key>, k: Key, x: Key)
    requires NoDup(order) && Leads(order, front, k) && x != k
    ensures Leads(Minus(order, x), Minus(front, x), k)
    ensures NoDup(front) && NoDup(Minus(front, x)) && forall y :: y in Minus(front, x) <==> y in front && y != x
  {
    var back := order[|front| + 1..];
    assert order == front + ([k] + back);
    MinusSplits(front, [k] + back, x);
    MinusSplits([k], back, x);
    assert Minus([k], x) == [k];
    MinusFacts(front, x);
  }

  /** Putting another key first does the same, and pushes `k` out exactly when the front fills the list. */
  lemma UseLeads(order: seq<Key>, front: seq<Key>, k: Key, x: Key, limit: nat)
    requires NoDup(order) && Leads(order, front, k) && x != k
    ensures var used, front' := [x] + Minus(order, x), [x] + Minus(front, x);
            && NoDup(front') && (forall y :: y in front' <==> y in front || y == x)
            && Leads(used, front', k)
            && if |front'| < limit then Leads(Upto(used, limit), front', k) else k !in Upto(used, limit)
  {
    MinusLeads(order, front, k, x);
    MinusFacts(order, x);
    var used, front' := [x] + Minus(order, x), [x] + Minus(front, x);
    assert used[..|front'|] == [x] + Minus(order, x)[..|front'| - 1];
    assert NoDup(used);
  }

  /** One operation on another key: the front changes as `Ahead` does, and `k` goes exactly when the front fills
      the cache. */
  lemma StepLeads<V>(c: Lru<V>, op: Op<V>, front: seq<Key>, k: Key) returns (front': seq<Key>)
    requires Sound(c) && Leads(c.order, front, k) && op.key != k
    ensures NoDup(front')
    ensures forall x :: x in front' <==>
              (x in front && !(op.DelOp? && x == op.key)) || (x == op.key && (op.SetOp? || (op.GetOp? && x in c.data)))
    ensures if |front'| < c.limit then Leads(Step(c, op).order, front', k) else k !in Step(c, op).order
  {
    var x := op.key;
    MinusLeads(c.order, front, k, x);
    UseLeads(c.order, front, k, x, c.limit);
    if op.DelOp? {
      MinusFacts(c.order, x);
      front' := Minus(front, x);
    } else if op.SetOp? {
      front' := [x] + Minus(front, x);
    } else if x in c.data {
      MinusFacts(c.order, x);
      front' := [x] + Minus(front, x);
    } else {
      front' := front;
    }
  }

  /** The keys before `k` are the keys ahead of it, as long as it is held. */
  lemma {:induction false} FrontIsAhead<V>(c: Lru<V>, k: Key, ops: seq<Op<V>>) returns (front: seq<Key>)
    requires Sound(c) && c.order != [] && c.order[0] == k && forall op | op in ops :: op.key != k
    ensures k in Run(c, ops).data ==> Leads(Run(c, ops).order, front, k) && NoDup(front) && SameKeys(front, Ahead(c, ops))
    ensures ops != [] ==>
              (k in Run(c, ops).data <==> k in Run(c, ops[..|ops| - 1]).data && |Ahead(c, ops)| < c.limit)
  {
    front := [];
    if ops != [] {
      var before, op := ops[..|ops| - 1], ops[|ops| - 1];
      var front' := FrontIsAhead(c, k, before);
      RunSound(c, before);
      assert op in ops;
      AheadSnoc(c, before, op, ops);
      front := NextFront(c, k, before, op, front');
    }
  }

  lemma AheadSnoc<V>(c: Lru<V>, before: seq<Op<V>>, op: Op<V>, ops: seq<Op<V>>)
    requires ops != [] && before == ops[..|ops| - 1] && op == ops[|ops| - 1]
    ensures Ahead(c, before + [op]) == Ahead(c, ops) && Run(c, ops) == Step(Run(c, before), op)
  {
    assert before + [op] == ops;
  }

  lemma {:induction false} NextFront<V>(c: Lru<V>, k: Key, before: seq<Op<V>>, op: Op<V>, front: seq<Key>) returns (front': seq<Key>)
    requires Sound(Run(c, before)) && Run(c, before).limit == c.limit && op.key != k
    requires var held := Run(c, before);
             k in held.data ==> Leads(held.order, front, k) && NoDup(front) && SameKeys(front, Ahead(c, before))
    ensures var held := Step(Run(c, before), op);
            && (k in held.data <==> k in Run(c, before).data && |Ahead(c, before + [op])| < c.limit)
            && (k in held.data ==> Leads(held.order, front', k) && NoDup(front') && SameKeys(front', Ahead(c, before + [op])))
  {
    front' := [];
    var held := Run(c, before);
    StepSound(held, op);
    if k in held.data {
      front' := StepLeads(held, op, front, k);
      assert (before + [op])[..|before|] == before;
      SizeOfKeys(front', Ahead(c, before + [op]));
      assert |front'| < c.limit ==> Step(held, op).order[|front'|] == k;
    } else {
      StaysOut(held, op, k);
    }
  }

  /** At no time of the run do as many keys as the cache holds come before a key used just before it. */
  ghost predicate NeverOvertaken<V>(c: Lru<V>, ops: seq<Op<V>>) {
    |Ahead(c, ops)| < c.limit && (ops != [] ==> NeverOvertaken(c, ops[..|ops| - 1]))
  }

  /** A key just used, and then neither used nor deleted, is still held exactly if it was never overtaken. */
  lemma {:induction false} HeldUnlessOvertaken<V>(c: Lru<V>, k: Key, ops: seq<Op<V>>)
    requires Sound(c) && c.order != [] && c.order[0] == k && forall op | op in ops :: op.key != k
    ensures k in Run(c, ops).data <==> NeverOvertaken(c, ops)
  {
    if ops == [] {
      assert k in c.order;
    } else {
      HeldUnlessOvertaken(c, k, ops[..|ops| - 1]);
      var _ := FrontIsAhead(c, k, ops);
    }
  }

  lemma StaysOut<V>(c: Lru<V>, op: Op<V>, k: Key)
    requires Sound(c) && k !in c.data && op.key != k
    ensures k !in Step(c, op).data
  {
  }

  // ---------------------------------------------------------------- the cache object

  /** A list element; the id tells two elements with one key apart. */
  datatype Element = Element(id: nat, key: Key)

  ghost function KeysOf(es: seq<Element>): (keys: seq<Key>)
    ensures |keys| == |es| && forall i | 0 <= i < |es| :: keys[i] == es[i].key
  {
    seq(|es|, i requires 0 <= i < |es| => es[i].key)
  }

  /** The list and the element index agree. */
  ghost predicate Linked(es: seq<Element>, index: map<Key, Element>, nextId: nat) {
    && (forall e | e in es :: e.id < nextId && e.key in index && index[e.key] == e)
    && (forall k | k in index :: index[k].key == k && index[k] in es)
    && NoDup(es)
  }

  lemma LinkedKeys(es: seq<Element>, index: map<Key, Element>, nextId: nat)
    requires Linked(es, index, nextId)
    ensures NoDup(KeysOf(es)) && forall k :: k in KeysOf(es) <==> k in index
  {
    forall i, j | 0 <= i < j < |es|
      ensures es[i].key != es[j].key
    {
      assert es[i] in es && es[j] in es;
    }
    forall k
      ensures k in KeysOf(es) <==> k in index
    {
      if k in index {
        var i :| 0 <= i < |es| && es[i] == index[k];
        assert KeysOf(es)[i] == k;
      }
      if k in KeysOf(es) {
        var i :| 0 <= i < |es| && KeysOf(es)[i] == k;
        assert es[i] in es;
      }
    }
  }

  lemma KeysOfDrop(es: seq<Element>, i: nat)
    requires i < |es| && NoDup(KeysOf(es))
    ensures KeysOf(RemoveAt(es, i)) == Minus(KeysOf(es), es[i].key)
  {
    MinusAt(KeysOf(es), i);
    assert KeysOf(RemoveAt(es, i)) == KeysOf(es)[..i] + KeysOf(es)[i + 1..];
  }

  lemma LinkedDrop(es: seq<Element>, index: map<Key, Element>, nextId: nat, i: nat)
    requires Linked(es, index, nextId) && i < |es|
    ensures Linked(RemoveAt(es, i), index - {es[i].key}, nextId)
    ensures KeysOf(RemoveAt(es, i)) == Minus(KeysOf(es), es[i].key)
  {
    RemoveAtFacts(es, i);
    LinkedKeys(es, index, nextId);
    KeysOfDrop(es, i);
    assert es[i] in es;
  }

  lemma LinkedPush(es: seq<Element>, index: map<Key, Element>, nextId: nat, e: Element, later: nat)
    requires Linked(es, index, nextId) && e.key !in index && e.id < later && nextId <= later
    ensures Linked([e] + es, index[e.key := e], later)
    ensures KeysOf([e] + es) == [e.key] + KeysOf(es)
  {
    assert e !in es;
  }

  lemma LinkedFront(es: seq<Element>, index: map<Key, Element>, nextId: nat, i: nat)
    requires Linked(es, index, nextId) && i < |es|
    ensures Linked([es[i]] + RemoveAt(es, i), index, nextId)
    ensures KeysOf([es[i]] + RemoveAt(es, i)) == [es[i].key] + Minus(KeysOf(es), es[i].key)
  {
    var e := es[i];
    assert e in es;
    LinkedDrop(es, index, nextId, i);
    LinkedPush(RemoveAt(es, i), index - {e.key}, nextId, e, nextId);
    assert (index - {e.key})[e.key := e] == index;
  }

  /** Values are kept for the keys that stay, and only for those. */
  lemma KeepExact<V>(c: Lru<V>, order: seq<Key>, data: map<Key, V>, data': map<Key, V>)
    requires forall k :: k in data' <==> k in data && k in order
    requires forall k | k in data' :: data'[k] == data[k]
    ensures Keep(c, order, data) == c.(order := order, data := data')
  {
    assert data' == map k | k in data && k in order :: data[k];
  }

  class Cache<V> {
    const limit: nat
    var data: map<Key, V>
    var evicts: seq<Element>            // the recency list
    var elements: map<Key, Element>     // the element of each key
    var nextId: nat

    ghost function View(): Lru<V>
      reads this
    {
      Lru(limit, KeysOf(evicts), data)
    }

    ghost predicate Valid()
      reads this
    {
      Linked(evicts, elements, nextId) && data.Keys == elements.Keys && 1 <= limit && |evicts| <= limit
    }

    constructor (limit: nat)
      requires 1 <= limit
      ensures Valid() && View() == Lru(limit, [], map[])
    {
      this.limit, data, evicts, elements, nextId := limit, map[], [], map[], 0;
    }

    lemma ValidIsSound()
      requires Valid()
      ensures Sound(View())
    {
      LinkedKeys(evicts, elements, nextId);
    }

    /** Takes an element out of the list and the index; the callback then takes its key out of the data. */
    method RemoveElement(e: Element)
      requires Linked(evicts, elements, nextId) && e in evicts
      modifies this`evicts, this`elements, this`data
      ensures Linked(evicts, elements, nextId)
      ensures KeysOf(evicts) == Minus(old(KeysOf(evicts)), e.key)
      ensures elements == old(elements) - {e.key} && data == old(data) - {e.key}
    {
      Unlink(e);
      OnEvict(e.key);
    }

    method Unlink(e: Element)
      requires Linked(evicts, elements, nextId) && e in evicts
      modifies this`evicts, this`elements
      ensures Linked(evicts, elements, nextId)
      ensures KeysOf(evicts) == Minus(old(KeysOf(evicts)), e.key) && elements == old(elements) - {e.key}
    {
      var i :| 0 <= i < |evicts| && evicts[i] == e;
      LinkedDrop(evicts, elements, nextId, i);
      evicts := RemoveAt(evicts, i);
      elements := elements - {e.key};
    }

    method OnEvict(key: Key)
      modifies this`data
      ensures data == old(data) - {key}
    {
      data := data - {key};
    }

    method MoveToFront(key: Key)
      requires Linked(evicts, elements, nextId) && key in elements
      modifies this`evicts
      ensures Linked(evicts, elements, nextId)
      ensures KeysOf(evicts) == [key] + Minus(old(KeysOf(evicts)), key)
    {
      var i :| 0 <= i < |evicts| && evicts[i] == elements[key];
      LinkedFront(evicts, elements, nextId, i);
      evicts := [evicts[i]] + RemoveAt(evicts, i);
    }

    method PushFront(key: Key)
      requires Linked(evicts, elements, nextId) && key !in elements
      modifies this`evicts, this`elements, this`nextId
      ensures Linked(evicts, elements, nextId) && elements.Keys == old(elements).Keys + {key}
      ensures KeysOf(evicts) == [key] + old(KeysOf(evicts))
    {
      var e := Element(nextId, key);
      LinkedPush(evicts, elements, nextId, e, nextId + 1);
      evicts := [e] + evicts;
      elements := elements[key := e];
      nextId := nextId + 1;
    }

    /** keyLru.removeOldest. */
    method RemoveOldest()
      requires Linked(evicts, elements, nextId) && data.Keys == elements.Keys && evicts != []
      modifies this
      ensures Linked(evicts, elements, nextId) && data.Keys == elements.Keys
      ensures KeysOf(evicts) == old(KeysOf(evicts))[..old(|evicts|) - 1]
      ensures data == old(data) - {old(evicts[|evicts| - 1].key)}
    {
      LinkedKeys(evicts, elements, nextId);
      MinusAt(KeysOf(evicts), |evicts| - 1);
      RemoveElement(evicts[|evicts| - 1]);
    }

    /** keyLru.add: a known key moves to the front; a new one is pushed there, and the oldest goes if need be. */
    method Touch(key: Key)
      requires Linked(evicts, elements, nextId) && 1 <= limit && |evicts| <= limit
      requires key in data && data.Keys == elements.Keys + {key}
      modifies this
      ensures Linked(evicts, elements, nextId) && data.Keys == elements.Keys
      ensures KeysOf(evicts) == Upto([key] + Minus(old(KeysOf(evicts)), key), limit)
      ensures forall k | k in data :: k in old(data) && data[k] == old(data)[k]
    {
      ghost var keys := KeysOf(evicts);
      LinkedKeys(evicts, elements, nextId);
      MinusFacts(keys, key);
      if key in elements {
        MoveToFront(key);
        assert Upto([key] + Minus(keys, key), limit) == [key] + Minus(keys, key);
      } else {
        AddNew(key);
      }
    }

    method AddNew(key: Key)
      requires Linked(evicts, elements, nextId) && 1 <= limit && |evicts| <= limit
      requires key !in elements && key in data && data.Keys == elements.Keys + {key}
      modifies this
      ensures Linked(evicts, elements, nextId) && data.Keys == elements.Keys
      ensures KeysOf(evicts) == Upto([key] + old(KeysOf(evicts)), limit)
      ensures forall k | k in data :: k in old(data) && data[k] == old(data)[k]
    {
      PushFront(key);
      Trim();
    }

    method Trim()
      requires Linked(evicts, elements, nextId) && data.Keys == elements.Keys && 1 <= limit && |evicts| <= limit + 1
      modifies this
      ensures Linked(evicts, elements, nextId) && data.Keys == elements.Keys
      ensures KeysOf(evicts) == Upto(old(KeysOf(evicts)), limit)
      ensures forall k | k in data :: k in old(data) && data[k] == old(data)[k]
    {
      if |evicts| > limit {
        RemoveOldest();
      }
    }

    method SetWithExpire(key: Key, value: V)
      requires Valid()
      modifies this
      ensures Valid() && View() == Set(old(View()), key, value)
    {
      data := data[key := value];
      ghost var given := data;
      LinkedKeys(evicts, elements, nextId);
      Touch(key);
      LinkedKeys(evicts, elements, nextId);
      KeysStay(old(KeysOf(evicts)), key, limit);
      KeepExact(old(View()), KeysOf(evicts), given, data);
    }

    method DoGet(key: Key) returns (value: Option<V>)
      requires Valid()
      modifies this
      ensures Valid() && View() == Get(old(View()), key)
      ensures value == if key in old(data) then Some(old(data)[key]) else None
    {
      value := None;
      if key in data {
        LinkedKeys(evicts, elements, nextId);
        MinusFacts(KeysOf(evicts), key);
        value := Some(data[key]);
        MoveToFront(key);
      }
    }

    /** Cache.Del: the data first, then the list, whose callback finds the data gone. */
    method Delete(key: Key)
      requires Valid()
      modifies this
      ensures Valid() && View() == Del(old(View()), key)
    {
      DelIs(evicts, elements, nextId, limit, data, key);
      TwiceGone(data, key);
      data := data - {key};
      Remove(key);
    }

    /** keyLru.remove. */
    method Remove(key: Key)
      requires Linked(evicts, elements, nextId)
      modifies this`evicts, this`elements, this`data
      ensures Linked(evicts, elements, nextId) && elements == old(elements) - {key}
      ensures KeysOf(evicts) == Minus(old(KeysOf(evicts)), key)
      ensures data == if key in old(elements) then old(data) - {key} else old(data)
    {
      if key in elements {
        RemoveElement(elements[key]);
      } else {
        LinkedKeys(evicts, elements, nextId);
        MinusFacts(KeysOf(evicts), key);
      }
    }
  }

  lemma TwiceGone<V>(data: map<Key, V>, k: Key)
    ensures data - {k} - {k} == data - {k}
    ensures (data - {k}).Keys == data.Keys - {k}
  {
  }

  lemma DelIs<V>(es: seq<Element>, index: map<Key, Element>, nextId: nat, limit: nat, data: map<Key, V>, k: Key)
    requires Linked(es, index, nextId) && data.Keys == index.Keys
    ensures Del(Lru(limit, KeysOf(es), data), k) == Lru(limit, Minus(KeysOf(es), k), data - {k})
    ensures |Minus(KeysOf(es), k)| <= |es|
  {
    LinkedKeys(es, index, nextId);
    MinusFacts(KeysOf(es), k);
    KeepExact(Lru(limit, KeysOf(es), data), Minus(KeysOf(es), k), data, data - {k});
  }

  lemma KeysStay(keys: seq<Key>, key: Key, limit: nat)
    requires NoDup(keys)
    ensures forall k | k in Upto([key] + Minus(keys, key), limit) :: k == key || k in keys
  {
    MinusFacts(keys, key);
  }
}
