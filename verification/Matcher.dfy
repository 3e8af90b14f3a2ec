/** Middleware selection by operation: the result does not depend on the order in which a map is iterated. */
module Matchers {
  /** The prefixes in some order of descending length, each once. */
  ghost predicate Admissible(sorted: seq<string>, prefixes: set<string>) {
    && (forall k :: k in sorted <==> k in prefixes)
    && (forall i, j | 0 <= i < j < |sorted| :: sorted[i] != sorted[j] && |sorted[i]| >= |sorted[j]|)
  }

  predicate HasPrefix(s: string, prefix: string) {
    |prefix| <= |s| && s[..|prefix|] == prefix
  }

  /** What Match collects by walking along `sorted`. */
  function Walk<M>(prefixes: map<string, seq<M>>, sorted: seq<string>, op: string): seq<M> {
    if sorted == [] then [] else
      (if sorted[0] in prefixes && HasPrefix(op, sorted[0]) then prefixes[sorted[0]] else []) + Walk(prefixes, sorted[1..], op)
  }

  function Entry<M>(prefixes: map<string, seq<M>>, k: string): seq<M> {
    if k in prefixes then prefixes[k] else []
  }

  /** The entries of the operation's own prefixes that are shorter than `n`, the longest first. */
  function LongestFirst<M>(prefixes: map<string, seq<M>>, op: string, n: nat): seq<M>
    requires n <= |op| + 1
  {
    if n == 0 then [] else Entry(prefixes, op[..n - 1]) + LongestFirst(prefixes, op, n - 1)
  }

  lemma {:induction false} NothingThatLong<M>(prefixes: map<string, seq<M>>, op: string, n: nat, low: nat)
    requires low <= n <= |op| + 1 && forall l | low <= l < n :: op[..l] !in prefixes
    ensures LongestFirst(prefixes, op, n) == LongestFirst(prefixes, op, low)
  {
    if low < n {
      NothingThatLong(prefixes, op, n - 1, low);
      assert Entry(prefixes, op[..n - 1]) == [];
    }
  }

  lemma {:induction false} OnlyThoseCount<M>(prefixes: map<string, seq<M>>, some: map<string, seq<M>>, op: string, n: nat)
    requires n <= |op| + 1 && forall l | 0 <= l < n :: Entry(prefixes, op[..l]) == Entry(some, op[..l])
    ensures LongestFirst(prefixes, op, n) == LongestFirst(some, op, n)
  {
    if n > 0 {
      OnlyThoseCount(prefixes, some, op, n - 1);
    }
  }

  lemma WalkIgnoresOthers<M>(prefixes: map<string, seq<M>>, some: map<string, seq<M>>, sorted: seq<string>, op: string)
    requires forall k | k in sorted :: k in prefixes && k in some && some[k] == prefixes[k]
    ensures Walk(prefixes, sorted, op) == Walk(some, sorted, op)
  {
    if sorted != [] {
      assert sorted[0] in sorted && forall k | k in sorted[1..] :: k in sorted;
      WalkIgnoresOthers(prefixes, some, sorted[1..], op);
    }
  }

  /** Two different prefixes of one operation differ in length, so every admissible order walks along the
      operation's prefixes from the longest to the shortest. */
  lemma {:induction false} WalkIsLongestFirst<M>(prefixes: map<string, seq<M>>, sorted: seq<string>, op: string)
    requires Admissible(sorted, prefixes.Keys)
    ensures Walk(prefixes, sorted, op) == LongestFirst(prefixes, op, |op| + 1)
    decreases |sorted|
  {
    if sorted == [] {
      NothingThatLong(prefixes, op, |op| + 1, 0);
    } else {
      var h, rest := sorted[0], sorted[1..];
      var fewer := prefixes - {h};
      assert Admissible(rest, fewer.Keys) by { AdmissibleRest(sorted, prefixes.Keys); }
      WalkIsLongestFirst(fewer, rest, op);
      assert h in sorted;
      WalkIgnoresOthers(prefixes, fewer, rest, op);
      if HasPrefix(op, h) {
        HeadFirst(prefixes, sorted, op);
      } else {
        forall l | 0 <= l <= |op|
          ensures op[..l] != h
        {
          assert op[..l] == h ==> |h| == l;
        }
        OnlyThoseCount(prefixes, fewer, op, |op| + 1);
      }
    }
  }

  lemma AdmissibleRest(sorted: seq<string>, prefixes: set<string>)
    requires Admissible(sorted, prefixes) && sorted != []
    ensures Admissible(sorted[1..], prefixes - {sorted[0]})
  {
    var rest := sorted[1..];
    forall k
      ensures k in rest <==> k in prefixes - {sorted[0]}
    {
      if k in prefixes - {sorted[0]} {
        assert k in sorted;
      }
    }
  }

  lemma NothingLonger(sorted: seq<string>, keys: set<string>, op: string, l: nat)
    requires Admissible(sorted, keys) && sorted != [] && |sorted[0]| < l <= |op|
    ensures op[..l] !in keys
  {
    var longer := op[..l];
    assert longer in keys ==> longer in sorted;
  }

  lemma {:induction false} HeadFirst<M>(prefixes: map<string, seq<M>>, sorted: seq<string>, op: string)
    requires Admissible(sorted, prefixes.Keys) && sorted != [] && sorted[0] in prefixes && HasPrefix(op, sorted[0])
    ensures LongestFirst(prefixes, op, |op| + 1) == prefixes[sorted[0]] + LongestFirst(prefixes - {sorted[0]}, op, |op| + 1)
  {
    var h := sorted[0];
    var fewer := prefixes - {h};
    forall l | |h| < l <= |op|
      ensures op[..l] !in prefixes
    {
      NothingLonger(sorted, prefixes.Keys, op, l);
    }
    assert op[..|h|] == h;
    NothingThatLong(prefixes, op, |op| + 1, |h| + 1);
    assert forall l | |h| <= l <= |op| :: op[..l] !in fewer;
    NothingThatLong(fewer, op, |op| + 1, |h|);
    SameBelow(prefixes, h, op);
    assert LongestFirst(prefixes, op, |h| + 1) == Entry(prefixes, op[..|h|]) + LongestFirst(prefixes, op, |h|);
  }

  lemma SameBelow<M>(prefixes: map<string, seq<M>>, h: string, op: string)
    requires HasPrefix(op, h)
    ensures LongestFirst(prefixes, op, |h|) == LongestFirst(prefixes - {h}, op, |h|)
  {
    var fewer := prefixes - {h};
    forall l | 0 <= l < |h|
      ensures Entry(prefixes, op[..l]) == Entry(fewer, op[..l])
    {
      assert |op[..l]| != |h|;
    }
    OnlyThoseCount(prefixes, fewer, op, |h|);
  }

  lemma WalkStep<M>(prefixes: map<string, seq<M>>, sorted: seq<string>, op: string, i: nat, done: seq<M>)
    requires i < |sorted| && sorted[i] in prefixes
    ensures done + Walk(prefixes, sorted[i..], op) ==
            (done + if HasPrefix(op, sorted[i]) then prefixes[sorted[i]] else []) + Walk(prefixes, sorted[i + 1..], op)
  {
    assert sorted[i..][1..] == sorted[i + 1..];
  }

  /** Whatever order the map was iterated in, Match gives the same list. */
  lemma OrderDoesNotMatter<M>(prefixes: map<string, seq<M>>, sorted: seq<string>, sorted': seq<string>, op: string)
    requires Admissible(sorted, prefixes.Keys) && Admissible(sorted', prefixes.Keys)
    ensures Walk(prefixes, sorted, op) == Walk(prefixes, sorted', op)
  {
    WalkIsLongestFirst(prefixes, sorted, op);
    WalkIsLongestFirst(prefixes, sorted', op);
  }

  // ---------------------------------------------------------------- the matcher object

  function Flat<M>(lists: seq<seq<M>>): seq<M> {
    if lists == [] then [] else lists[0] + Flat(lists[1..])
  }

  /** The entries of the operation's first n - 1, n - 2, ..., 0 characters; none where nothing is registered. */
  function PrefixEntries<M>(prefixes: map<string, seq<M>>, op: string, n: nat): (r: seq<seq<M>>)
    requires n <= |op| + 1
    ensures |r| == n
    ensures forall i | 0 <= i < n :: r[i] == if op[..n - 1 - i] in prefixes then prefixes[op[..n - 1 - i]] else []
  {
    seq(n, i requires 0 <= i < n => Entry(prefixes, op[..n - 1 - i]))
  }

  /** One entry for each prefix of the operation, from the operation itself down to the empty one. */
  lemma {:induction false} LongestFirstIsFlat<M>(prefixes: map<string, seq<M>>, op: string, n: nat)
    requires n <= |op| + 1
    ensures LongestFirst(prefixes, op, n) == Flat(PrefixEntries(prefixes, op, n))
  {
    if n > 0 {
      LongestFirstIsFlat(prefixes, op, n - 1);
      assert PrefixEntries(prefixes, op, n)[1..] == PrefixEntries(prefixes, op, n - 1);
    }
  }

  class Matcher<M> {
    var defaults: seq<M>
    var exact: map<string, seq<M>>
    var prefixes: map<string, seq<M>>
    var sorted: seq<string>

    ghost predicate Valid()
      reads this
    {
      Admissible(sorted, prefixes.Keys)
    }

    constructor ()
      ensures Valid() && defaults == [] && exact == map[] && prefixes == map[]
    {
      defaults, exact, prefixes, sorted := [], map[], map[], [];
    }

    method Use(mws: seq<M>)
      requires Valid()
      modifies this`defaults
      ensures Valid() && defaults == old(defaults) + mws
    {
      defaults := defaults + mws;
    }

    /** The keys of the map in whatever order it is iterated, sorted by length and nothing else. */
    method RebuildSorted()
      modifies this`sorted
      ensures Admissible(sorted, prefixes.Keys)
    {
      sorted := [];
      var todo := prefixes.Keys;
      while todo != {}
        invariant todo <= prefixes.Keys && Admissible(sorted, prefixes.Keys - todo)
        decreases |todo|
      {
        var k :| k in todo;
        var i := 0;
        while i < |sorted| && |sorted[i]| > |k|
          invariant 0 <= i <= |sorted| && forall j | 0 <= j < i :: |sorted[j]| > |k|
        {
          i := i + 1;
        }
        InsertKeepsOrder(sorted, prefixes.Keys - todo, k, i);
        sorted := sorted[..i] + [k] + sorted[i..];
        todo := todo - {k};
        assert prefixes.Keys - todo == (prefixes.Keys - (todo + {k})) + {k};
      }
      assert prefixes.Keys - todo == prefixes.Keys;
    }

    /** Registers middlewares for "*", for a prefix ending in "*", or for an exact operation. */
    method Add(selector: string, mws: seq<M>)
      requires Valid()
      modifies this
      ensures Valid() && defaults == old(defaults)
      ensures var wild := selector != "" && selector[|selector| - 1] == '*';
              var k := if wild then selector[..|selector| - 1] else selector;
              && prefixes == (if wild then old(prefixes)[k := Entry(old(prefixes), k) + mws] else old(prefixes))
              && exact == (if wild then old(exact) else old(exact)[k := Entry(old(exact), k) + mws])
    {
      if selector == "*" {
        prefixes := prefixes["" := Entry(prefixes, "") + mws];
        RebuildSorted();
      } else if selector != "" && selector[|selector| - 1] == '*' {
        var prefix := selector[..|selector| - 1];
        prefixes := prefixes[prefix := Entry(prefixes, prefix) + mws];
        RebuildSorted();
      } else {
        exact := exact[selector := Entry(exact, selector) + mws];
      }
    }

    /** Defaults first, then the exact match, then the matching prefixes from the longest to the shortest. */
    method Match(op: string) returns (ms: seq<M>)
      requires Valid()
      ensures ms == defaults + (if op in exact then exact[op] else []) +
                    Flat(PrefixEntries(prefixes, op, |op| + 1))
    {
      ms := defaults;
      if op in exact {
        ms := ms + exact[op];
      }
      ms := WalkSorted(op, ms);
      WalkIsLongestFirst(prefixes, sorted, op);
      LongestFirstIsFlat(prefixes, op, |op| + 1);
    }

    /** The walk along the sorted prefixes. */
    method WalkSorted(op: string, before: seq<M>) returns (ms: seq<M>)
      requires Valid()
      ensures ms == before + Walk(prefixes, sorted, op)
    {
      ms := before;
      assert sorted[0..] == sorted;
      for i := 0 to |sorted|
        invariant ms + Walk(prefixes, sorted[i..], op) == before + Walk(prefixes, sorted, op)
      {
        assert sorted[i] in prefixes;
        WalkStep(prefixes, sorted, op, i, ms);
        var more := if HasPrefix(op, sorted[i]) then prefixes[sorted[i]] else [];
        ms := ms + more;
      }
      assert sorted[|sorted|..] == [];
    }
  }

  /** Where the elements of `sorted` are after the insertion of `k` at `i`. */
  lemma Inserted(sorted: seq<string>, k: string, i: nat)
    requires i <= |sorted|
    ensures var r := sorted[..i] + [k] + sorted[i..];
            && |r| == |sorted| + 1 && r[i] == k
            && (forall j | 0 <= j < i :: r[j] == sorted[j])
            && (forall j | i < j < |r| :: r[j] == sorted[j - 1])
            && (forall x :: x in r <==> x in sorted || x == k)
  {
    var r := sorted[..i] + [k] + sorted[i..];
    assert sorted == sorted[..i] + sorted[i..];
  }

  lemma InsertKeepsOrder(sorted: seq<string>, keys: set<string>, k: string, i: nat)
    requires Admissible(sorted, keys) && k !in keys && i <= |sorted|
    requires (forall j | 0 <= j < i :: |sorted[j]| > |k|) && (i < |sorted| ==> |sorted[i]| <= |k|)
    ensures Admissible(sorted[..i] + [k] + sorted[i..], keys + {k})
  {
    var r := sorted[..i] + [k] + sorted[i..];
    Inserted(sorted, k, i);
    assert forall j | i <= j < |sorted| :: |sorted[j]| <= |k|;
    assert forall j | 0 <= j < |sorted| :: sorted[j] != k;
  }
}
