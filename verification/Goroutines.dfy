/** Counting goroutines: how many are at a point of their code that satisfies a predicate, and how
    that count changes when a step moves at most two of them. */
module Goroutines {
  import opened Arithmetic

  type Pid = nat

  ghost function Those<Pc>(procs: map<Pid, Pc>, f: Pc -> bool): set<Pid> {
    set p | p in procs && f(procs[p])
  }

  /** How many goroutines are at a point that satisfies `f`. */
  ghost function Count<Pc>(procs: map<Pid, Pc>, f: Pc -> bool): nat {
    |Those(procs, f)|
  }

  /** What the goroutines p and q contribute to the count. */
  ghost function Weight<Pc>(procs: map<Pid, Pc>, p: Pid, q: Pid, f: Pc -> bool): nat {
    One(p in procs && f(procs[p])) + One(q != p && q in procs && f(procs[q]))
  }

  lemma CountOne<Pc>(procs: map<Pid, Pc>, p: Pid, f: Pc -> bool)
    ensures Count(procs, f) == Count(procs - {p}, f) + One(p in procs && f(procs[p]))
  {
    var rest := Those(procs - {p}, f);
    assert Those(procs, f) == if p in procs && f(procs[p]) then rest + {p} else rest;
  }

  lemma CountMoves<Pc>(procs: map<Pid, Pc>, procs': map<Pid, Pc>, p: Pid, q: Pid, f: Pc -> bool)
    requires procs - {p} - {q} == procs' - {p} - {q}
    ensures Count(procs', f) + Weight(procs, p, q, f) == Count(procs, f) + Weight(procs', p, q, f)
  {
    CountOne(procs, p, f);
    CountOne(procs - {p}, q, f);
    CountOne(procs', p, f);
    CountOne(procs' - {p}, q, f);
  }

  lemma Present<Pc>(procs: map<Pid, Pc>, f: Pc -> bool)
    ensures Count(procs, f) > 0 <==> exists p :: p in procs && f(procs[p])
  {
    if Count(procs, f) > 0 {
      var p :| p in Those(procs, f);
    }
    if p :| p in procs && f(procs[p]) {
      assert p in Those(procs, f);
    }
  }

  lemma CardinalityOrder(small: set<Pid>, big: set<Pid>)
    requires small <= big
    ensures |small| <= |big|
  {
    assert big == small + (big - small);
  }

  /** At most one goroutine at such a point means that any two are the same. */
  lemma AtMostOne<Pc>(procs: map<Pid, Pc>, f: Pc -> bool, p: Pid, q: Pid)
    requires Count(procs, f) <= 1 && p in procs && q in procs && f(procs[p]) && f(procs[q])
    ensures p == q
  {
    CardinalityOrder({p, q}, Those(procs, f));
  }
}
