/** Single-flight: concurrent calls with one key share one execution, over every interleaving. */
module SingleFlight {
  import opened Goroutines
  import opened Wrappers

  type Key = string

  /** A call object, with the moments of its life as history: created at `born`, `fn` finished at
      `finished`, taken out of the map at `deleted`. */
  datatype Call<V> = Call(key: Key, leader: Pid, val: Option<V>, done: bool, born: nat, finished: Option<nat>, deleted: Option<nat>)

  datatype Pc =
    | Leading(c: nat)    // created the call and runs fn
    | Finished(c: nat)   // fn has returned, the call is still in the map
    | Deleted(c: nat)    // the call is out of the map, its waiters not yet released
    | Joined(c: nat, key: Key, entered: nat, late: bool)

  /** What a caller got: from which call, whether it executed fn itself, when it entered, and whether it then
      found its key in the map with a call whose fn had already returned. */
  datatype Outcome<V> = Outcome(p: Pid, key: Key, c: nat, executed: bool, val: Option<V>, entered: nat, late: bool)

  datatype State<V> = State(now: nat, calls: map<Key, nat>, heap: seq<Call<V>>, procs: map<Pid, Pc>, outcomes: seq<Outcome<V>>)

  function Init<V>(): State<V> { State(0, map[], [], map[], []) }

  // ---------------------------------------------------------------- steps

  datatype Action<V> =
    | Enter(p: Pid, key: Key)       // createCall's lock section
    | Finish(p: Pid, val: V)        // fn returns
    | Delete(p: Pid)                // makeCall's lock section
    | Release(p: Pid)               // wg.Done, and the leader returns
    | Wake(p: Pid)                  // a waiter returns

  predicate Enabled<V>(s: State<V>, a: Action<V>) {
    match a
    case Enter(p, _) => p !in s.procs
    case Finish(p, _) => p in s.procs && s.procs[p].Leading? && s.procs[p].c < |s.heap|
    case Delete(p) => p in s.procs && s.procs[p].Finished? && s.procs[p].c < |s.heap|
    case Release(p) => p in s.procs && s.procs[p].Deleted? && s.procs[p].c < |s.heap|
    case Wake(p) => p in s.procs && s.procs[p].Joined? && s.procs[p].c < |s.heap| && s.heap[s.procs[p].c].done
  }

  /** The key's call is in the map and its fn has already returned. */
  predicate FnReturned<V>(s: State<V>, key: Key) {
    key in s.calls && s.calls[key] < |s.heap| && s.heap[s.calls[key]].finished.Some?
  }

  function Apply<V>(s: State<V>, a: Action<V>): State<V>
    requires Enabled(s, a)
  {
    Act(s, a).(now := s.now + 1)
  }

  function Act<V>(s: State<V>, a: Action<V>): State<V>
    requires Enabled(s, a)
  {
    match a
    case Enter(p, key) =>
      if key in s.calls then s.(procs := s.procs[p := Joined(s.calls[key], key, s.now, FnReturned(s, key))])
      else s.(calls := s.calls[key := |s.heap|],
              heap := s.heap + [Call(key, p, None, false, s.now, None, None)],
              procs := s.procs[p := Leading(|s.heap|)])
    case Finish(p, val) =>
      var c := s.procs[p].c;
      s.(heap := s.heap[c := s.heap[c].(val := Some(val), finished := Some(s.now))], procs := s.procs[p := Finished(c)])
    case Delete(p) =>
      var c := s.procs[p].c;
      s.(calls := s.calls - {s.heap[c].key}, heap := s.heap[c := s.heap[c].(deleted := Some(s.now))], procs := s.procs[p := Deleted(c)])
    case Release(p) =>
      var c := s.procs[p].c;
      s.(heap := s.heap[c := s.heap[c].(done := true)], procs := s.procs - {p},
         outcomes := s.outcomes + [Outcome(p, s.heap[c].key, c, true, s.heap[c].val, s.heap[c].born, false)])
    case Wake(p) =>
      var j := s.procs[p];
      s.(procs := s.procs - {p}, outcomes := s.outcomes + [Outcome(p, j.key, j.c, false, s.heap[j.c].val, j.entered, j.late)])
  }

  // ---------------------------------------------------------------- what every step keeps

  /** How far a call has come, and whether its leader is where that says. */
  ghost predicate CallOk<V>(s: State<V>, c: nat)
    requires c < |s.heap|
  {
    var x := s.heap[c];
    && x.born < s.now
    && (x.key in s.calls && s.calls[x.key] == c <==> x.deleted.None?)
    && (!x.done ==> x.leader in s.procs)
    && (!x.done ==> s.procs[x.leader] == if x.finished.None? then Leading(c) else if x.deleted.None? then Finished(c) else Deleted(c))
    && (x.finished.Some? <==> x.val.Some?)
    && (x.deleted.Some? ==> x.finished.Some? && x.finished.value < x.deleted.value < s.now)
    && (x.finished.Some? ==> x.born < x.finished.value < s.now)
    && (x.done ==> x.deleted.Some?)
  }

  ghost predicate ProcOk<V>(s: State<V>, p: Pid)
    requires p in s.procs
  {
    var pc := s.procs[p];
    && pc.c < |s.heap|
    && match pc {
         case Leading(c) => s.heap[c].leader == p && !s.heap[c].done && s.heap[c].finished.None?
         case Finished(c) => s.heap[c].leader == p && !s.heap[c].done && s.heap[c].finished.Some? && s.heap[c].deleted.None?
         case Deleted(c) => s.heap[c].leader == p && !s.heap[c].done && s.heap[c].deleted.Some?
         case Joined(c, key, entered, late) =>
           && entered < s.now && s.heap[c].key == key && Listed(s.heap[c], entered)
           && (late <==> s.heap[c].finished.Some? && s.heap[c].finished.value < entered)
       }
  }

  /** The moment lies within the call's time in the map. */
  predicate Listed<V>(x: Call<V>, moment: nat) {
    x.born <= moment && (x.deleted.Some? ==> moment < x.deleted.value)
  }

  /** The moment lies within the execution of the call's fn. */
  predicate Executing<V>(x: Call<V>, moment: nat) {
    x.born <= moment && (x.finished.Some? ==> moment <= x.finished.value)
  }

  /** A caller got the value of a finished call with its own key that was in the map when it entered. */
  ghost predicate OutcomeOk<V>(s: State<V>, o: Outcome<V>) {
    && o.c < |s.heap|
    && s.heap[o.c].done && s.heap[o.c].key == o.key && o.val == s.heap[o.c].val && o.val.Some?
    && Listed(s.heap[o.c], o.entered)
    && (o.executed ==> o.p == s.heap[o.c].leader && o.entered == s.heap[o.c].born)
    && s.heap[o.c].finished.Some? && (o.late <==> s.heap[o.c].finished.value < o.entered)
  }

  function Executions<V>(outcomes: seq<Outcome<V>>, c: nat): nat {
    if outcomes == [] then 0 else
      var last := outcomes[|outcomes| - 1];
      Executions(outcomes[..|outcomes| - 1], c) + if last.executed && last.c == c then 1 else 0
  }

  ghost predicate Inv<V>(s: State<V>) {
    && (forall key | key in s.calls :: s.calls[key] < |s.heap| && s.heap[s.calls[key]].key == key)
    && (forall c | 0 <= c < |s.heap| :: CallOk(s, c))
    && (forall p | p in s.procs :: ProcOk(s, p))
    && (forall i | 0 <= i < |s.outcomes| :: OutcomeOk(s, s.outcomes[i]))
    && (forall c | 0 <= c < |s.heap| :: Executions(s.outcomes, c) == if s.heap[c].done then 1 else 0)
    && (forall c: nat | c >= |s.heap| :: Executions(s.outcomes, c) == 0)
  }

  lemma MapKept<V>(s: State<V>, a: Action<V>)
    requires Inv(s) && Enabled(s, a)
    ensures forall key | key in Apply(s, a).calls ::
              Apply(s, a).calls[key] < |Apply(s, a).heap| && Apply(s, a).heap[Apply(s, a).calls[key]].key == key
  {
  }

  lemma NewCallOk<V>(s: State<V>, p: Pid, key: Key)
    requires Inv(s) && Enabled(s, Action<V>.Enter(p, key)) && key !in s.calls
    ensures CallOk(Apply(s, Action<V>.Enter(p, key)), |s.heap|)
  {
  }

  /** The leader's step on its own call. */
  lemma OwnCallKept<V>(s: State<V>, a: Action<V>)
    requires Inv(s) && Enabled(s, a) && !a.Enter?
    ensures CallOk(Apply(s, a), s.procs[a.p].c)
  {
    assert ProcOk(s, a.p);
    assert CallOk(s, s.procs[a.p].c);
  }

  lemma OtherCallKept<V>(s: State<V>, a: Action<V>, c: nat)
    requires Inv(s) && Enabled(s, a) && c < |s.heap| && (a.Enter? || s.procs[a.p].c != c)
    ensures CallOk(Apply(s, a), c)
  {
    assert CallOk(s, c);
    assert s.heap[c].leader in s.procs ==> ProcOk(s, s.heap[c].leader);
    if !a.Enter? {
      assert ProcOk(s, a.p);
      assert CallOk(s, s.procs[a.p].c);
    }
  }

  lemma CallKept<V>(s: State<V>, a: Action<V>, c: nat)
    requires Inv(s) && Enabled(s, a) && c < |Apply(s, a).heap|
    ensures CallOk(Apply(s, a), c)
  {
    if c == |s.heap| {
      NewCallOk(s, a.p, a.key);
    } else if !a.Enter? && s.procs[a.p].c == c {
      OwnCallKept(s, a);
    } else {
      OtherCallKept(s, a, c);
    }
  }

  lemma MoverKept<V>(s: State<V>, a: Action<V>)
    requires Inv(s) && Enabled(s, a) && a.p in Apply(s, a).procs
    ensures ProcOk(Apply(s, a), a.p)
  {
    if !a.Enter? {
      assert ProcOk(s, a.p);
      assert CallOk(s, s.procs[a.p].c);
    } else if a.key in s.calls {
      assert CallOk(s, s.calls[a.key]);
    }
  }

  lemma OthersKept<V>(s: State<V>, a: Action<V>, p: Pid)
    requires Inv(s) && Enabled(s, a) && p in s.procs && p != a.p
    ensures p in Apply(s, a).procs && ProcOk(Apply(s, a), p)
  {
    assert ProcOk(s, p);
    assert CallOk(s, s.procs[p].c);
    if !a.Enter? {
      assert ProcOk(s, a.p);
    }
  }

  lemma ProcKept<V>(s: State<V>, a: Action<V>, p: Pid)
    requires Inv(s) && Enabled(s, a) && p in Apply(s, a).procs
    ensures ProcOk(Apply(s, a), p)
  {
    if p == a.p {
      MoverKept(s, a);
    } else {
      OthersKept(s, a, p);
    }
  }

  lemma OutcomeKept<V>(s: State<V>, a: Action<V>, i: nat)
    requires Inv(s) && Enabled(s, a) && i < |Apply(s, a).outcomes|
    ensures OutcomeOk(Apply(s, a), Apply(s, a).outcomes[i])
  {
    if i < |s.outcomes| {
      assert OutcomeOk(s, s.outcomes[i]);
      assert CallOk(s, s.outcomes[i].c);
    }
    if !a.Enter? {
      assert ProcOk(s, a.p);
      assert CallOk(s, s.procs[a.p].c);
    }
  }

  lemma ExecutionsKept<V>(s: State<V>, a: Action<V>, c: nat)
    requires Inv(s) && Enabled(s, a)
    ensures Executions(Apply(s, a).outcomes, c) == if c < |Apply(s, a).heap| && Apply(s, a).heap[c].done then 1 else 0
  {
    if !a.Enter? {
      assert ProcOk(s, a.p);
    }
    var s' := Apply(s, a);
    if s'.outcomes != s.outcomes {
      assert s'.outcomes[..|s.outcomes|] == s.outcomes;
    }
  }

  lemma StepKeepsInv<V>(s: State<V>, a: Action<V>)
    requires Inv(s) && Enabled(s, a)
    ensures Inv(Apply(s, a))
  {
    var s' := Apply(s, a);
    MapKept(s, a);
    forall c | 0 <= c < |s'.heap| ensures CallOk(s', c) { CallKept(s, a, c); }
    forall p | p in s'.procs ensures ProcOk(s', p) { ProcKept(s, a, p); }
    forall i | 0 <= i < |s'.outcomes| ensures OutcomeOk(s', s'.outcomes[i]) { OutcomeKept(s, a, i); }
    forall c: nat ensures Executions(s'.outcomes, c) == if c < |s'.heap| && s'.heap[c].done then 1 else 0 { ExecutionsKept(s, a, c); }
  }

  // ---------------------------------------------------------------- every run

  ghost predicate Runs<V>(s: State<V>, actions: seq<Action<V>>)
    decreases |actions|
  {
    actions == [] || (Enabled(s, actions[0]) && Runs(Apply(s, actions[0]), actions[1..]))
  }

  function After<V>(s: State<V>, actions: seq<Action<V>>): State<V>
    requires Runs(s, actions)
    decreases |actions|
  {
    if actions == [] then s else After(Apply(s, actions[0]), actions[1..])
  }

  lemma {:induction false} RunsKeepInv<V>(s: State<V>, actions: seq<Action<V>>)
    requires Inv(s) && Runs(s, actions)
    ensures Inv(After(s, actions))
    decreases |actions|
  {
    if actions != [] {
      StepKeepsInv(s, actions[0]);
      RunsKeepInv(Apply(s, actions[0]), actions[1..]);
    }
  }

  /** In every reachable state a key has at most one running execution. */
  lemma OneExecutionPerKey<V>(actions: seq<Action<V>>, p: Pid, q: Pid)
    requires Runs(Init<V>(), actions)
    requires var s := After(Init<V>(), actions);
             p in s.procs && q in s.procs && s.procs[p].Leading? && s.procs[q].Leading?
    ensures var s := After(Init<V>(), actions);
            s.procs[p].c < |s.heap| && s.procs[q].c < |s.heap| &&
            (s.heap[s.procs[p].c].key == s.heap[s.procs[q].c].key ==> p == q)
  {
    RunsKeepInv(Init<V>(), actions);
    var s := After(Init<V>(), actions);
    assert ProcOk(s, p) && ProcOk(s, q) && CallOk(s, s.procs[p].c) && CallOk(s, s.procs[q].c);
  }

  /** Every caller that has returned got the value of a call on its own key that was in the map when it entered; of
      the callers that share a finished call exactly one, its leader, executed it; and the execution was still
      running when the caller entered if and only if the caller did not find it returned in the map. */
  lemma ResultsAreShared<V>(actions: seq<Action<V>>)
    requires Runs(Init<V>(), actions)
    ensures var s := After(Init<V>(), actions);
            && (forall i | 0 <= i < |s.outcomes| :: OutcomeOk(s, s.outcomes[i]))
            && (forall c | 0 <= c < |s.heap| :: Executions(s.outcomes, c) == if s.heap[c].done then 1 else 0)
            && (forall i | 0 <= i < |s.outcomes| :: s.outcomes[i].c < |s.heap| &&
                  (Executing(s.heap[s.outcomes[i].c], s.outcomes[i].entered) <==> !s.outcomes[i].late))
  {
    RunsKeepInv(Init<V>(), actions);
    var s := After(Init<V>(), actions);
    assert forall i | 0 <= i < |s.outcomes| :: OutcomeOk(s, s.outcomes[i]);
  }

  // What `late` records is the state the caller met: the clock counts the steps of the run, so `entered` names the
  // step with which it came in.

  lemma {:induction false} LastStep<V>(s: State<V>, actions: seq<Action<V>>)
    requires Runs(s, actions) && actions != []
    ensures var n := |actions| - 1;
            Runs(s, actions[..n]) && Enabled(After(s, actions[..n]), actions[n]) && After(s, actions) == Apply(After(s, actions[..n]), actions[n])
    decreases |actions|
  {
    var n := |actions| - 1;
    if n > 0 {
      LastStep(Apply(s, actions[0]), actions[1..]);
      assert actions[1..][..n - 1] == actions[..n][1..];
    }
  }

  /** The caller came in with step `entered`, and found its call returned exactly if `late`. */
  ghost predicate CameIn<V>(actions: seq<Action<V>>, p: Pid, key: Key, entered: nat, late: bool) {
    && entered < |actions| && actions[entered] == Enter(p, key)
    && Runs(Init<V>(), actions[..entered])
    && (late <==> FnReturned(After(Init<V>(), actions[..entered]), key))
  }

  /** The call's value is what its leader's fn returned with, at the step `finished`. */
  ghost predicate FnReturnedIt<V>(actions: seq<Action<V>>, x: Call<V>) {
    x.finished.Some? ==>
      && x.finished.value < |actions| && x.val.Some?
      && actions[x.finished.value] == Finish(x.leader, x.val.value)
  }

  ghost predicate Traced<V>(actions: seq<Action<V>>, s: State<V>) {
    && s.now == |actions|
    && (forall c | 0 <= c < |s.heap| :: FnReturnedIt(actions, s.heap[c]))
    && (forall p | p in s.procs :: ProcTraced(actions, s.procs[p], p))
    && (forall c | 0 <= c < |s.heap| :: CameIn(actions, s.heap[c].leader, s.heap[c].key, s.heap[c].born, false))
    && (forall i | 0 <= i < |s.outcomes| ::
          CameIn(actions, s.outcomes[i].p, s.outcomes[i].key, s.outcomes[i].entered, s.outcomes[i].late))
  }

  lemma StillCameIn<V>(actions: seq<Action<V>>, a: Action<V>, p: Pid, key: Key, entered: nat, late: bool)
    requires CameIn(actions, p, key, entered, late)
    ensures CameIn(actions + [a], p, key, entered, late)
  {
    assert (actions + [a])[..entered] == actions[..entered];
  }

  lemma ComesIn<V>(actions: seq<Action<V>>, p: Pid, key: Key)
    requires Runs(Init<V>(), actions)
    ensures CameIn(actions + [Enter(p, key)], p, key, |actions|, FnReturned(After(Init<V>(), actions), key))
  {
    assert (actions + [Enter(p, key)])[..|actions|] == actions;
  }

  ghost predicate ProcTraced<V>(actions: seq<Action<V>>, pc: Pc, p: Pid) {
    pc.Joined? ==> CameIn(actions, p, pc.key, pc.entered, pc.late)
  }

  lemma ProcsTraced<V>(actions: seq<Action<V>>, s: State<V>, a: Action<V>, p: Pid)
    requires Runs(Init<V>(), actions) && s == After(Init<V>(), actions) && Traced(actions, s) && Enabled(s, a)
    requires p in Apply(s, a).procs
    ensures ProcTraced(actions + [a], Apply(s, a).procs[p], p)
  {
    if a.Enter? && a.p == p {
      ComesIn(actions, p, a.key);
    } else if s.procs[p].Joined? {
      StillCameIn(actions, a, p, s.procs[p].key, s.procs[p].entered, s.procs[p].late);
    }
  }

  lemma CallsTraced<V>(actions: seq<Action<V>>, s: State<V>, a: Action<V>, c: nat)
    requires Runs(Init<V>(), actions) && s == After(Init<V>(), actions) && Traced(actions, s) && Enabled(s, a)
    requires c < |Apply(s, a).heap|
    ensures var x := Apply(s, a).heap[c]; CameIn(actions + [a], x.leader, x.key, x.born, false)
  {
    if c == |s.heap| {
      ComesIn(actions, a.p, a.key);
    } else {
      StillCameIn(actions, a, s.heap[c].leader, s.heap[c].key, s.heap[c].born, false);
    }
  }

  lemma ValuesTraced<V>(actions: seq<Action<V>>, s: State<V>, a: Action<V>, c: nat)
    requires Inv(s) && Traced(actions, s) && Enabled(s, a) && c < |Apply(s, a).heap|
    ensures FnReturnedIt(actions + [a], Apply(s, a).heap[c])
  {
    if c < |s.heap| {
      assert FnReturnedIt(actions, s.heap[c]);
      if a.Finish? {
        assert ProcOk(s, a.p);
      }
    }
  }

  lemma OutcomesTraced<V>(actions: seq<Action<V>>, s: State<V>, a: Action<V>, i: nat)
    requires Inv(s) && Traced(actions, s) && Enabled(s, a) && i < |Apply(s, a).outcomes|
    ensures var o := Apply(s, a).outcomes[i]; CameIn(actions + [a], o.p, o.key, o.entered, o.late)
  {
    if i < |s.outcomes| {
      StillCameIn(actions, a, s.outcomes[i].p, s.outcomes[i].key, s.outcomes[i].entered, s.outcomes[i].late);
    } else {
      assert ProcOk(s, a.p);
      var o := Apply(s, a).outcomes[i];
      StillCameIn(actions, a, o.p, o.key, o.entered, o.late);
    }
  }

  /** A run that ends with `a`. */
  lemma TracedOnce<V>(before: seq<Action<V>>, a: Action<V>)
    requires Runs(Init<V>(), before) && Enabled(After(Init<V>(), before), a) && Traced(before, After(Init<V>(), before))
    ensures Traced(before + [a], Apply(After(Init<V>(), before), a))
  {
    RunsKeepInv(Init<V>(), before);
    var s := After(Init<V>(), before);
    var s' := Apply(s, a);
    forall p | p in s'.procs ensures ProcTraced(before + [a], s'.procs[p], p) { ProcsTraced(before, s, a, p); }
    forall c | 0 <= c < |s'.heap| ensures CameIn(before + [a], s'.heap[c].leader, s'.heap[c].key, s'.heap[c].born, false) { CallsTraced(before, s, a, c); }
    forall c | 0 <= c < |s'.heap| ensures FnReturnedIt(before + [a], s'.heap[c]) { ValuesTraced(before, s, a, c); }
    forall i | 0 <= i < |s'.outcomes|
      ensures CameIn(before + [a], s'.outcomes[i].p, s'.outcomes[i].key, s'.outcomes[i].entered, s'.outcomes[i].late)
    {
      OutcomesTraced(before, s, a, i);
    }
  }

  lemma {:induction false} RunsAreTraced<V>(actions: seq<Action<V>>)
    requires Runs(Init<V>(), actions)
    ensures Traced(actions, After(Init<V>(), actions))
  {
    if actions != [] {
      var n := |actions| - 1;
      assert actions[..n] + [actions[n]] == actions;
      LastStep(Init<V>(), actions);
      RunsAreTraced(actions[..n]);
      TracedOnce(actions[..n], actions[n]);
    }
  }

  /** So, over every run: a caller is given the result of an execution that was over before it came if and only if
      the state it met had its key in the map with a call whose fn had returned. */
  lemma StaleIffReturnedOnEntry<V>(actions: seq<Action<V>>, i: nat)
    requires Runs(Init<V>(), actions) && i < |After(Init<V>(), actions).outcomes|
    ensures var s := After(Init<V>(), actions);
            var o := s.outcomes[i];
            && o.c < |s.heap| && s.heap[o.c].finished.Some?
            && o.entered < |actions| && actions[o.entered] == Enter(o.p, o.key) && Runs(Init<V>(), actions[..o.entered])
            && (s.heap[o.c].finished.value < o.entered <==> FnReturned(After(Init<V>(), actions[..o.entered]), o.key))
  {
    ResultsAreShared(actions);
    RunsAreTraced(actions);
    var s := After(Init<V>(), actions);
    var o := s.outcomes[i];
    assert OutcomeOk(s, o) && CameIn(actions, o.p, o.key, o.entered, o.late);
  }

  /** Over every run, what a caller is given is what the function of its call's leader returned, in one step of the
      run; the leader had come in with the same key, and is the caller itself if the caller executed. */
  lemma ResultIsWhatFnReturned<V>(actions: seq<Action<V>>, i: nat)
    requires Runs(Init<V>(), actions) && i < |After(Init<V>(), actions).outcomes|
    ensures var s := After(Init<V>(), actions);
            var o := s.outcomes[i];
            && o.c < |s.heap| && o.val.Some?
            && var x := s.heap[o.c];
            && x.born < |actions| && actions[x.born] == Enter(x.leader, o.key)
            && x.finished.Some? && x.born < x.finished.value < |actions|
            && actions[x.finished.value] == Finish(x.leader, o.val.value)
            && (o.executed ==> o.p == x.leader && o.entered == x.born)
  {
    RunsKeepInv(Init<V>(), actions);
    RunsAreTraced(actions);
    var s := After(Init<V>(), actions);
    var o := s.outcomes[i];
    assert OutcomeOk(s, o) && CallOk(s, o.c);
    var x := s.heap[o.c];
    assert FnReturnedIt(actions, x) && CameIn(actions, x.leader, x.key, x.born, false);
  }

  /** The goroutine leads a call on the key that is still in the map. */
  ghost predicate Leads<V>(s: State<V>, q: Pid, key: Key) {
    q in s.procs && (s.procs[q].Leading? || s.procs[q].Finished?) && s.procs[q].c < |s.heap| && s.heap[s.procs[q].c].key == key
  }

  /** In every reachable state, a caller that comes in executes its own function if and only if nobody leads a call on the
      same key; calls on other keys never make it wait. */
  lemma ExecutesUnlessKeyIsLed<V>(actions: seq<Action<V>>, p: Pid, key: Key)
    requires Runs(Init<V>(), actions) && p !in After(Init<V>(), actions).procs
    ensures var s := After(Init<V>(), actions);
            Apply(s, Action<V>.Enter(p, key)).procs[p].Leading? <==> !exists q :: Leads(s, q, key)
  {
    RunsKeepInv(Init<V>(), actions);
    var s := After(Init<V>(), actions);
    if key in s.calls {
      assert CallOk(s, s.calls[key]);
      assert Leads(s, s.heap[s.calls[key]].leader, key);
    }
    if q :| Leads(s, q, key) {
      assert ProcOk(s, q) && CallOk(s, s.procs[q].c);
    }
  }

  /** No caller is ever stuck: whoever is inside can move, or waits for someone who can. */
  lemma SomeoneCanMove<V>(actions: seq<Action<V>>, p: Pid, v: V) returns (a: Action<V>)
    requires Runs(Init<V>(), actions) && p in After(Init<V>(), actions).procs
    ensures Enabled(After(Init<V>(), actions), a) && !a.Enter?
    ensures var s := After(Init<V>(), actions);
            a.p == p || (s.procs[p].Joined? && s.procs[p].c < |s.heap| && a.p == s.heap[s.procs[p].c].leader)
  {
    RunsKeepInv(Init<V>(), actions);
    var s := After(Init<V>(), actions);
    assert ProcOk(s, p);
    var c := s.procs[p].c;
    assert CallOk(s, c);
    if s.procs[p].Joined? && s.heap[c].done {
      a := Wake(p);
    } else {
      var leader := s.heap[c].leader;
      a := if s.procs[leader].Leading? then Finish(leader, v) else if s.procs[leader].Finished? then Delete(leader) else Release(leader);
    }
  }

  /** The shared call overlaps the caller's, but its fn may have returned before the caller came: a caller that
      enters between the return of fn and the removal of the call from the map still gets the old value. */
  lemma StaleResultIsPossible() returns (actions: seq<Action<int>>)
    ensures Runs(Init<int>(), actions)
    ensures var s := After(Init<int>(), actions);
            && |s.outcomes| == 2 && !s.outcomes[1].executed && s.outcomes[1].c < |s.heap|
            && var x := s.heap[s.outcomes[1].c]; x.finished.Some? && x.finished.value < s.outcomes[1].entered
  {
    var s1 := Apply(Init<int>(), Enter(0, "k"));
    var s2 := Apply(s1, Finish(0, 7));
    var s3 := Apply(s2, Enter(1, "k"));
    var s4 := Apply(s3, Delete(0));
    var s5 := Apply(s4, Release(0));
    assert Runs(Apply(s5, Wake(1)), []);
    actions := [Wake(1)];
    actions := Prepend(s4, Release(0), actions);
    actions := Prepend(s3, Delete(0), actions);
    actions := Prepend(s2, Enter(1, "k"), actions);
    actions := Prepend(s1, Finish(0, 7), actions);
    actions := Prepend(Init<int>(), Enter(0, "k"), actions);
  }

  lemma Prepend<V>(s: State<V>, a: Action<V>, rest: seq<Action<V>>) returns (actions: seq<Action<V>>)
    requires Enabled(s, a) && Runs(Apply(s, a), rest)
    ensures Runs(s, actions) && After(s, actions) == After(Apply(s, a), rest)
  {
    actions := [a] + rest;
  }
}

/** Locked calls: calls with one key run one after the other, each caller its own function. */
module LockedCalls {
  import opened Goroutines

  type Key = string

  /** Where a caller is; `w` names the wait group it made or found. */
  datatype Pc =
    | Trying(key: Key)            // about to look into the map
    | Blocked(key: Key, w: nat)   // waits for the wait group it found
    | Running(key: Key, w: nat)   // runs its own fn
    | Ran(key: Key, w: nat)       // fn has returned
    | Unlisted(w: nat)            // has taken its wait group out of the map, Done is still to come

  datatype State = State(
    m: map<Key, nat>,
    made: seq<Pid>,        // history: who made which wait group
    released: set<nat>,    // wait groups whose Done has been called
    procs: map<Pid, Pc>,
    runs: multiset<Pid>,   // history: executions of fn
    returned: set<Pid>)    // history: callers that have returned

  const INIT := State(map[], [], {}, map[], multiset{}, {})

  datatype Action = Enter(p: Pid, key: Key) | Look(p: Pid) | Wake(p: Pid) | Finish(p: Pid) | Unlist(p: Pid) | Release(p: Pid)

  predicate Enabled(s: State, a: Action) {
    match a
    case Enter(p, _) => p !in s.procs && p !in s.returned
    case Look(p) => p in s.procs && s.procs[p].Trying?
    case Wake(p) => p in s.procs && s.procs[p].Blocked? && s.procs[p].w in s.released
    case Finish(p) => p in s.procs && s.procs[p].Running?
    case Unlist(p) => p in s.procs && s.procs[p].Ran?
    case Release(p) => p in s.procs && s.procs[p].Unlisted?
  }

  function Apply(s: State, a: Action): State
    requires Enabled(s, a)
  {
    match a
    case Enter(p, key) => s.(procs := s.procs[p := Trying(key)])
    case Look(p) =>
      var key := s.procs[p].key;
      if key in s.m then s.(procs := s.procs[p := Blocked(key, s.m[key])])
      else s.(m := s.m[key := |s.made|], made := s.made + [p], procs := s.procs[p := Running(key, |s.made|)])
    case Wake(p) => s.(procs := s.procs[p := Trying(s.procs[p].key)])
    case Finish(p) => s.(runs := s.runs + multiset{p}, procs := s.procs[p := Ran(s.procs[p].key, s.procs[p].w)])
    case Unlist(p) => s.(m := s.m - {s.procs[p].key}, procs := s.procs[p := Unlisted(s.procs[p].w)])
    case Release(p) => s.(released := s.released + {s.procs[p].w}, procs := s.procs - {p}, returned := s.returned + {p})
  }

  // ---------------------------------------------------------------- what every step keeps

  ghost predicate Owns(pc: Pc, w: nat) {
    !pc.Trying? && !pc.Blocked? && pc.w == w
  }

  ghost predicate ProcOk(s: State, p: Pid)
    requires p in s.procs
  {
    && p !in s.returned
    && match s.procs[p] {
         case Trying(key) => s.runs[p] == 0
         case Blocked(key, w) => s.runs[p] == 0 && w < |s.made|
         case Running(key, w) => s.runs[p] == 0 && w < |s.made| && s.made[w] == p && w !in s.released && key in s.m && s.m[key] == w
         case Ran(key, w) => s.runs[p] == 1 && w < |s.made| && s.made[w] == p && w !in s.released && key in s.m && s.m[key] == w
         case Unlisted(w) => s.runs[p] == 1 && w < |s.made| && s.made[w] == p && w !in s.released
       }
  }

  /** A listed wait group belongs to a caller of that key that is running, or has just run, its function. */
  ghost predicate KeyOk(s: State, key: Key)
    requires key in s.m
  {
    && s.m[key] < |s.made| && s.m[key] !in s.released
    && s.made[s.m[key]] in s.procs
    && (s.procs[s.made[s.m[key]]] == Running(key, s.m[key]) || s.procs[s.made[s.m[key]]] == Ran(key, s.m[key]))
  }

  /** A wait group that is not yet released still has its owner. */
  ghost predicate GroupOk(s: State, w: nat)
    requires w < |s.made|
  {
    w in s.released || (s.made[w] in s.procs && Owns(s.procs[s.made[w]], w))
  }

  ghost predicate Inv(s: State) {
    && (forall key | key in s.m :: KeyOk(s, key))
    && (forall w | 0 <= w < |s.made| :: GroupOk(s, w))
    && (forall w | w in s.released :: w < |s.made|)
    && (forall p | p in s.procs :: ProcOk(s, p))
    && (forall p | p !in s.procs :: s.runs[p] == if p in s.returned then 1 else 0)
  }

  lemma KeyKept(s: State, a: Action, key: Key)
    requires Inv(s) && Enabled(s, a) && key in Apply(s, a).m
    ensures KeyOk(Apply(s, a), key)
  {
    if key in s.m {
      assert KeyOk(s, key);
    }
    if a.p in s.procs {
      assert ProcOk(s, a.p);
    }
  }

  lemma GroupKept(s: State, a: Action, w: nat)
    requires Inv(s) && Enabled(s, a) && w < |Apply(s, a).made|
    ensures GroupOk(Apply(s, a), w)
  {
    if w < |s.made| {
      assert GroupOk(s, w);
    }
    if a.p in s.procs {
      assert ProcOk(s, a.p);
    }
  }

  lemma ProcKept(s: State, a: Action, p: Pid)
    requires Inv(s) && Enabled(s, a) && p in Apply(s, a).procs
    ensures ProcOk(Apply(s, a), p)
  {
    if p in s.procs {
      assert ProcOk(s, p);
    }
    if a.p in s.procs {
      assert ProcOk(s, a.p);
    }
  }

  lemma StepKeepsInv(s: State, a: Action)
    requires Inv(s) && Enabled(s, a)
    ensures Inv(Apply(s, a))
  {
    var s' := Apply(s, a);
    forall key | key in s'.m ensures KeyOk(s', key) { KeyKept(s, a, key); }
    forall w | 0 <= w < |s'.made| ensures GroupOk(s', w) { GroupKept(s, a, w); }
    forall p | p in s'.procs ensures ProcOk(s', p) { ProcKept(s, a, p); }
    if a.p in s.procs {
      assert ProcOk(s, a.p);
    }
  }

  // ---------------------------------------------------------------- every run

  ghost predicate Runs(s: State, actions: seq<Action>)
    decreases |actions|
  {
    actions == [] || (Enabled(s, actions[0]) && Runs(Apply(s, actions[0]), actions[1..]))
  }

  function After(s: State, actions: seq<Action>): State
    requires Runs(s, actions)
    decreases |actions|
  {
    if actions == [] then s else After(Apply(s, actions[0]), actions[1..])
  }

  lemma {:induction false} RunsKeepInv(s: State, actions: seq<Action>)
    requires Inv(s) && Runs(s, actions)
    ensures Inv(After(s, actions))
    decreases |actions|
  {
    if actions != [] {
      StepKeepsInv(s, actions[0]);
      RunsKeepInv(Apply(s, actions[0]), actions[1..]);
    }
  }

  /** In every reachable state at most one caller per key runs its function. */
  lemma MutualExclusion(actions: seq<Action>, p: Pid, q: Pid)
    requires Runs(INIT, actions)
    requires var s := After(INIT, actions);
             p in s.procs && q in s.procs && s.procs[p].Running? && s.procs[q].Running? && s.procs[p].key == s.procs[q].key
    ensures p == q
  {
    RunsKeepInv(INIT, actions);
    assert ProcOk(After(INIT, actions), p) && ProcOk(After(INIT, actions), q);
  }

  /** Every caller that has returned has run its own function exactly once, and nobody has run it before. */
  lemma EveryCallerRunsOnce(actions: seq<Action>, p: Pid)
    requires Runs(INIT, actions)
    ensures var s := After(INIT, actions);
            && s.runs[p] <= 1
            && (p in s.returned ==> s.runs[p] == 1)
            && (p !in s.returned && p !in s.procs ==> s.runs[p] == 0)
  {
    RunsKeepInv(INIT, actions);
    var s := After(INIT, actions);
    if p in s.procs {
      assert ProcOk(s, p);
    }
  }

  /** The goroutine is running its function on the key, or has just run it. */
  predicate Busy(s: State, q: Pid, key: Key) {
    q in s.procs && (s.procs[q].Running? || s.procs[q].Ran?) && s.procs[q].key == key
  }

  /** In every reachable state, a caller that looks runs its function at once if and only if nobody is busy with the same
      key; calls on other keys never block it. */
  lemma RunsUnlessKeyIsBusy(actions: seq<Action>, p: Pid, key: Key)
    requires Runs(INIT, actions) && p in After(INIT, actions).procs && After(INIT, actions).procs[p] == Trying(key)
    ensures var s := After(INIT, actions);
            Apply(s, Look(p)).procs[p].Running? <==> !exists q :: Busy(s, q, key)
  {
    RunsKeepInv(INIT, actions);
    var s := After(INIT, actions);
    if key in s.m {
      assert KeyOk(s, key);
      assert Busy(s, s.made[s.m[key]], key);
    }
    if q :| Busy(s, q, key) {
      assert ProcOk(s, q);
    }
  }

  /** No caller is stuck: whoever is inside can move, or waits for a wait group whose owner can. */
  lemma SomeoneCanMove(actions: seq<Action>, p: Pid) returns (a: Action)
    requires Runs(INIT, actions) && p in After(INIT, actions).procs
    ensures Enabled(After(INIT, actions), a) && !a.Enter?
    ensures var s := After(INIT, actions);
            a.p == p || (s.procs[p].Blocked? && s.procs[p].w < |s.made| && a.p == s.made[s.procs[p].w])
  {
    RunsKeepInv(INIT, actions);
    var s := After(INIT, actions);
    assert ProcOk(s, p);
    var pc := s.procs[p];
    if pc.Trying? {
      a := Look(p);
    } else if pc.Blocked? && pc.w in s.released {
      a := Wake(p);
    } else {
      if pc.Blocked? {
        assert GroupOk(s, pc.w);
      }
      var owner := if pc.Blocked? then s.made[pc.w] else p;
      a := if s.procs[owner].Running? then Finish(owner) else if s.procs[owner].Ran? then Unlist(owner) else Release(owner);
    }
  }
}
