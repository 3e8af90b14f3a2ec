/** The batching executor as a protocol of interleaved atomic steps: callers that add tasks, flushes,
    and a background flusher that comes and goes.  Each step is one lock section, one channel
    operation or one atomic counter access. */
module Executors {
  import opened Arithmetic
  import opened Goroutines
  import opened Wrappers

  /** Where a goroutine is.  A batch is named by its place in the order of removal from the container. */
  datatype Pc =
    | Starting(batch: Option<nat>)        // an Add that has yet to start the flusher it announced
    | Sending(id: nat)                    // an Add about to hand a full batch to the commander channel
    | Waiting                             // an Add that waits for the confirmation
    | Flushing(batch: Option<nat>)        // a Flush that has emptied the container
    | Looping(commanded: bool)            // the flusher at its select
    | Received(id: nat)                   // ... has received a batch
    | Confirming(id: nat)                 // ... and counted it down
    | Running(id: nat)                    // ... and confirmed it
    | Flushed(batch: Option<nat>)         // the flusher has emptied the container on a tick
    | Final                               // the flusher has quit, its last flush is still to come
    | FinalFlushed(batch: Option<nat>)

  datatype State<T> = State(
    maxTasks: int,
    container: seq<T>,
    guarded: bool,
    inflight: int,
    commander: Option<nat>,
    procs: map<Pid, Pc>,
    added: seq<T>,          // history: every task added, in order
    taken: seq<seq<T>>,     // history: every non-empty batch removed from the container, in order
    executed: seq<nat>)     // history: the batches given to Execute, in order

  function Init<T>(maxTasks: int): State<T> {
    State(maxTasks, [], false, 0, None, map[], [], [], [])
  }

  // ---------------------------------------------------------------- steps

  datatype Action<T> =
    | Add(p: Pid, task: T)
    | Spawn(p: Pid, q: Pid)
    | Send(p: Pid)
    | Receive(q: Pid)
    | CountDown(q: Pid)
    | Confirm(q: Pid, p: Pid)
    | Execute(p: Pid)
    | Return(p: Pid)
    | TickAfterCommand(q: Pid)
    | TickFlush(q: Pid)
    | Resume(q: Pid)
    | Quit(q: Pid)
    | FinalFlush(q: Pid)
    | Flush(p: Pid)

  predicate Enabled<T>(s: State<T>, a: Action<T>) {
    match a
    case Add(p, _) => p !in s.procs
    case Spawn(p, q) => p in s.procs && s.procs[p].Starting? && q !in s.procs
    case Send(p) => p in s.procs && s.procs[p].Sending? && s.commander.None?
    case Receive(q) => q in s.procs && s.procs[q].Looping? && s.commander.Some?
    case CountDown(q) => q in s.procs && s.procs[q].Received?
    case Confirm(q, p) => q in s.procs && s.procs[q].Confirming? && p in s.procs && s.procs[p].Waiting?
    case Execute(p) => p in s.procs && ReadyToRun(s.procs[p])
    case Return(p) => p in s.procs && (s.procs[p] == Flushing(None) || s.procs[p] == FinalFlushed(None))
    case TickAfterCommand(q) => q in s.procs && s.procs[q] == Looping(true)
    case TickFlush(q) => q in s.procs && s.procs[q] == Looping(false)
    case Resume(q) => q in s.procs && s.procs[q] == Flushed(None)
    case Quit(q) => q in s.procs && s.procs[q] == Flushed(None) && s.inflight == 0
    case FinalFlush(q) => q in s.procs && s.procs[q].Final?
    case Flush(p) => p !in s.procs
  }

  predicate ReadyToRun(pc: Pc) {
    pc.Running? || ((pc.Flushing? || pc.Flushed? || pc.FinalFlushed?) && pc.batch.Some?)
  }

  /** Empties the container: the batch taken, if there was anything in it. */
  function RemoveAll<T>(s: State<T>): (State<T>, Option<nat>) {
    if s.container == [] then (s, None)
    else (s.(container := [], taken := s.taken + [s.container]), Some(|s.taken|))
  }

  /** addAndCheck: appends the task, takes the batch if the container is full, and claims the guard. */
  function AddAndCheck<T>(s: State<T>, task: T): (State<T>, Option<nat>) {
    var s1 := s.(container := s.container + [task], added := s.added + [task], guarded := true);
    if |s1.container| >= s.maxTasks then
      var (s2, batch) := RemoveAll(s1);
      (s2.(inflight := s2.inflight + 1), batch)
    else (s1, None)
  }

  function Goto<T>(s: State<T>, p: Pid, pc: Pc): State<T> {
    s.(procs := s.procs[p := pc])
  }

  function Exit<T>(s: State<T>, p: Pid): State<T> {
    s.(procs := s.procs - {p})
  }

  function Apply<T>(s: State<T>, a: Action<T>): State<T>
    requires Enabled(s, a)
  {
    match a
    case Add(p, task) =>
      var (s', batch) := AddAndCheck(s, task);
      if !s.guarded then Goto(s', p, Starting(batch))
      else if batch.Some? then Goto(s', p, Sending(batch.value)) else s'
    case Spawn(p, q) =>
      var batch := s.procs[p].batch;
      var s' := if batch.Some? then Goto(s, p, Sending(batch.value)) else Exit(s, p);
      Goto(s', q, Looping(false))
    case Send(p) => Goto(s, p, Waiting).(commander := Some(s.procs[p].id))
    case Receive(q) => Goto(s, q, Received(s.commander.value)).(commander := None)
    case CountDown(q) => Goto(s, q, Confirming(s.procs[q].id)).(inflight := s.inflight - 1)
    case Confirm(q, p) => Exit(Goto(s, q, Running(s.procs[q].id)), p)
    case Execute(p) =>
      match s.procs[p] {
        case Running(id) => Goto(s, p, Looping(true)).(executed := s.executed + [id])
        case Flushed(batch) => Goto(s, p, Looping(false)).(executed := s.executed + [batch.value])
        case Flushing(batch) => Exit(s, p).(executed := s.executed + [batch.value])
        case FinalFlushed(batch) => Exit(s, p).(executed := s.executed + [batch.value])
        case _ => s
      }
    case Return(p) => Exit(s, p)
    case TickAfterCommand(q) => Goto(s, q, Looping(false))
    case TickFlush(q) => var (s', batch) := RemoveAll(s); Goto(s', q, Flushed(batch))
    case Resume(q) => Goto(s, q, Looping(false))
    case Quit(q) => Goto(s, q, Final).(guarded := false)
    case FinalFlush(q) => var (s', batch) := RemoveAll(s); Goto(s', q, FinalFlushed(batch))
    case Flush(p) => var (s', batch) := RemoveAll(s); Goto(s', p, Flushing(batch))
  }

  // ---------------------------------------------------------------- what every step keeps

  /** The flusher, or the Add that has announced it. */
  predicate Agent(pc: Pc) {
    pc.Starting? || pc.Looping? || pc.Received? || pc.Confirming? || pc.Running? || pc.Flushed?
  }

  /** A full batch that is on its way and still counted in `inflight`. */
  predicate Pending(pc: Pc) {
    (pc.Starting? && pc.batch.Some?) || pc.Sending? || pc.Received?
  }

  predicate IsWaiting(pc: Pc) {
    pc == Waiting
  }

  predicate IsFinal(pc: Pc) {
    pc == Final
  }

  /** A batch that a flusher has received but not yet confirmed. */
  predicate Handing(pc: Pc) {
    pc.Received? || pc.Confirming?
  }

  predicate Holds(pc: Pc, id: nat) {
    match pc
    case Waiting => false
    case Looping(_) => false
    case Final => false
    case Sending(i) => i == id
    case Received(i) => i == id
    case Confirming(i) => i == id
    case Running(i) => i == id
    case Starting(b) => b == Some(id)
    case Flushing(b) => b == Some(id)
    case Flushed(b) => b == Some(id)
    case FinalFlushed(b) => b == Some(id)
  }

  function Holding(id: nat): Pc -> bool {
    pc => Holds(pc, id)
  }

  function Concat<T>(batches: seq<seq<T>>): seq<T> {
    if batches == [] then [] else Concat(batches[..|batches| - 1]) + batches[|batches| - 1]
  }

  /** In how many places a batch is: with a goroutine, in the channel, executed. */
  ghost function Places<T>(s: State<T>, id: nat): nat {
    Count(s.procs, Holding(id)) + One(s.commander == Some(id)) + multiset(s.executed)[id]
  }

  /** Every task is in the container or in a batch, in the order it was added; every batch is in one place. */
  ghost predicate NothingLost<T>(s: State<T>) {
    && s.added == Concat(s.taken) + s.container
    && (forall id: nat :: Places(s, id) == One(id < |s.taken|))
  }

  /** The guard and the counters say who is there: one flusher, or one about to start, exactly while
      `guarded` is set; the batches on their way; a confirmation for every caller that waits for one. */
  ghost predicate Counted<T>(s: State<T>) {
    && Count(s.procs, Agent) == One(s.guarded)
    && s.inflight == Count(s.procs, Pending) + One(s.commander.Some?)
    && Count(s.procs, IsWaiting) == Count(s.procs, Handing) + One(s.commander.Some?)
  }

  /** Whatever still has to be run has someone to run it. */
  ghost predicate Attended<T>(s: State<T>) {
    && (s.inflight > 0 ==> s.guarded)
    && (s.container != [] ==> s.guarded || Count(s.procs, IsFinal) > 0)
  }

  /** Batches are never empty, and never larger than the limit. */
  ghost predicate Sized<T>(s: State<T>) {
    && (s.container == [] || |s.container| < s.maxTasks)
    && (forall b | b in s.taken :: 0 < |b| && (|b| == 1 || |b| <= s.maxTasks))
  }

  ghost predicate Inv<T>(s: State<T>) {
    NothingLost(s) && Counted(s) && Attended(s) && Sized(s)
  }

  // ---------------------------------------------------------------- proofs, step by step

  /** The goroutines an action moves. */
  function Mover<T>(a: Action<T>): Pid {
    match a
    case Add(p, _) => p
    case Spawn(p, _) => p
    case Send(p) => p
    case Execute(p) => p
    case Return(p) => p
    case Flush(p) => p
    case _ => a.q
  }

  function Partner<T>(a: Action<T>): Pid {
    if a.Spawn? then a.q else if a.Confirm? then a.p else Mover(a)
  }

  /** The steps that take tasks from the container or put them there. */
  predicate Removes<T>(a: Action<T>) {
    a.Add? || a.TickFlush? || a.FinalFlush? || a.Flush?
  }

  ghost predicate MovesOnly<T>(s: State<T>, a: Action<T>, s': State<T>) {
    s.procs - {Mover(a)} - {Partner(a)} == s'.procs - {Mover(a)} - {Partner(a)}
  }

  lemma RemovalMovesOnly<T>(s: State<T>, a: Action<T>)
    requires Enabled(s, a) && Removes(a)
    ensures MovesOnly(s, a, Apply(s, a))
  {
  }

  lemma HandoverMovesOnly<T>(s: State<T>, a: Action<T>)
    requires Enabled(s, a) && !Removes(a)
    ensures MovesOnly(s, a, Apply(s, a))
  {
  }

  lemma CountStep<T>(s: State<T>, a: Action<T>, f: Pc -> bool)
    requires Enabled(s, a)
    ensures var procs, procs', p, q := s.procs, Apply(s, a).procs, Mover(a), Partner(a);
            Count(procs', f) + Weight(procs, p, q, f) == Count(procs, f) + Weight(procs', p, q, f)
  {
    if Removes(a) {
      RemovalMovesOnly(s, a);
    } else {
      HandoverMovesOnly(s, a);
    }
    CountMoves(s.procs, Apply(s, a).procs, Mover(a), Partner(a), f);
  }

  lemma PlacesKept<T>(s: State<T>, a: Action<T>, id: nat)
    requires Enabled(s, a) && Places(s, id) == One(id < |s.taken|)
    ensures Places(Apply(s, a), id) == One(id < |Apply(s, a).taken|)
  {
    CountStep(s, a, Holding(id));
    if a.Execute? {
      ExecuteMovesBatch(s, a.p, id);
    } else if Removes(a) {
      RemovalPassesOn(s, a, id);
    } else {
      HandoverPassesOn(s, a, id);
    }
  }

  /** A step passes batches on among the goroutines that take part, the channel and the container. */
  ghost predicate PassesOn<T>(s: State<T>, a: Action<T>, s': State<T>, id: nat) {
    var f, p, q := Holding(id), Mover(a), Partner(a);
    && s'.executed == s.executed
    && Weight(s'.procs, p, q, f) + One(s'.commander == Some(id)) + One(id < |s.taken|)
       == Weight(s.procs, p, q, f) + One(s.commander == Some(id)) + One(id < |s'.taken|)
  }

  lemma RemovalPassesOn<T>(s: State<T>, a: Action<T>, id: nat)
    requires Enabled(s, a) && Removes(a)
    ensures PassesOn(s, a, Apply(s, a), id)
  {
  }

  lemma HandoverPassesOn<T>(s: State<T>, a: Action<T>, id: nat)
    requires Enabled(s, a) && !a.Execute? && !Removes(a)
    ensures PassesOn(s, a, Apply(s, a), id)
  {
  }

  function BatchOf(pc: Pc): nat
    requires ReadyToRun(pc)
  {
    if pc.Running? then pc.id else pc.batch.value
  }

  /** Execute appends the goroutine's batch to the executed ones, and the goroutine holds it no longer. */
  lemma ExecuteEffect<T>(s: State<T>, p: Pid)
    requires Enabled(s, Action<T>.Execute(p))
    ensures var s' := Apply(s, Action<T>.Execute(p));
            && s'.executed == s.executed + [BatchOf(s.procs[p])]
            && (p in s'.procs ==> s'.procs[p].Looping?)
            && s'.commander == s.commander && s'.taken == s.taken
  {
  }

  lemma ExecuteMovesBatch<T>(s: State<T>, p: Pid, id: nat)
    requires Enabled(s, Action<T>.Execute(p))
    ensures var s' := Apply(s, Action<T>.Execute(p));
            && multiset(s'.executed)[id] == multiset(s.executed)[id] + One(Holds(s.procs[p], id))
            && !(p in s'.procs && Holds(s'.procs[p], id))
            && s'.commander == s.commander && s'.taken == s.taken
  {
    ExecuteEffect(s, p);
    assert Holds(s.procs[p], id) <==> BatchOf(s.procs[p]) == id;
  }

  lemma AgentKept<T>(s: State<T>, a: Action<T>)
    requires Enabled(s, a) && Count(s.procs, Agent) == One(s.guarded)
    ensures Count(Apply(s, a).procs, Agent) == One(Apply(s, a).guarded)
  {
    CountStep(s, a, Agent);
  }

  /** What a step adds to a count: the goroutines that take part, after and before it. */
  ghost function Gain<T>(s: State<T>, a: Action<T>, s': State<T>, f: Pc -> bool): int {
    Weight(s'.procs, Mover(a), Partner(a), f) - Weight(s.procs, Mover(a), Partner(a), f)
  }

  ghost predicate InflightFollows<T>(s: State<T>, a: Action<T>, s': State<T>) {
    s'.inflight - s.inflight == Gain(s, a, s', Pending) + One(s'.commander.Some?) - One(s.commander.Some?)
  }

  ghost predicate WaitersFollow<T>(s: State<T>, a: Action<T>, s': State<T>) {
    Gain(s, a, s', IsWaiting) == Gain(s, a, s', Handing) + One(s'.commander.Some?) - One(s.commander.Some?)
  }

  lemma RemovalInflight<T>(s: State<T>, a: Action<T>)
    requires Enabled(s, a) && Removes(a)
    ensures InflightFollows(s, a, Apply(s, a))
  {
  }

  lemma RemovalWaiters<T>(s: State<T>, a: Action<T>)
    requires Enabled(s, a) && Removes(a)
    ensures WaitersFollow(s, a, Apply(s, a))
  {
  }

  lemma HandoverInflight<T>(s: State<T>, a: Action<T>)
    requires Enabled(s, a) && !Removes(a)
    ensures InflightFollows(s, a, Apply(s, a))
  {
  }

  lemma HandoverWaiters<T>(s: State<T>, a: Action<T>)
    requires Enabled(s, a) && !Removes(a)
    ensures WaitersFollow(s, a, Apply(s, a))
  {
  }

  lemma InflightKept<T>(s: State<T>, a: Action<T>)
    requires Enabled(s, a) && s.inflight == Count(s.procs, Pending) + One(s.commander.Some?)
    ensures Apply(s, a).inflight == Count(Apply(s, a).procs, Pending) + One(Apply(s, a).commander.Some?)
  {
    CountStep(s, a, Pending);
    if Removes(a) {
      RemovalInflight(s, a);
    } else {
      HandoverInflight(s, a);
    }
  }

  lemma WaitersKept<T>(s: State<T>, a: Action<T>)
    requires Enabled(s, a) && Count(s.procs, IsWaiting) == Count(s.procs, Handing) + One(s.commander.Some?)
    ensures Count(Apply(s, a).procs, IsWaiting) == Count(Apply(s, a).procs, Handing) + One(Apply(s, a).commander.Some?)
  {
    CountStep(s, a, Handing);
    CountStep(s, a, IsWaiting);
    if Removes(a) {
      RemovalWaiters(s, a);
    } else {
      HandoverWaiters(s, a);
    }
  }

  lemma CountsKept<T>(s: State<T>, a: Action<T>)
    requires Enabled(s, a) && Counted(s)
    ensures Counted(Apply(s, a))
  {
    AgentKept(s, a);
    InflightKept(s, a);
    WaitersKept(s, a);
  }

  lemma AttendedKept<T>(s: State<T>, a: Action<T>)
    requires Enabled(s, a) && Counted(s) && Attended(s)
    ensures Attended(Apply(s, a))
  {
    CountsKept(s, a);
    CountStep(s, a, IsFinal);
  }

  /** What a step does to the container: nothing, an addition, or the removal of everything in it. */
  ghost predicate Fills<T>(s: State<T>, a: Action<T>, s': State<T>) {
    var container := if a.Add? then s.container + [a.task] else s.container;
    && s'.maxTasks == s.maxTasks
    && s'.added == (if a.Add? then s.added + [a.task] else s.added)
    && if s'.taken == s.taken then s'.container == container && (a.Add? ==> |container| < s.maxTasks)
       else
         && container != [] && (a.Add? ==> |container| >= s.maxTasks)
         && s'.container == [] && s'.taken == s.taken + [container]
  }

  lemma ContainerEffect<T>(s: State<T>, a: Action<T>)
    requires Enabled(s, a)
    ensures Fills(s, a, Apply(s, a))
  {
  }

  /** An Add takes the batch, its own task included, if and only if that makes the container full. */
  lemma AddTakesIffFull<T>(s: State<T>, p: Pid, task: T)
    requires Enabled(s, Add(p, task))
    ensures var s' := Apply(s, Add(p, task));
            if |s.container| + 1 >= s.maxTasks then s'.taken == s.taken + [s.container + [task]] && s'.container == []
            else s'.taken == s.taken && s'.container == s.container + [task]
  {
    ContainerEffect(s, Add(p, task));
    assert s.taken + [s.container + [task]] != s.taken;
  }

  lemma ConcatSnoc<T>(batches: seq<seq<T>>, batch: seq<T>)
    ensures Concat(batches + [batch]) == Concat(batches) + batch
  {
    assert (batches + [batch])[..|batches|] == batches;
  }

  lemma AddedLast<T>(added: seq<T>, taken: seq<seq<T>>, container: seq<T>, task: T)
    requires added == Concat(taken) + container
    ensures added + [task] == Concat(taken) + (container + [task])
  {
  }

  lemma TasksKept<T>(s: State<T>, a: Action<T>, s': State<T>)
    requires Fills(s, a, s') && s.added == Concat(s.taken) + s.container
    ensures s'.added == Concat(s'.taken) + s'.container
  {
    if a.Add? {
      AddedLast(s.added, s.taken, s.container, a.task);
    }
    ConcatSnoc(s.taken, if a.Add? then s.container + [a.task] else s.container);
  }

  lemma SizesKept<T>(s: State<T>, a: Action<T>, s': State<T>)
    requires Fills(s, a, s') && Sized(s)
    ensures Sized(s')
  {
  }

  /** Every step of every interleaving keeps the invariant. */
  lemma StepKeepsInv<T>(s: State<T>, a: Action<T>)
    requires Inv(s) && Enabled(s, a)
    ensures Inv(Apply(s, a))
  {
    ContainerEffect(s, a);
    TasksKept(s, a, Apply(s, a));
    SizesKept(s, a, Apply(s, a));
    forall id: nat
      ensures Places(Apply(s, a), id) == One(id < |Apply(s, a).taken|)
    {
      PlacesKept(s, a, id);
    }
    CountsKept(s, a);
    AttendedKept(s, a);
  }

  // ---------------------------------------------------------------- every run

  ghost predicate Runs<T>(s: State<T>, actions: seq<Action<T>>)
    decreases |actions|
  {
    actions == [] || (Enabled(s, actions[0]) && Runs(Apply(s, actions[0]), actions[1..]))
  }

  function After<T>(s: State<T>, actions: seq<Action<T>>): State<T>
    requires Runs(s, actions)
    decreases |actions|
  {
    if actions == [] then s else After(Apply(s, actions[0]), actions[1..])
  }

  lemma {:induction false} RunsKeepInv<T>(s: State<T>, actions: seq<Action<T>>)
    requires Inv(s) && Runs(s, actions)
    ensures Inv(After(s, actions))
    decreases |actions|
  {
    if actions != [] {
      StepKeepsInv(s, actions[0]);
      RunsKeepInv(Apply(s, actions[0]), actions[1..]);
    }
  }

  lemma InitInv<T>(maxTasks: int)
    ensures Inv(Init<T>(maxTasks))
  {
    var s := Init<T>(maxTasks);
    assert Those(s.procs, Agent) == Those(s.procs, Pending) == Those(s.procs, IsWaiting) == Those(s.procs, Handing) == {};
    forall id: nat
      ensures Places(s, id) == 0
    {
      assert Those(s.procs, Holding(id)) == {};
    }
  }

  /** In every reachable state: the tasks added are exactly those of the batches taken, in order, and of
      the container; each batch is in exactly one place, with a goroutine, in the channel, or executed; and no
      batch is empty or over the limit. */
  lemma NoTaskIsLostOrDuplicated<T>(maxTasks: int, actions: seq<Action<T>>)
    requires Runs(Init(maxTasks), actions)
    ensures var s := After(Init(maxTasks), actions);
            && s.added == Concat(s.taken) + s.container
            && (forall id: nat :: Places(s, id) == One(id < |s.taken|))
            && (forall b | b in s.taken :: 0 < |b| && (|b| == 1 || |b| <= maxTasks))
  {
    InitInv<T>(maxTasks);
    RunsKeepInv(Init(maxTasks), actions);
    LimitNeverChanges(Init(maxTasks), actions);
  }

  lemma {:induction false} LimitNeverChanges<T>(s: State<T>, actions: seq<Action<T>>)
    requires Runs(s, actions)
    ensures After(s, actions).maxTasks == s.maxTasks
    decreases |actions|
  {
    if actions != [] {
      ContainerEffect(s, actions[0]);
      LimitNeverChanges(Apply(s, actions[0]), actions[1..]);
    }
  }

  /** In every reachable state: while there are tasks in the container, or an Add has a batch to hand over
      or waits for its confirmation, a flusher is looping or about to start, or about to flush one last time;
      and there are never two of them looping or about to start. */
  lemma SomeoneWillFlush<T>(maxTasks: int, actions: seq<Action<T>>)
    requires Runs(Init(maxTasks), actions)
    ensures var s := After(Init(maxTasks), actions);
            && (s.container != [] ==> exists q :: q in s.procs && (Agent(s.procs[q]) || s.procs[q] == Final))
            && ((exists p :: p in s.procs && (Pending(s.procs[p]) || s.procs[p] == Waiting)) ==>
                  exists q :: q in s.procs && Agent(s.procs[q]))
            && (forall q, r | q in s.procs && r in s.procs && Agent(s.procs[q]) && Agent(s.procs[r]) :: q == r)
  {
    InitInv<T>(maxTasks);
    RunsKeepInv(Init(maxTasks), actions);
    var s := After(Init(maxTasks), actions);
    Present(s.procs, Agent);
    Present(s.procs, IsFinal);
    Present(s.procs, Pending);
    Present(s.procs, IsWaiting);
    Present(s.procs, Handing);
    forall q, r | q in s.procs && r in s.procs && Agent(s.procs[q]) && Agent(s.procs[r])
      ensures q == r
    {
      AtMostOne(s.procs, Agent, q, r);
    }
    if p :| p in s.procs && s.procs[p] == Waiting {
      assert IsWaiting(s.procs[p]);
      HandingIsAgent(s.procs);
    }
  }

  lemma HandingIsAgent(procs: map<Pid, Pc>)
    ensures Count(procs, Handing) <= Count(procs, Agent)
  {
    CardinalityOrder(Those(procs, Handing), Those(procs, Agent));
  }

  /** A flusher that quits strands no hand-over: nobody is sending, nothing is in the channel, nobody waits. */
  lemma QuitStrandsNobody<T>(s: State<T>, q: Pid)
    requires Inv(s) && Enabled(s, Action<T>.Quit(q))
    ensures s.commander.None? && forall p | p in s.procs :: !s.procs[p].Sending? && s.procs[p] != Waiting
  {
    Present(s.procs, Pending);
    Present(s.procs, IsWaiting);
    forall p | p in s.procs && Handing(s.procs[p])
      ensures false
    {
      AtMostOne(s.procs, Agent, p, q);
    }
    Present(s.procs, Handing);
    assert forall p | p in s.procs :: (s.procs[p].Sending? ==> Pending(s.procs[p])) && (s.procs[p] == Waiting ==> IsWaiting(s.procs[p]));
  }

  /** When every goroutine has finished, everything added has been executed, each batch exactly once. */
  lemma QuietMeansAllExecuted<T>(maxTasks: int, actions: seq<Action<T>>)
    requires Runs(Init(maxTasks), actions) && After(Init(maxTasks), actions).procs == map[]
    ensures var s := After(Init(maxTasks), actions);
            && s.container == [] && s.added == Concat(s.taken)
            && forall id: nat :: multiset(s.executed)[id] == One(id < |s.taken|)
  {
    InitInv<T>(maxTasks);
    RunsKeepInv(Init(maxTasks), actions);
    var s := After(Init(maxTasks), actions);
    Present(s.procs, Agent);
    Present(s.procs, IsFinal);
    forall id: nat
      ensures multiset(s.executed)[id] == One(id < |s.taken|)
    {
      Present(s.procs, Holding(id));
      assert Places(s, id) == One(id < |s.taken|);
    }
  }

  // ---------------------------------------------------------------- progress

  /** The flusher, or the Add about to start it, can always move: a confirmation it owes has someone to go to. */
  lemma AgentCanMove<T>(s: State<T>, r: Pid, q: Pid) returns (a: Action<T>)
    requires Inv(s) && r in s.procs && Agent(s.procs[r]) && q !in s.procs
    ensures Enabled(s, a) && Mover(a) == r && !a.Add? && !a.Flush?
  {
    match s.procs[r] {
      case Starting(_) => a := Spawn(r, q);
      case Looping(commanded) =>
        a := if s.commander.Some? then Receive(r) else if commanded then TickAfterCommand(r) else TickFlush(r);
      case Received(_) => a := CountDown(r);
      case Confirming(_) =>
        Present(s.procs, Handing);
        assert Handing(s.procs[r]);
        Present(s.procs, IsWaiting);
        var p :| p in s.procs && IsWaiting(s.procs[p]);
        a := Confirm(r, p);
      case Running(_) => a := Execute(r);
      case Flushed(batch) => a := if batch.Some? then Execute(r) else Resume(r);
    }
  }

  /** In every reachable state a goroutine can move, or it waits, for the channel or for its confirmation, on a
      flusher that can. */
  lemma SomeoneCanMove<T>(maxTasks: int, actions: seq<Action<T>>, p: Pid, q: Pid) returns (a: Action<T>)
    requires Runs(Init(maxTasks), actions)
    requires p in After(Init(maxTasks), actions).procs && q !in After(Init(maxTasks), actions).procs
    ensures Enabled(After(Init(maxTasks), actions), a) && !a.Add? && !a.Flush?
    ensures var s := After(Init(maxTasks), actions);
            || Mover(a) == p
            || (((s.procs[p].Sending? && s.commander.Some?) || s.procs[p].Waiting?) && Mover(a) in s.procs && Agent(s.procs[Mover(a)]))
  {
    InitInv<T>(maxTasks);
    RunsKeepInv(Init(maxTasks), actions);
    SomeoneWillFlush(maxTasks, actions);
    var s := After(Init(maxTasks), actions);
    var pc := s.procs[p];
    if Agent(pc) {
      a := AgentCanMove(s, p, q);
    } else if pc.Sending? && s.commander.None? {
      a := Send(p);
    } else if pc.Sending? || pc.Waiting? {
      assert Pending(s.procs[p]) || s.procs[p] == Waiting;
      var r :| r in s.procs && Agent(s.procs[r]);
      a := AgentCanMove(s, r, q);
    } else if pc.Final? {
      a := FinalFlush(p);
    } else {
      a := if pc.batch.Some? then Execute(p) else Return(p);
    }
  }

  // ---------------------------------------------------------------- the container

  class BulkContainer<T> {
    var tasks: seq<T>
    const maxTasks: int

    constructor (maxTasks: int)
      ensures tasks == [] && this.maxTasks == maxTasks
    {
      this.tasks, this.maxTasks := [], maxTasks;
    }

    method AddTask(task: T) returns (full: bool)
      modifies this
      ensures tasks == old(tasks) + [task] && (full <==> |tasks| >= maxTasks)
    {
      tasks := tasks + [task];
      full := |tasks| >= maxTasks;
    }

    method RemoveAll() returns (all: seq<T>)
      modifies this
      ensures all == old(tasks) && tasks == []
    {
      all, tasks := tasks, [];
    }
  }

  /** addAndCheck's lock section on the container: it does to the tasks what the protocol's step does. */
  method AddToContainer<T>(c: BulkContainer<T>, task: T, ghost s: State<T>) returns (batch: Option<seq<T>>)
    requires s.container == c.tasks && s.maxTasks == c.maxTasks
    modifies c
    ensures batch == if old(|c.tasks|) + 1 >= c.maxTasks then Some(old(c.tasks) + [task]) else None
    ensures var (s', b) := AddAndCheck(s, task);
            && s'.container == c.tasks && s'.added == s.added + [task]
            && (b.Some? <==> batch.Some?)
            && s'.taken == if batch.Some? then s.taken + [batch.value] else s.taken
  {
    var full := c.AddTask(task);
    batch := None;
    if full {
      var all := c.RemoveAll();
      batch := Some(all);
    }
  }

  /** Flush's lock section on the container; hasTasks tells an empty batch from a full one. */
  method EmptyContainer<T>(c: BulkContainer<T>, ghost s: State<T>) returns (batch: seq<T>)
    requires s.container == c.tasks
    modifies c
    ensures var (s', b) := RemoveAll(s);
            && s'.container == c.tasks
            && (b.Some? <==> batch != [])
            && s'.taken == if batch != [] then s.taken + [batch] else s.taken
  {
    batch := c.RemoveAll();
  }
}
