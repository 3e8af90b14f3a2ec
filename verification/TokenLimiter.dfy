/** The token limiter's degrade and recover protocol, as interleaved atomic steps of its callers and
    of the monitors that probe a store which went down. */
module TokenLimiters {
  import opened Arithmetic
  import opened Goroutines

  datatype Pc =
    | Loaded      // a caller that saw the store alive and asks it for tokens
    | Failed      // ... got an error, about to try to mark the limiter down
    | Won         // ... swapped alive to false, about to start a monitor
    | Probing     // a monitor at its select
    | Pinging     // ... after its timer, asks the store
    | Healthy     // ... got an answer, about to clear monitorStarted
    | Cleared     // ... about to store alive

  datatype State = State(alive: bool, monitorStarted: bool, closed: bool, procs: map<Pid, Pc>)

  const INIT := State(true, false, false, map[])

  // ---------------------------------------------------------------- steps

  datatype Action =
    | Call(p: Pid)              // AllowContext loads alive
    | TakeOk(p: Pid)            // the store answers
    | TakeErr(p: Pid)           // the store fails
    | MarkDown(p: Pid)          // compare-and-swap
    | Start(p: Pid, q: Pid)     // the lock section of markDown
    | Stop(q: Pid)              // the monitor's select sees the closed channel
    | Timer(q: Pid)
    | PingErr(q: Pid)
    | PingOk(q: Pid)
    | Clear(q: Pid)
    | Revive(q: Pid)
    | Close

  predicate At(s: State, p: Pid, pc: Pc) {
    p in s.procs && s.procs[p] == pc
  }

  predicate Enabled(s: State, a: Action) {
    match a
    case Call(p) => p !in s.procs
    case TakeOk(p) => At(s, p, Loaded)
    case TakeErr(p) => At(s, p, Loaded)
    case MarkDown(p) => At(s, p, Failed)
    case Start(p, q) => At(s, p, Won) && q !in s.procs
    case Stop(q) => At(s, q, Probing) && s.closed
    case Timer(q) => At(s, q, Probing)
    case PingErr(q) => At(s, q, Pinging)
    case PingOk(q) => At(s, q, Pinging)
    case Clear(q) => At(s, q, Healthy)
    case Revive(q) => At(s, q, Cleared)
    case Close => true
  }

  function Goto(s: State, p: Pid, pc: Pc): State {
    s.(procs := s.procs[p := pc])
  }

  function Exit(s: State, p: Pid): State {
    s.(procs := s.procs - {p})
  }

  function Apply(s: State, a: Action): State
    requires Enabled(s, a)
  {
    match a
    case Call(p) => if s.alive then Goto(s, p, Loaded) else s
    case TakeOk(p) => Exit(s, p)
    case TakeErr(p) => Goto(s, p, Failed)
    case MarkDown(p) => if s.alive then Goto(s, p, Won).(alive := false) else Exit(s, p)
    case Start(p, q) =>
      if s.monitorStarted then Exit(s, p) else Goto(Exit(s, p), q, Probing).(monitorStarted := true)
    case Stop(q) => Exit(s, q)
    case Timer(q) => Goto(s, q, Pinging)
    case PingErr(q) => Goto(s, q, Probing)
    case PingOk(q) => Goto(s, q, Healthy)
    case Clear(q) => Goto(s, q, Cleared).(monitorStarted := false)
    case Revive(q) => Exit(s, q).(alive := true)
    case Close => s.(closed := true)
  }

  // ---------------------------------------------------------------- what every step keeps

  /** A recovery agent: a caller that has yet to start the monitor, or a monitor that has yet to revive the limiter. */
  predicate Agent(pc: Pc) {
    pc.Won? || Monitor(pc)
  }

  predicate Monitor(pc: Pc) {
    pc.Probing? || pc.Pinging? || pc.Healthy? || pc.Cleared?
  }

  /** A monitor that the flag still stands for. */
  predicate Flagged(pc: Pc) {
    pc.Probing? || pc.Pinging? || pc.Healthy?
  }

  /** While open, the limiter is down exactly while there is one agent, and flagged exactly while that agent is
      a monitor that has not cleared the flag.  Closing may take that agent away, and nothing else. */
  ghost predicate Inv(s: State) {
    && Count(s.procs, Agent) <= One(!s.alive)
    && Count(s.procs, Flagged) <= One(s.monitorStarted)
    && (!s.closed ==> Count(s.procs, Agent) == One(!s.alive) && Count(s.procs, Flagged) == One(s.monitorStarted))
    && (Count(s.procs, Agent) > 0 ==> Count(s.procs, Flagged) == One(s.monitorStarted))
    && (s.monitorStarted ==> !s.alive)
  }

  function Mover(a: Action): Pid {
    match a
    case Close => 0
    case Call(p) => p
    case TakeOk(p) => p
    case TakeErr(p) => p
    case MarkDown(p) => p
    case Start(p, _) => p
    case _ => a.q
  }

  function Partner(a: Action): Pid {
    if a.Start? then a.q else Mover(a)
  }

  lemma CountStep(s: State, a: Action, f: Pc -> bool)
    requires Enabled(s, a)
    ensures var procs, procs', p, q := s.procs, Apply(s, a).procs, Mover(a), Partner(a);
            Count(procs', f) + Weight(procs, p, q, f) == Count(procs, f) + Weight(procs', p, q, f)
  {
    assert s.procs - {Mover(a)} - {Partner(a)} == Apply(s, a).procs - {Mover(a)} - {Partner(a)};
    CountMoves(s.procs, Apply(s, a).procs, Mover(a), Partner(a), f);
  }

  lemma StepKeepsInv(s: State, a: Action)
    requires Inv(s) && Enabled(s, a)
    ensures Inv(Apply(s, a))
  {
    CountStep(s, a, Agent);
    CountStep(s, a, Flagged);
    FlaggedIsAgent(s.procs);
    Present(s.procs, Agent);
    Present(s.procs, Flagged);
    if a.Start? {
      WinnerStartsMonitor(s, a.p);
    }
  }

  lemma FlaggedIsAgent(procs: map<Pid, Pc>)
    ensures Count(procs, Flagged) <= Count(procs, Agent)
  {
    CardinalityOrder(Those(procs, Flagged), Those(procs, Agent));
  }

  /** Whoever wins the swap never finds a monitor already started, so its monitor is always spawned. */
  lemma WinnerStartsMonitor(s: State, p: Pid)
    requires Inv(s) && At(s, p, Won)
    ensures !s.monitorStarted && Count(s.procs, Monitor) == 0
  {
    Present(s.procs, Agent);
    Present(s.procs, Flagged);
    Present(s.procs, Monitor);
    if q :| q in s.procs && Monitor(s.procs[q]) {
      AtMostOne(s.procs, Agent, p, q);
    }
    if q :| q in s.procs && Flagged(s.procs[q]) {
      AtMostOne(s.procs, Agent, p, q);
    }
  }

  // ---------------------------------------------------------------- every run

  ghost predicate Runs(s: State, actions: seq<Action>)
    decreases |actions|
  {
    actions == [] || (Enabled(s, actions[0]) && Runs(Apply(s, actions[0]), actions[1..]))
  }

  function After(s: State, actions: seq<Action>): State
    requires Runs(s, actions)
    decreases |actions|
  {
    if actions == [] then s else After(Apply(s, actions[0]), actions[1..])
  }

  lemma {:induction false} RunsKeepInv(s: State, actions: seq<Action>)
    requires Inv(s) && Runs(s, actions)
    ensures Inv(After(s, actions))
    decreases |actions|
  {
    if actions != [] {
      StepKeepsInv(s, actions[0]);
      RunsKeepInv(Apply(s, actions[0]), actions[1..]);
    }
  }

  /** In every reachable state there are never two monitors; and until Close the limiter is down exactly
      while exactly one agent is there to bring it back. */
  lemma DownIffOneAgent(actions: seq<Action>)
    requires Runs(INIT, actions)
    ensures var s := After(INIT, actions);
            && (forall p, q | p in s.procs && q in s.procs && Agent(s.procs[p]) && Agent(s.procs[q]) :: p == q)
            && (!s.closed ==> (!s.alive <==> exists p :: p in s.procs && Agent(s.procs[p])))
            && (s.alive ==> !exists p :: p in s.procs && Agent(s.procs[p]))
  {
    assert Those(INIT.procs, Agent) == Those(INIT.procs, Flagged) == {};
    RunsKeepInv(INIT, actions);
    var s := After(INIT, actions);
    Present(s.procs, Agent);
    forall p, q | p in s.procs && q in s.procs && Agent(s.procs[p]) && Agent(s.procs[q])
      ensures p == q
    {
      AtMostOne(s.procs, Agent, p, q);
    }
  }

  // ---------------------------------------------------------------- after Close

  /** Degraded, with nobody left to bring the limiter back. */
  ghost predicate Stranded(s: State) {
    !s.alive && !exists p :: p in s.procs && Agent(s.procs[p])
  }

  lemma StrandedStep(s: State, a: Action)
    requires Inv(s) && Enabled(s, a)
    ensures Stranded(Apply(s, a)) <==> Stranded(s) || a.Stop?
  {
    CountStep(s, a, Agent);
    Present(s.procs, Agent);
    Present(Apply(s, a).procs, Agent);
    if a.Start? {
      WinnerStartsMonitor(s, a.p);
    }
  }

  lemma {:induction false} StrandedFrom(s: State, actions: seq<Action>)
    requires Inv(s) && Runs(s, actions)
    ensures Stranded(After(s, actions)) <==> Stranded(s) || exists a :: a in actions && a.Stop?
    decreases |actions|
  {
    if actions != [] {
      var rest := actions[1..];
      StrandedStep(s, actions[0]);
      StepKeepsInv(s, actions[0]);
      StrandedFrom(Apply(s, actions[0]), rest);
      assert forall a :: a in actions <==> a == actions[0] || a in rest;
    }
  }

  /** Over every run: the limiter is degraded with nobody probing if and only if some monitor has stopped because
      it saw the limiter closed. */
  lemma StrandedIffStopped(actions: seq<Action>)
    requires Runs(INIT, actions)
    ensures Stranded(After(INIT, actions)) <==> exists a :: a in actions && a.Stop?
  {
    assert Those(INIT.procs, Agent) == Those(INIT.procs, Flagged) == {};
    StrandedFrom(INIT, actions);
  }

  /** It happens: the store fails one call, and the limiter is closed before the monitor has probed. */
  lemma CloseCanStrand() returns (actions: seq<Action>)
    ensures Runs(INIT, actions) && Stranded(After(INIT, actions))
  {
    var s1 := Apply(INIT, Call(0));
    var s2 := Apply(s1, TakeErr(0));
    var s3 := Apply(s2, MarkDown(0));
    var s4 := Apply(s3, Start(0, 1));
    var s5 := Apply(s4, Close);
    assert Runs(Apply(s5, Stop(1)), []);
    actions := Prepend(s5, Stop(1), []);
    actions := Prepend(s4, Close, actions);
    actions := Prepend(s3, Start(0, 1), actions);
    actions := Prepend(s2, MarkDown(0), actions);
    actions := Prepend(s1, TakeErr(0), actions);
    actions := Prepend(INIT, Call(0), actions);
  }

  lemma Prepend(s: State, a: Action, rest: seq<Action>) returns (actions: seq<Action>)
    requires Enabled(s, a) && Runs(Apply(s, a), rest)
    ensures Runs(s, actions) && After(s, actions) == After(Apply(s, a), rest)
  {
    actions := [a] + rest;
  }

  // ---------------------------------------------------------------- recovery

  /** A step of the monitor `q`, or of the caller `p` that starts it. */
  predicate StepOf(a: Action, p: Pid, q: Pid) {
    a == Start(p, q) || a == Timer(q) || a == PingOk(q) || a == Clear(q) || a == Revive(q)
  }

  /** From every reachable state that is down and open there is a recovery agent `p` whose steps alone, with those
      of the monitor it starts if it has yet to start one, bring the limiter back. */
  lemma RecoveryIsPossible(actions: seq<Action>, q: Pid) returns (p: Pid, more: seq<Action>)
    requires Runs(INIT, actions) && !After(INIT, actions).closed && !After(INIT, actions).alive
    requires q !in After(INIT, actions).procs
    ensures var s := After(INIT, actions);
            && p in s.procs && Agent(s.procs[p])
            && Runs(s, more) && After(s, more).alive
            && (forall a | a in more :: StepOf(a, p, if s.procs[p].Won? then q else p))
  {
    DownIffOneAgent(actions);
    assert Those(INIT.procs, Agent) == Those(INIT.procs, Flagged) == {};
    RunsKeepInv(INIT, actions);
    var s := After(INIT, actions);
    p :| p in s.procs && Agent(s.procs[p]);
    if s.procs[p] == Won {
      WinnerStartsMonitor(s, p);
      more := MonitorRevives(Apply(s, Start(p, q)), q, p);
      more := [Start(p, q)] + more;
    } else {
      more := MonitorRevives(s, p, p);
    }
  }

  lemma MonitorRevives(s: State, q: Pid, p: Pid) returns (more: seq<Action>)
    requires q in s.procs && Monitor(s.procs[q])
    ensures Runs(s, more) && After(s, more).alive && forall a | a in more :: StepOf(a, p, q)
    decreases if s.procs[q].Probing? then 3 else if s.procs[q].Pinging? then 2 else if s.procs[q].Healthy? then 1 else 0
  {
    if s.procs[q] == Cleared {
      more := [Revive(q)];
      assert Runs(Apply(s, Revive(q)), []);
    } else {
      var a := if s.procs[q] == Probing then Timer(q) else if s.procs[q] == Pinging then PingOk(q) else Clear(q);
      more := MonitorRevives(Apply(s, a), q, p);
      more := [a] + more;
    }
  }
}
