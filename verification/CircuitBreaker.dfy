/** The closed/open/half-open breaker on consecutive failures, with overlapping requests. */
module CircuitBreakers {
  const THRESHOLD := 5
  const DEFAULT_TIMEOUT := 30_000_000_000

  datatype Mode = Closed | Open | HalfOpen

  datatype Breaker = Breaker(mode: Mode, maxRequests: int, timeout: int, failures: int, halfOpenRequests: int, openedAt: int)

  function New(maxRequests: int, timeout: int): Breaker {
    Breaker(Closed, if maxRequests <= 0 then 1 else maxRequests, if timeout <= 0 then DEFAULT_TIMEOUT else timeout, 0, 0, 0)
  }

  /** A request arrives, or the completion of some earlier request does. */
  datatype Event = Arrive(now: int) | Complete(now: int, failed: bool)

  /** beforeRequest: the new state and whether the request is admitted. */
  function Before(b: Breaker, now: int): (Breaker, bool) {
    match b.mode
    case Closed => (b, true)
    case Open => if now - b.openedAt >= b.timeout then (b.(mode := HalfOpen, halfOpenRequests := 0), true) else (b, false)
    case HalfOpen => if b.halfOpenRequests >= b.maxRequests then (b, false) else (b.(halfOpenRequests := b.halfOpenRequests + 1), true)
  }

  /** afterRequest. */
  function After(b: Breaker, now: int, failed: bool): Breaker {
    match b.mode
    case Closed =>
      if !failed then b.(failures := 0)
      else if b.failures + 1 >= THRESHOLD then b.(failures := b.failures + 1, mode := Open, openedAt := now)
      else b.(failures := b.failures + 1)
    case Open => b
    case HalfOpen =>
      if failed then b.(mode := Open, openedAt := now, failures := THRESHOLD)
      else b.(mode := Closed, failures := 0, halfOpenRequests := 0)
  }

  function Step(b: Breaker, ev: Event): Breaker {
    if ev.Arrive? then Before(b, ev.now).0 else After(b, ev.now, ev.failed)
  }

  function Run(b: Breaker, events: seq<Event>): Breaker {
    if events == [] then b else Step(Run(b, events[..|events| - 1]), events[|events| - 1])
  }

  predicate Admits(b: Breaker, ev: Event) {
    ev.Arrive? && Before(b, ev.now).1
  }

  /** How many requests of a run are admitted. */
  function Admitted(b: Breaker, events: seq<Event>): nat {
    if events == [] then 0 else
      var before := events[..|events| - 1];
      Admitted(b, before) + if Admits(Run(b, before), events[|events| - 1]) then 1 else 0
  }

  // ---------------------------------------------------------------- every run

  predicate Inv(b: Breaker) {
    && 0 < b.maxRequests && 0 < b.timeout
    && 0 <= b.halfOpenRequests <= b.maxRequests
    && (if b.mode.Closed? then 0 <= b.failures < 5 else b.failures == 5)
  }

  /** In every run, in whatever order arrivals and completions interleave: Closed means fewer than five
      failures in a row, Open and HalfOpen exactly five, and the half-open count stays within its limit. */
  lemma {:induction false} RunKeepsInv(b: Breaker, events: seq<Event>)
    requires Inv(b)
    ensures Inv(Run(b, events))
    ensures Run(b, events).maxRequests == b.maxRequests && Run(b, events).timeout == b.timeout
  {
    if events != [] {
      RunKeepsInv(b, events[..|events| - 1]);
    }
  }

  /** The failed completions at the end of a run, arrivals disregarded. */
  function Streak(events: seq<Event>): nat {
    if events == [] then 0 else
      var last := events[|events| - 1];
      if last.Arrive? then Streak(events[..|events| - 1])
      else if last.failed then Streak(events[..|events| - 1]) + 1
      else 0
  }

  /** From a newly closed breaker, it stays closed and admits everything as long as no five completions in a row
      have failed, and it opens on the very completion that makes five. */
  lemma {:induction false} OpensOnFifthFailure(b: Breaker, events: seq<Event>)
    requires Inv(b) && b.mode.Closed? && b.failures == 0
    requires forall j | 0 <= j < |events| :: Streak(events[..j]) < 5
    ensures var b' := Run(b, events);
            if Streak(events) < 5 then b' == b.(failures := Streak(events))
            else events != [] && b' == b.(mode := Open, failures := 5, openedAt := events[|events| - 1].now)
    ensures forall j | 0 <= j < |events| && events[j].Arrive? :: Admits(Run(b, events[..j]), events[j])
  {
    if events != [] {
      var before := events[..|events| - 1];
      assert forall j | 0 <= j <= |before| :: before[..j] == events[..j];
      OpensOnFifthFailure(b, before);
    }
  }

  /** The failed completions at the end of a run, counted from when the breaker last closed. */
  function FailedSinceClosed(b: Breaker, events: seq<Event>): nat {
    if events == [] then 0 else
      var before, ev := events[..|events| - 1], events[|events| - 1];
      if !Run(b, before).mode.Closed? then 0
      else if ev.Arrive? then FailedSinceClosed(b, before)
      else if ev.failed then FailedSinceClosed(b, before) + 1
      else 0
  }

  /** In any run of a new breaker, however often it has opened and closed: while closed it admits everything, and it
      leaves the closed state exactly on the completion that makes five failures in a row since it last closed. */
  lemma {:induction false} OpensExactlyOnFifth(maxRequests: int, timeout: int, events: seq<Event>)
    ensures var b := New(maxRequests, timeout);
            var b' := Run(b, events);
            && (b'.mode.Closed? ==> b'.failures == FailedSinceClosed(b, events) && forall now :: Before(b', now) == (b', true))
            && (events != [] && Run(b, events[..|events| - 1]).mode.Closed? ==>
                  && FailedSinceClosed(b, events) <= 5
                  && b'.mode == if FailedSinceClosed(b, events) == 5 then Open else Closed)
  {
    var b := New(maxRequests, timeout);
    if events != [] {
      OpensExactlyOnFifth(maxRequests, timeout, events[..|events| - 1]);
      RunKeepsInv(b, events[..|events| - 1]);
    }
  }

  /** An open breaker admits nothing, and does not change, until a request arrives after its timeout; completions of
      earlier requests never change it. */
  lemma {:induction false} OpenRejectsUntilTimeout(b: Breaker, events: seq<Event>)
    requires b.mode.Open? && forall ev | ev in events && ev.Arrive? :: ev.now - b.openedAt < b.timeout
    ensures Run(b, events) == b && Admitted(b, events) == 0
  {
    if events != [] {
      OpenRejectsUntilTimeout(b, events[..|events| - 1]);
    }
  }

  /** The admissions of a run since it last turned half-open, that arrival included. */
  function ProbesAdmitted(b: Breaker, events: seq<Event>): nat {
    if events == [] then 0 else
      var before := events[..|events| - 1];
      var b0, ev := Run(b, before), events[|events| - 1];
      if b0.mode.Open? && Admits(b0, ev) then 1
      else ProbesAdmitted(b, before) + if Admits(b0, ev) then 1 else 0
  }

  /** In every run, a half-open episode has admitted exactly one request more than it has counted, because the
      arrival that turns the breaker half-open is not counted; so never more than maxRequests + 1. */
  lemma {:induction false} OneProbeIsNotCounted(b: Breaker, events: seq<Event>)
    requires Inv(b) && !b.mode.HalfOpen?
    ensures var b' := Run(b, events);
            b'.mode.HalfOpen? ==>
              && ProbesAdmitted(b, events) == b'.halfOpenRequests + 1 <= b.maxRequests + 1
              && (b'.halfOpenRequests < b.maxRequests ==> forall now :: Before(b', now).1)
  {
    RunKeepsInv(b, events);
    if events != [] {
      OneProbeIsNotCounted(b, events[..|events| - 1]);
    }
  }

  /** The bound is met: after any run that leaves the breaker open, maxRequests + 1 late enough arrivals are all
      admitted, and the next one is not. */
  lemma {:induction false} ProbeBoundIsMet(b: Breaker, times: seq<int>)
    requires Inv(b) && b.mode.Open? && |times| > 0 && times[0] - b.openedAt >= b.timeout
    ensures var events := seq(|times|, i requires 0 <= i < |times| => Arrive(times[i]));
            && Admitted(b, events) == (if |times| <= b.maxRequests then |times| else b.maxRequests + 1)
            && Run(b, events) == b.(mode := HalfOpen, halfOpenRequests := if |times| <= b.maxRequests then |times| - 1 else b.maxRequests)
  {
    var events := seq(|times|, i requires 0 <= i < |times| => Arrive(times[i]));
    var n := |times| - 1;
    if n == 0 {
      assert Run(b, events[..0]) == b && Admitted(b, events[..0]) == 0;
    } else {
      ProbeBoundIsMet(b, times[..n]);
      assert events[..n] == seq(n, i requires 0 <= i < n => Arrive(times[..n][i]));
    }
  }

  /** However many arrivals come first, the first completion while half-open decides, whichever request it
      belongs to: a failure opens the breaker from then on, a success closes it with a clean record. */
  lemma {:induction false} FirstCompletionDecides(b: Breaker, arrivals: seq<Event>, now: int, failed: bool)
    requires Inv(b) && b.mode.HalfOpen? && forall ev | ev in arrivals :: ev.Arrive?
    ensures Run(b, arrivals).mode.HalfOpen?
    ensures var b' := Run(b, arrivals + [Complete(now, failed)]);
            if failed then b'.mode.Open? && b'.openedAt == now else b'.mode.Closed? && b'.failures == 0 && b'.halfOpenRequests == 0
  {
    assert (arrivals + [Complete(now, failed)])[..|arrivals|] == arrivals;
    if arrivals != [] {
      FirstCompletionDecides(b, arrivals[..|arrivals| - 1], now, failed);
    }
  }

  // ---------------------------------------------------------------- the breaker object

  class CircuitBreaker {
    const maxRequests: int
    const timeout: int
    var mode: Mode
    var failures: int
    var halfOpenRequests: int
    var openedAt: int

    ghost function View(): Breaker
      reads this
    {
      Breaker(mode, maxRequests, timeout, failures, halfOpenRequests, openedAt)
    }

    constructor (maxRequests: int, timeout: int)
      ensures View() == New(maxRequests, timeout) && Inv(View())
      ensures View() == Breaker(Closed, if maxRequests > 0 then maxRequests else 1, if timeout > 0 then timeout else 30_000_000_000, 0, 0, 0)
    {
      this.maxRequests := if maxRequests <= 0 then 1 else maxRequests;
      this.timeout := if timeout <= 0 then DEFAULT_TIMEOUT else timeout;
      mode, failures, halfOpenRequests, openedAt := Closed, 0, 0, 0;
    }

    method BeforeRequest(now: int) returns (ok: bool)
      modifies this
      ensures (View(), ok) == Before(old(View()), now)
    {
      match mode {
        case Closed =>
        case Open =>
          if now - openedAt >= timeout {
            mode, halfOpenRequests := HalfOpen, 0;
          } else {
            return false;
          }
        case HalfOpen =>
          if halfOpenRequests >= maxRequests {
            return false;
          }
          halfOpenRequests := halfOpenRequests + 1;
      }
      return true;
    }

    method AfterRequest(now: int, failed: bool)
      modifies this
      ensures View() == After(old(View()), now, failed)
    {
      match mode
      case Closed =>
        if failed {
          failures := failures + 1;
          if failures >= THRESHOLD {
            mode, openedAt := Open, now;
          }
        } else {
          failures := 0;
        }
      case Open =>
      case HalfOpen =>
        if failed {
          mode, openedAt, failures := Open, now, THRESHOLD;
        } else {
          mode, failures, halfOpenRequests := Closed, 0, 0;
        }
    }
  }
}
