/** Token bucket and leaky bucket limiters: what they grant over whole runs. */
module TokenBuckets {
  datatype Bucket = Bucket(rate: real, burst: real, tokens: real, last: real)

  datatype Request = Request(at: real, n: real)

  function Fresh(rate: real, burst: real, now: real): Bucket {
    Bucket(rate, burst, burst, now)
  }

  function Refill(b: Bucket, now: real): Bucket {
    var tokens := b.tokens + (now - b.last) * b.rate;
    b.(tokens := if tokens > b.burst then b.burst else tokens, last := now)
  }

  function Take(b: Bucket, req: Request): (Bucket, bool) {
    var r := Refill(b, req.at);
    if r.tokens < req.n then (r, false) else (r.(tokens := r.tokens - req.n), true)
  }

  /** The bucket after a run of requests. */
  function After(b: Bucket, reqs: seq<Request>): Bucket {
    if reqs == [] then b else Take(After(b, reqs[..|reqs| - 1]), reqs[|reqs| - 1]).0
  }

  /** Whether request `j` of a run is granted. */
  predicate Granted(b: Bucket, reqs: seq<Request>, j: nat)
    requires j < |reqs|
  {
    Take(After(b, reqs[..j]), reqs[j]).1
  }

  /** The tokens there are to decide request `j` with. */
  function Level(b: Bucket, reqs: seq<Request>, j: nat): real
    requires j < |reqs|
  {
    Refill(After(b, reqs[..j]), reqs[j].at).tokens
  }

  function Grant(b: Bucket, reqs: seq<Request>, j: nat): real
    requires j < |reqs|
  {
    if Granted(b, reqs, j) then reqs[j].n else 0.0
  }

  /** The tokens granted to the requests i, ..., j - 1 of a run. */
  function Spent(b: Bucket, reqs: seq<Request>, i: nat, j: nat): real
    requires i <= j <= |reqs|
    decreases j - i
  {
    if i == j then 0.0 else Spent(b, reqs, i, j - 1) + Grant(b, reqs, j - 1)
  }

  /** The clock never goes back. */
  ghost predicate InOrder(b: Bucket, reqs: seq<Request>) {
    && (forall i | 0 <= i < |reqs| :: b.last <= reqs[i].at)
    && (forall i, j | 0 <= i < j < |reqs| :: reqs[i].at <= reqs[j].at)
  }

  lemma Growth(dt: real, rate: real)
    requires 0.0 <= dt && 0.0 <= rate
    ensures dt * rate >= 0.0
  {
  }

  lemma {:induction false} AfterKeeps(b: Bucket, reqs: seq<Request>)
    ensures After(b, reqs).rate == b.rate && After(b, reqs).burst == b.burst
    ensures After(b, reqs).last == if reqs == [] then b.last else reqs[|reqs| - 1].at
  {
    if reqs != [] {
      AfterKeeps(b, reqs[..|reqs| - 1]);
    }
  }

  lemma RefillInRange(b: Bucket, now: real)
    requires 0.0 <= b.tokens <= b.burst && 0.0 <= b.rate && b.last <= now
    ensures 0.0 <= Refill(b, now).tokens <= b.burst
  {
    var earned := (now - b.last) * b.rate;
    Growth(now - b.last, b.rate);
    assert b.tokens + earned >= 0.0;
  }

  lemma TakeInRange(b: Bucket, req: Request)
    requires 0.0 <= b.tokens <= b.burst && 0.0 <= b.rate && b.last <= req.at && 0.0 <= req.n
    ensures 0.0 <= Refill(b, req.at).tokens <= b.burst
    ensures 0.0 <= Take(b, req).0.tokens <= b.burst
  {
    RefillInRange(b, req.at);
  }

  lemma {:induction false} TokensInRange(b: Bucket, reqs: seq<Request>)
    requires 0.0 <= b.tokens <= b.burst && 0.0 <= b.rate && InOrder(b, reqs)
    requires forall l | 0 <= l < |reqs| :: reqs[l].n >= 0.0
    ensures 0.0 <= After(b, reqs).tokens <= b.burst
  {
    if reqs != [] {
      var before := reqs[..|reqs| - 1];
      TokensInRange(b, before);
      AfterKeeps(b, before);
      TakeInRange(After(b, before), reqs[|reqs| - 1]);
    }
  }

  /** What time adds between request j - 1 and request j. */
  function Earned(b: Bucket, reqs: seq<Request>, j: nat): real
    requires j < |reqs|
  {
    if j == 0 then 0.0 else (reqs[j].at - reqs[j - 1].at) * b.rate
  }

  /** A level that is capped in every step after spending and earning. */
  ghost predicate CappedLevels(burst: real, levels: seq<real>, spent: seq<real>, earned: seq<real>) {
    && |levels| == |spent| == |earned|
    && (|levels| > 0 ==> levels[0] == burst)
    && forall j | 0 < j < |levels| ::
         var grown := levels[j - 1] - spent[j - 1] + earned[j];
         levels[j] == if grown > burst then burst else grown
  }

  /** The same without the cap, from a full bucket in step `i` on. */
  ghost function Uncapped(burst: real, spent: seq<real>, earned: seq<real>, i: nat, j: nat): real
    requires i <= j < |spent| == |earned|
    decreases j - i
  {
    if i == j then burst else Uncapped(burst, spent, earned, i, j - 1) - spent[j - 1] + earned[j]
  }

  /** Capping in every step is taking the least of all the uncapped levels. */
  lemma {:induction false} CappedIsLeast(burst: real, levels: seq<real>, spent: seq<real>, earned: seq<real>, j: nat)
    returns (i: nat)
    requires CappedLevels(burst, levels, spent, earned) && j < |levels|
    ensures i <= j && levels[j] == Uncapped(burst, spent, earned, i, j)
    ensures forall i' | 0 <= i' <= j :: levels[j] <= Uncapped(burst, spent, earned, i', j)
  {
    if j == 0 {
      i := 0;
    } else {
      i := CappedIsLeast(burst, levels, spent, earned, j - 1);
      if levels[j] == burst {
        i := j;
      }
    }
  }

  ghost function Levels(b: Bucket, reqs: seq<Request>): seq<real> {
    seq(|reqs|, j requires 0 <= j < |reqs| => Level(b, reqs, j))
  }

  ghost function Grants(b: Bucket, reqs: seq<Request>): seq<real> {
    seq(|reqs|, j requires 0 <= j < |reqs| => Grant(b, reqs, j))
  }

  ghost function Earnings(b: Bucket, reqs: seq<Request>): seq<real> {
    seq(|reqs|, j requires 0 <= j < |reqs| => Earned(b, reqs, j))
  }

  /** What is left for request `j` when the law "at most burst + rate * elapsed" is applied from request `i` on. */
  ghost function Budget(b: Bucket, reqs: seq<Request>, i: nat, j: nat): real
    requires i <= j < |reqs|
  {
    Uncapped(b.burst, Grants(b, reqs), Earnings(b, reqs), i, j)
  }

  lemma BudgetStep(b: Bucket, reqs: seq<Request>, i: nat, j: nat)
    requires i < j < |reqs|
    ensures Budget(b, reqs, i, j) == Budget(b, reqs, i, j - 1) - Grant(b, reqs, j - 1) + Earned(b, reqs, j)
  {
  }

  /** What time adds between request i and request j. */
  function EarnedSince(b: Bucket, reqs: seq<Request>, i: nat, j: nat): real
    requires i <= j < |reqs|
    decreases j - i
  {
    if i == j then 0.0 else EarnedSince(b, reqs, i, j - 1) + Earned(b, reqs, j)
  }

  lemma {:induction false} EarnedIsRateTimesElapsed(b: Bucket, reqs: seq<Request>, i: nat, j: nat)
    requires i <= j < |reqs|
    ensures EarnedSince(b, reqs, i, j) == (reqs[j].at - reqs[i].at) * b.rate
    decreases j - i
  {
    if i < j {
      EarnedIsRateTimesElapsed(b, reqs, i, j - 1);
      Stretch(reqs[i].at, reqs[j - 1].at, reqs[j].at, b.rate);
    }
  }

  lemma {:induction false} BudgetAddsUp(b: Bucket, reqs: seq<Request>, i: nat, j: nat)
    requires i <= j < |reqs|
    ensures Budget(b, reqs, i, j) == b.burst + EarnedSince(b, reqs, i, j) - Spent(b, reqs, i, j)
    decreases j - i
  {
    if i < j {
      BudgetAddsUp(b, reqs, i, j - 1);
      BudgetStep(b, reqs, i, j);
    }
  }

  lemma BudgetIsLaw(b: Bucket, reqs: seq<Request>, i: nat, j: nat)
    requires i <= j < |reqs|
    ensures Budget(b, reqs, i, j) == b.burst + (reqs[j].at - reqs[i].at) * b.rate - Spent(b, reqs, i, j)
  {
    BudgetAddsUp(b, reqs, i, j);
    EarnedIsRateTimesElapsed(b, reqs, i, j);
  }

  lemma Stretch(t0: real, t1: real, t2: real, rate: real)
    ensures (t1 - t0) * rate + (t2 - t1) * rate == (t2 - t0) * rate
  {
  }

  /** One refill step in terms of the previous level. */
  lemma NextLevel(b: Bucket, reqs: seq<Request>, j: nat)
    requires 0 < j < |reqs|
    ensures var grown := Level(b, reqs, j - 1) - Grant(b, reqs, j - 1) + Earned(b, reqs, j);
            Level(b, reqs, j) == if grown > b.burst then b.burst else grown
  {
    assert reqs[..j][..j - 1] == reqs[..j - 1];
    AfterKeeps(b, reqs[..j - 1]);
    AfterKeeps(b, reqs[..j]);
  }

  lemma FirstLevel(b: Bucket, reqs: seq<Request>)
    requires |reqs| > 0 && b.tokens == b.burst && 0.0 <= b.rate && b.last <= reqs[0].at
    ensures Level(b, reqs, 0) == b.burst
  {
    Growth(reqs[0].at - b.last, b.rate);
    assert reqs[..0] == [];
  }

  /** The token level is the least of all the budgets. */
  lemma LevelIsLeastBudget(b: Bucket, reqs: seq<Request>, j: nat) returns (i: nat)
    requires j < |reqs| && b.tokens == b.burst && 0.0 <= b.rate && b.last <= reqs[0].at
    ensures i <= j && Level(b, reqs, j) == Budget(b, reqs, i, j)
    ensures forall i' | 0 <= i' <= j :: Level(b, reqs, j) <= Budget(b, reqs, i', j)
  {
    var levels, spent, earned := Levels(b, reqs), Grants(b, reqs), Earnings(b, reqs);
    FirstLevel(b, reqs);
    forall l | 0 < l < |reqs|
      ensures var grown := levels[l - 1] - spent[l - 1] + earned[l]; levels[l] == if grown > b.burst then b.burst else grown
    {
      NextLevel(b, reqs, l);
    }
    i := CappedIsLeast(b.burst, levels, spent, earned, j);
  }

  /** A request is granted exactly when, counting from every earlier request, the grants and it
      together stay within burst + rate * elapsed: nothing more is let through, and nothing less. */
  lemma GrantedIffWithinEveryLaw(b: Bucket, reqs: seq<Request>, j: nat)
    requires j < |reqs| && b.tokens == b.burst && 0.0 <= b.rate && b.last <= reqs[0].at
    ensures Granted(b, reqs, j) <==>
            forall i | 0 <= i <= j :: Spent(b, reqs, i, j) + reqs[j].n <= b.burst + (reqs[j].at - reqs[i].at) * b.rate
  {
    var least := LevelIsLeastBudget(b, reqs, j);
    forall i | 0 <= i <= j
      ensures Budget(b, reqs, i, j) == b.burst + (reqs[j].at - reqs[i].at) * b.rate - Spent(b, reqs, i, j)
    {
      BudgetIsLaw(b, reqs, i, j);
    }
    assert Granted(b, reqs, j) <==> reqs[j].n <= Budget(b, reqs, least, j);
  }

  /** In any stretch of a run the grants stay within burst + rate * elapsed, and the level within [0, burst]. */
  lemma GrantsAreBounded(b: Bucket, reqs: seq<Request>, i: nat, j: nat)
    requires i <= j < |reqs| && 0.0 <= b.burst == b.tokens && 0.0 <= b.rate && InOrder(b, reqs)
    requires forall l | 0 <= l < |reqs| :: reqs[l].n >= 0.0
    ensures Spent(b, reqs, i, j + 1) <= b.burst + (reqs[j].at - reqs[i].at) * b.rate
    ensures 0.0 <= Level(b, reqs, j) <= b.burst
  {
    var _ := LevelIsLeastBudget(b, reqs, j);
    BudgetIsLaw(b, reqs, i, j);
    TokensInRange(b, reqs[..j]);
    TokensInRange(b, reqs[..j + 1]);
    AfterKeeps(b, reqs[..j]);
    assert reqs[..j + 1][..j] == reqs[..j];
    assert Level(b, reqs, j) <= Budget(b, reqs, i, j);
  }

  // ---------------------------------------------------------------- the law on answers

  /** The tokens given to the requests i, ..., j - 1, by their answers. */
  function Given(reqs: seq<Request>, answers: seq<bool>, i: nat, j: nat): real
    requires i <= j <= |reqs| == |answers|
    decreases j - i
  {
    if i == j then 0.0 else Given(reqs, answers, i, j - 1) + if answers[j - 1] then reqs[j - 1].n else 0.0
  }

  /** Each request is granted if and only if, from every earlier request on, what was given and it stay within
      burst + rate * elapsed. */
  ghost predicate Lawful(rate: real, burst: real, reqs: seq<Request>, answers: seq<bool>) {
    && |answers| == |reqs|
    && forall j | 0 <= j < |reqs| ::
         answers[j] <==> forall i | 0 <= i <= j :: Given(reqs, answers, i, j) + reqs[j].n <= burst + (reqs[j].at - reqs[i].at) * rate
  }

  lemma {:induction false} GivenIsSpent(b: Bucket, reqs: seq<Request>, answers: seq<bool>, i: nat, j: nat)
    requires i <= j <= |reqs| == |answers| && forall l | 0 <= l < |reqs| :: answers[l] == Granted(b, reqs, l)
    ensures Given(reqs, answers, i, j) == Spent(b, reqs, i, j)
    decreases j - i
  {
    if i < j {
      GivenIsSpent(b, reqs, answers, i, j - 1);
    }
  }

  lemma GrantsAreLawful(b: Bucket, reqs: seq<Request>, answers: seq<bool>)
    requires |answers| == |reqs| && forall l | 0 <= l < |reqs| :: answers[l] == Granted(b, reqs, l)
    requires b.tokens == b.burst && 0.0 <= b.rate && (reqs != [] ==> b.last <= reqs[0].at)
    ensures Lawful(b.rate, b.burst, reqs, answers)
  {
    forall j | 0 <= j < |reqs|
      ensures answers[j] <==> forall i | 0 <= i <= j :: Given(reqs, answers, i, j) + reqs[j].n <= b.burst + (reqs[j].at - reqs[i].at) * b.rate
    {
      GrantedIffWithinEveryLaw(b, reqs, j);
      forall i | 0 <= i <= j
        ensures Given(reqs, answers, i, j) == Spent(b, reqs, i, j)
      {
        GivenIsSpent(b, reqs, answers, i, j);
      }
    }
  }

  /** A new bucket's answers to any sequence of requests are the lawful ones. */
  method ServeAll(rate: real, burst: int, now: real, reqs: seq<Request>) returns (answers: seq<bool>)
    requires 0.0 <= rate && (reqs != [] ==> now <= reqs[0].at)
    ensures Lawful(rate, burst as real, reqs, answers)
  {
    var bucket := new TokenBucket(rate, burst, now);
    ghost var b := bucket.View();
    answers := [];
    for j := 0 to |reqs|
      invariant |answers| == j && bucket.View() == After(b, reqs[..j])
      invariant forall l | 0 <= l < j :: answers[l] == Granted(b, reqs, l)
    {
      assert reqs[..j + 1][..j] == reqs[..j];
      var ok := bucket.AllowN(reqs[j].at, reqs[j].n);
      answers := answers + [ok];
    }
    GrantsAreLawful(b, reqs, answers);
  }

  class TokenBucket {
    const rate: real
    const burst: real
    var tokens: real
    var last: real

    ghost function View(): Bucket
      reads this
    {
      Bucket(rate, burst, tokens, last)
    }

    constructor (rate: real, burst: int, now: real)
      ensures View() == Bucket(rate, burst as real, burst as real, now)
    {
      this.rate, this.burst, this.tokens, this.last := rate, burst as real, burst as real, now;
    }

    method AllowN(now: real, n: real) returns (ok: bool)
      modifies this
      ensures (View(), ok) == Take(old(View()), Request(now, n))
    {
      tokens := tokens + (now - last) * rate;
      if tokens > burst {
        tokens := burst;
      }
      last := now;
      if tokens < n {
        return false;
      }
      tokens := tokens - n;
      return true;
    }
  }
}

module LeakyBuckets {
  import opened Arithmetic

  datatype Leaky = Leaky(capacity: int, interval: int, water: int, last: int)

  function Leak(b: Leaky, now: int): Leaky {
    if b.interval <= 0 then b else
      var leaked := (now - b.last) / b.interval;
      if leaked <= 0 then b else b.(water := if b.water < leaked then 0 else b.water - leaked, last := now)
  }

  function Pour(b: Leaky, now: int): (Leaky, bool) {
    var l := Leak(b, now);
    if l.water >= l.capacity then (l, false) else (l.(water := l.water + 1), true)
  }

  function After(b: Leaky, times: seq<int>): Leaky
    decreases |times|
  {
    if times == [] then b else After(Pour(b, times[0]).0, times[1..])
  }

  function Admitted(b: Leaky, times: seq<int>): nat
    decreases |times|
  {
    if times == [] then 0 else (if Pour(b, times[0]).1 then 1 else 0) + Admitted(Pour(b, times[0]).0, times[1..])
  }

  ghost predicate InOrder(last: int, times: seq<int>, end: int) {
    && (forall i | 0 <= i < |times| :: last <= times[i] <= end)
    && (forall i, j | 0 <= i < j < |times| :: times[i] <= times[j])
  }

  lemma FloorSum(a: int, b: int, d: int)
    requires d > 0
    ensures a / d + b / d <= (a + b) / d
  {
    var q := a / d + b / d;
    var r := a % d + b % d;
    assert a + b == q * d + r;
    if r < d {
      DivModUnique(a + b, q, r, d);
    } else {
      assert (q + 1) * d == q * d + d;
      DivModUnique(a + b, q + 1, r - d, d);
    }
  }

  /** What a run can still admit: the free room plus one request per whole interval. */
  function Room(b: Leaky, end: int): int
  {
    b.capacity - b.water + if b.interval > 0 then (end - b.last) / b.interval else 0
  }

  /** Over any run the water stays within the capacity, and the admitted requests within the room there
      was: from creation, that is capacity + floor(elapsed / interval). */
  lemma {:induction false} AdmissionIsBounded(b: Leaky, times: seq<int>, end: int)
    requires 0 <= b.water <= b.capacity && b.last <= end && InOrder(b.last, times, end)
    ensures 0 <= After(b, times).water <= b.capacity
    ensures Admitted(b, times) <= Room(b, end)
    decreases |times|
  {
    if times == [] {
      if b.interval > 0 {
        DivNonNegative(end - b.last, b.interval);
      }
    } else {
      var b' := Pour(b, times[0]).0;
      var l := Leak(b, times[0]);
      if b.interval > 0 && l.last != b.last {
        FloorSum(times[0] - b.last, end - times[0], b.interval);
      }
      assert Room(l, end) <= Room(b, end);
      AdmissionIsBounded(b', times[1..], end);
    }
  }

  lemma DivNonNegative(a: int, d: int)
    requires 0 <= a && 0 < d
    ensures a / d >= 0
  {
  }

  // ---------------------------------------------------------------- the law on answers

  /** When the bucket last leaked before request `j`: at creation, or at the last request that came a whole interval
      after the leak before it. */
  function LastLeak(interval: int, start: int, times: seq<int>, j: nat): int
    requires j <= |times|
  {
    if j == 0 then start else
      var before := LastLeak(interval, start, times, j - 1);
      if interval > 0 && times[j - 1] - before >= interval then times[j - 1] else before
  }

  /** The whole intervals that have passed by request `j` since that. */
  function Drip(interval: int, start: int, times: seq<int>, j: nat): int
    requires j < |times|
  {
    if interval > 0 then (times[j] - LastLeak(interval, start, times, j)) / interval else 0
  }

  /** The requests admitted among i, ..., j - 1 less what has dripped after request i up to request j. */
  function Level(interval: int, start: int, times: seq<int>, answers: seq<bool>, i: nat, j: nat): int
    requires i <= j < |times| == |answers|
    decreases j - i
  {
    if i == j then 0 else
      Level(interval, start, times, answers, i, j - 1) + (if answers[j - 1] then 1 else 0) - Drip(interval, start, times, j)
  }

  /** Each request is admitted if and only if, from every earlier request on, what was admitted less what has dripped
      is below the capacity. */
  ghost predicate Lawful(capacity: int, interval: int, start: int, times: seq<int>, answers: seq<bool>) {
    && |answers| == |times|
    && forall j | 0 <= j < |times| ::
         answers[j] <==> forall i | 0 <= i <= j :: Level(interval, start, times, answers, i, j) < capacity
  }

  function Prefix(b: Leaky, times: seq<int>, j: nat): Leaky
    requires j <= |times|
  {
    if j == 0 then b else Pour(Prefix(b, times, j - 1), times[j - 1]).0
  }

  predicate Admits(b: Leaky, times: seq<int>, j: nat)
    requires j < |times|
  {
    Pour(Prefix(b, times, j), times[j]).1
  }

  /** The bucket's fields before request `j`, and the water it decides on. */
  lemma {:induction false} PrefixLeaks(b: Leaky, times: seq<int>, j: nat)
    requires j <= |times| && InOrder(b.last, times, if times == [] then b.last else times[|times| - 1])
    ensures var p := Prefix(b, times, j);
            && p.capacity == b.capacity && p.interval == b.interval && p.last == LastLeak(b.interval, b.last, times, j)
            && p.last <= (if j == 0 then b.last else times[j - 1])
  {
    if j > 0 {
      PrefixLeaks(b, times, j - 1);
      var p := Prefix(b, times, j - 1);
      if b.interval > 0 {
        WholeIntervals(times[j - 1] - p.last, b.interval);
      }
    }
  }

  lemma WholeIntervals(dt: int, interval: int)
    requires 0 <= dt && 0 < interval
    ensures dt / interval >= 0 && (dt / interval > 0 <==> dt >= interval)
  {
    var q, r := dt / interval, dt % interval;
    assert dt == q * interval + r;
    MulBound(q, interval);
  }

  /** The water that request `j` decides on. */
  function Water(b: Leaky, times: seq<int>, j: nat): int
    requires j < |times|
  {
    Leak(Prefix(b, times, j), times[j]).water
  }

  lemma NextWater(b: Leaky, times: seq<int>, j: nat)
    requires 0 < j < |times| && InOrder(b.last, times, times[|times| - 1]) && Water(b, times, j - 1) >= 0
    ensures var poured := Water(b, times, j - 1) + if Admits(b, times, j - 1) then 1 else 0;
            var drip := Drip(b.interval, b.last, times, j);
            Water(b, times, j) == if poured < drip then 0 else poured - drip
  {
    PrefixLeaks(b, times, j);
    if b.interval > 0 {
      WholeIntervals(times[j] - Prefix(b, times, j).last, b.interval);
    }
  }

  /** A level that never falls below zero, with what flows in and out in every step. */
  ghost predicate FlooredLevels(levels: seq<int>, inflow: seq<int>, outflow: seq<int>) {
    && |levels| == |inflow| == |outflow|
    && (|levels| > 0 ==> levels[0] == 0)
    && forall j | 0 < j < |levels| ::
         var next := levels[j - 1] + inflow[j - 1] - outflow[j];
         levels[j] == if next < 0 then 0 else next
  }

  /** The same without the floor, from an empty level in step `i` on. */
  ghost function Unfloored(inflow: seq<int>, outflow: seq<int>, i: nat, j: nat): int
    requires i <= j < |inflow| == |outflow|
    decreases j - i
  {
    if i == j then 0 else Unfloored(inflow, outflow, i, j - 1) + inflow[j - 1] - outflow[j]
  }

  /** Flooring in every step is taking the highest of all the unfloored levels. */
  lemma {:induction false} FlooredIsHighest(levels: seq<int>, inflow: seq<int>, outflow: seq<int>, j: nat) returns (i: nat)
    requires FlooredLevels(levels, inflow, outflow) && j < |levels|
    ensures i <= j && levels[j] == Unfloored(inflow, outflow, i, j) >= 0
    ensures forall i' | 0 <= i' <= j :: Unfloored(inflow, outflow, i', j) <= levels[j]
  {
    i := 0;
    if j > 0 {
      i := FlooredIsHighest(levels, inflow, outflow, j - 1);
      if levels[j] == 0 {
        i := j;
      }
    }
  }

  ghost function Waters(b: Leaky, times: seq<int>): seq<int> {
    seq(|times|, j requires 0 <= j < |times| => Water(b, times, j))
  }

  ghost function Inflow(answers: seq<bool>): seq<int> {
    seq(|answers|, j requires 0 <= j < |answers| => if answers[j] then 1 else 0)
  }

  ghost function Outflow(interval: int, start: int, times: seq<int>): seq<int> {
    seq(|times|, j requires 0 <= j < |times| => Drip(interval, start, times, j))
  }

  lemma {:induction false} LevelIsUnfloored(interval: int, start: int, times: seq<int>, answers: seq<bool>, i: nat, j: nat)
    requires i <= j < |times| == |answers|
    ensures Level(interval, start, times, answers, i, j) == Unfloored(Inflow(answers), Outflow(interval, start, times), i, j)
    decreases j - i
  {
    if i < j {
      LevelIsUnfloored(interval, start, times, answers, i, j - 1);
    }
  }

  lemma {:induction false} WaterNotNegative(b: Leaky, times: seq<int>, j: nat)
    requires b.water == 0 && j < |times| && InOrder(b.last, times, times[|times| - 1])
    ensures Water(b, times, j) >= 0
  {
    if j > 0 {
      WaterNotNegative(b, times, j - 1);
      NextWater(b, times, j);
    }
  }

  lemma FirstWater(b: Leaky, times: seq<int>)
    requires b.water == 0 && |times| > 0
    ensures Water(b, times, 0) == 0
  {
  }

  lemma {:induction false} WatersAreFloored(b: Leaky, times: seq<int>, answers: seq<bool>)
    requires b.water == 0 && |times| == |answers| && (times != [] ==> InOrder(b.last, times, times[|times| - 1]))
    requires forall l | 0 <= l < |times| :: answers[l] == Admits(b, times, l)
    ensures FlooredLevels(Waters(b, times), Inflow(answers), Outflow(b.interval, b.last, times))
  {
    if times != [] {
      FirstWater(b, times);
    }
    forall l | 0 < l < |times|
      ensures var next := Water(b, times, l - 1) + (if answers[l - 1] then 1 else 0) - Drip(b.interval, b.last, times, l);
              Water(b, times, l) == if next < 0 then 0 else next
    {
      WaterNotNegative(b, times, l - 1);
      NextWater(b, times, l);
    }
  }

  /** The water that request `j` finds is the highest of the levels since an earlier request. */
  lemma {:induction false} WaterIsHighestLevel(b: Leaky, times: seq<int>, answers: seq<bool>, j: nat) returns (i: nat)
    requires b.water == 0 && j < |times| == |answers| && InOrder(b.last, times, times[|times| - 1])
    requires forall l | 0 <= l < |times| :: answers[l] == Admits(b, times, l)
    ensures i <= j && Water(b, times, j) == Level(b.interval, b.last, times, answers, i, j)
    ensures forall i' | 0 <= i' <= j :: Level(b.interval, b.last, times, answers, i', j) <= Water(b, times, j)
  {
    WatersAreFloored(b, times, answers);
    i := FlooredIsHighest(Waters(b, times), Inflow(answers), Outflow(b.interval, b.last, times), j);
    forall i' | 0 <= i' <= j
      ensures Level(b.interval, b.last, times, answers, i', j) == Unfloored(Inflow(answers), Outflow(b.interval, b.last, times), i', j)
    {
      LevelIsUnfloored(b.interval, b.last, times, answers, i', j);
    }
  }

  lemma AdmissionIsLawful(b: Leaky, times: seq<int>, answers: seq<bool>)
    requires b.water == 0 && |times| == |answers| && (times != [] ==> InOrder(b.last, times, times[|times| - 1]))
    requires forall l | 0 <= l < |times| :: answers[l] == Admits(b, times, l)
    ensures Lawful(b.capacity, b.interval, b.last, times, answers)
  {
    forall j | 0 <= j < |times|
      ensures answers[j] <==> forall i | 0 <= i <= j :: Level(b.interval, b.last, times, answers, i, j) < b.capacity
    {
      var _ := WaterIsHighestLevel(b, times, answers, j);
      PrefixLeaks(b, times, j);
      assert answers[j] <==> Water(b, times, j) < b.capacity;
    }
  }

  /** A new bucket's answers to any requests in order of time are the lawful ones. */
  method AllowAll(capacity: int, interval: int, now: int, times: seq<int>) returns (answers: seq<bool>)
    requires times != [] ==> InOrder(now, times, times[|times| - 1])
    ensures Lawful(capacity, interval, now, times, answers)
  {
    var bucket := new LeakyBucket(capacity, interval, now);
    ghost var b := bucket.View();
    answers := [];
    for j := 0 to |times|
      invariant |answers| == j && bucket.View() == Prefix(b, times, j)
      invariant forall l | 0 <= l < j :: answers[l] == Admits(b, times, l)
    {
      var ok := bucket.Allow(times[j]);
      assert ok == Admits(b, times, j) && bucket.View() == Prefix(b, times, j + 1);
      answers := answers + [ok];
    }
    AdmissionIsLawful(b, times, answers);
  }

  class LeakyBucket {
    const capacity: int
    const interval: int
    var water: int
    var last: int

    ghost function View(): Leaky
      reads this
    {
      Leaky(capacity, interval, water, last)
    }

    constructor (capacity: int, interval: int, now: int)
      ensures View() == Leaky(capacity, interval, 0, now)
    {
      this.capacity, this.interval, this.water, this.last := capacity, interval, 0, now;
    }

    method Allow(now: int) returns (ok: bool)
      modifies this
      ensures (View(), ok) == Pour(old(View()), now)
    {
      if interval > 0 {
        var leaked := (now - last) / interval;
        if leaked > 0 {
          water := water - leaked;
          if water < 0 {
            water := 0;
          }
          last := now;
        }
      }
      if water >= capacity {
        return false;
      }
      water := water + 1;
      return true;
    }
  }
}
