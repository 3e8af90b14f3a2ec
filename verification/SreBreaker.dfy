/** The SRE client-side throttling breaker on top of the rolling window. */
module SreBreakers {
  import opened Arithmetic
  import opened RollingWindows

  const SUCCESS := 0
  const FAILURE := 1
  const DROP := 2
  const MIN_K := 1.1
  const PROTECTION := 5
  const DEFAULT_BUCKETS := 40

  datatype BreakerBucket = BreakerBucket(sum: nat, success: nat, failure: nat, drop: nat)

  function AddResult(b: BreakerBucket, v: int): BreakerBucket {
    if v == FAILURE then b.(sum := b.sum + 1, failure := b.failure + 1)
    else if v == DROP then b.(sum := b.sum + 1, drop := b.drop + 1)
    else b.(sum := b.sum + 1, success := b.success + 1)
  }

  function Results(): Bucketing<int, BreakerBucket> {
    Bucketing(BreakerBucket(0, 0, 0, 0), AddResult)
  }

  datatype WindowResult = WindowResult(accepts: nat, total: nat, failingBuckets: nat, workingBuckets: nat)

  function Tally(buckets: seq<BreakerBucket>): (h: WindowResult)
    ensures h.failingBuckets <= |buckets| && h.workingBuckets <= |buckets|
  {
    if buckets == [] then WindowResult(0, 0, 0, 0) else
      TallyOne(Tally(buckets[..|buckets| - 1]), buckets[|buckets| - 1])
  }

  function TallyOne(h: WindowResult, b: BreakerBucket): WindowResult {
    WindowResult(h.accepts + b.success, h.total + b.sum,
                 h.failingBuckets + (if b.failure > 0 then 1 else 0),
                 h.workingBuckets + (if b.success > 0 then 1 else 0))
  }

  // ---------------------------------------------------------------- the drop formula

  function AtLeast(x: real, lower: real): real {
    if x < lower then lower else x
  }

  function Multiplier(k: real, n: nat, failingBuckets: nat): real
    requires n > 0
  {
    AtLeast(k - (k - MIN_K) * failingBuckets as real / n as real, MIN_K)
  }

  function DropRatio(k: real, n: nat, h: WindowResult): real
    requires n > 0
  {
    ((h.total - PROTECTION) as real - Multiplier(k, n, h.failingBuckets) * h.accepts as real) / (h.total + 1) as real
  }

  /** The chance that a request is dropped when no probe is due. */
  function DropProbability(k: real, n: nat, h: WindowResult): real
    requires n > 0
  {
    var ratio := DropRatio(k, n, h);
    if ratio <= 0.0 then 0.0 else ratio * ((n - h.workingBuckets) as real / n as real)
  }

  lemma ProductOrder(a: real, b: real, c: real, d: real)
    requires 0.0 <= a <= b && 0.0 <= c <= d
    ensures 0.0 <= a * c <= b * d
  {
    MulOrder(a, b, c);
    MulOrder(c, d, b);
  }

  lemma DivOrder(x: real, y: real, z: real)
    requires x <= y && z > 0.0
    ensures x / z <= y / z
  {
    assert (y - x) / z >= 0.0;
    assert y / z - x / z == (y - x) / z;
  }

  lemma DivBelowOne(x: real, z: real)
    requires x < z && z > 0.0
    ensures x / z < 1.0
  {
  }

  lemma Fraction(a: nat, n: nat)
    requires a <= n && 0 < n
    ensures 0.0 <= a as real / n as real <= 1.0
  {
  }

  lemma ProductBelowOne(r: real, f: real)
    requires 0.0 < r < 1.0 && 0.0 <= f <= 1.0
    ensures 0.0 <= r * f < 1.0
  {
    ProductOrder(r, r, f, 1.0);
  }

  lemma RatioBelowOne(k: real, n: nat, h: WindowResult)
    requires n > 0
    ensures DropRatio(k, n, h) < 1.0
  {
    var m := Multiplier(k, n, h.failingBuckets);
    ProductOrder(0.0, m, 0.0, h.accepts as real);
    DivBelowOne((h.total - PROTECTION) as real - m * h.accepts as real, (h.total + 1) as real);
  }

  /** The drop probability is a probability, and never certainty. */
  lemma ProbabilityInRange(k: real, n: nat, h: WindowResult)
    requires n > 0 && h.workingBuckets <= n
    ensures 0.0 <= DropProbability(k, n, h) < 1.0
  {
    var ratio := DropRatio(k, n, h);
    RatioBelowOne(k, n, h);
    if ratio > 0.0 {
      Fraction(n - h.workingBuckets, n);
      ProductBelowOne(ratio, (n - h.workingBuckets) as real / n as real);
    }
  }

  /** Nothing is dropped while the rejections stay within the protection and the smallest multiplier. */
  lemma ProtectedNeverDrops(k: real, n: nat, h: WindowResult)
    requires n > 0 && (h.total - PROTECTION) as real <= MIN_K * h.accepts as real
    ensures DropRatio(k, n, h) <= 0.0 && DropProbability(k, n, h) == 0.0
  {
    ProductOrder(MIN_K, Multiplier(k, n, h.failingBuckets), h.accepts as real, h.accepts as real);
    var x := (h.total - PROTECTION) as real - Multiplier(k, n, h.failingBuckets) * h.accepts as real;
    DivOrder(x, 0.0, (h.total + 1) as real);
  }

  /** As many requests, but no more of them accepted, no fewer failing and no more working buckets. */
  predicate NoBetter(h': WindowResult, h: WindowResult) {
    && h'.total == h.total && h'.accepts <= h.accepts
    && h'.failingBuckets >= h.failingBuckets && h'.workingBuckets <= h.workingBuckets
  }

  lemma MultiplierByShare(k: real, n: nat, f: nat)
    requires n > 0
    ensures Multiplier(k, n, f) == AtLeast(k - (k - MIN_K) * (f as real / n as real), MIN_K)
  {
    assert (k - MIN_K) * f as real / n as real == (k - MIN_K) * (f as real / n as real);
  }

  lemma FallsWithShare(k: real, a: real, a': real)
    requires 0.0 <= a <= a' <= 1.0
    ensures AtLeast(k - (k - MIN_K) * a', MIN_K) <= AtLeast(k - (k - MIN_K) * a, MIN_K)
  {
    if k >= MIN_K {
      ProductOrder(k - MIN_K, k - MIN_K, a, a');
    } else {
      ProductOrder(MIN_K - k, MIN_K - k, a', 1.0);
      assert (k - MIN_K) * a' == -((MIN_K - k) * a');
    }
  }

  lemma MultiplierFalls(k: real, n: nat, f: nat, f': nat)
    requires n > 0 && f <= f' <= n
    ensures Multiplier(k, n, f') <= Multiplier(k, n, f)
  {
    Fraction(f, n);
    Fraction(f', n);
    DivOrder(f as real, f' as real, n as real);
    FallsWithShare(k, f as real / n as real, f' as real / n as real);
    MultiplierByShare(k, n, f);
    MultiplierByShare(k, n, f');
  }

  lemma RatioRises(k: real, n: nat, h: WindowResult, h': WindowResult)
    requires n > 0 && NoBetter(h', h) && h'.failingBuckets <= n
    ensures DropRatio(k, n, h) <= DropRatio(k, n, h')
  {
    MultiplierFalls(k, n, h.failingBuckets, h'.failingBuckets);
    ProductOrder(Multiplier(k, n, h'.failingBuckets), Multiplier(k, n, h.failingBuckets), h'.accepts as real, h.accepts as real);
    DivOrder((h.total - PROTECTION) as real - Multiplier(k, n, h.failingBuckets) * h.accepts as real,
             (h'.total - PROTECTION) as real - Multiplier(k, n, h'.failingBuckets) * h'.accepts as real,
             (h.total + 1) as real);
  }

  /** A window that is no better is never dropped from less, for every multiplier k. */
  lemma ProbabilityRises(k: real, n: nat, h: WindowResult, h': WindowResult)
    requires n > 0 && NoBetter(h', h) && h'.failingBuckets <= n && h.workingBuckets <= n
    ensures DropProbability(k, n, h) <= DropProbability(k, n, h')
  {
    RatioRises(k, n, h, h');
    var f, f' := (n - h.workingBuckets) as real / n as real, (n - h'.workingBuckets) as real / n as real;
    DivOrder(0.0, (n - h.workingBuckets) as real, n as real);
    DivOrder((n - h.workingBuckets) as real, (n - h'.workingBuckets) as real, n as real);
    if DropRatio(k, n, h) > 0.0 {
      ProductOrder(DropRatio(k, n, h), DropRatio(k, n, h'), f, f');
    } else if DropRatio(k, n, h') > 0.0 {
      ProductOrder(0.0, DropRatio(k, n, h'), 0.0, f');
    }
  }

  // ---------------------------------------------------------------- over any window history

  function Kind(v: int): int {
    if v == FAILURE || v == DROP then v else SUCCESS
  }

  /** How many results of one kind the log holds with lo <= epoch < hi. */
  function Seen(log: seq<Stamped<int>>, lo: int, hi: int, kind: int): nat {
    if log == [] then 0 else
      var last := log[|log| - 1];
      Seen(log[..|log| - 1], lo, hi, kind) + if lo <= last.epoch < hi && Kind(last.value) == kind then 1 else 0
  }

  lemma {:induction false} SeenSplits(log: seq<Stamped<int>>, lo: int, hi: int, kind: int)
    requires lo < hi
    ensures Seen(log, lo, hi, kind) == Seen(log, lo, hi - 1, kind) + Seen(log, hi - 1, hi, kind)
  {
    if log != [] {
      SeenSplits(log[..|log| - 1], lo, hi, kind);
    }
  }

  lemma {:induction false} BucketCounts(log: seq<Stamped<int>>, epoch: int)
    ensures var b := Collect(Results(), log, epoch);
            && b.success == Seen(log, epoch, epoch + 1, SUCCESS)
            && b.failure == Seen(log, epoch, epoch + 1, FAILURE)
            && b.drop == Seen(log, epoch, epoch + 1, DROP)
            && b.sum == b.success + b.failure + b.drop
  {
    if log != [] {
      BucketCounts(log[..|log| - 1], epoch);
    }
  }

  lemma SpanSnoc(log: seq<Stamped<int>>, lo: int, hi: int)
    requires lo < hi
    ensures Span(Results(), log, lo, hi) == Span(Results(), log, lo, hi - 1) + [Collect(Results(), log, hi - 1)]
  {
  }

  lemma {:induction false} NothingSeen(log: seq<Stamped<int>>, lo: int, hi: int, kind: int)
    requires forall i | 0 <= i < |log| :: !(lo <= log[i].epoch < hi)
    ensures Seen(log, lo, hi, kind) == 0
  {
    if log != [] {
      NothingSeen(log[..|log| - 1], lo, hi, kind);
    }
  }

  predicate SeenIn(log: seq<Stamped<int>>, epoch: int, kind: int) {
    Seen(log, epoch, epoch + 1, kind) > 0
  }

  /** The epochs with lo <= epoch < hi in which the log holds a result of one kind. */
  ghost function Epochs(log: seq<Stamped<int>>, lo: int, hi: int, kind: int): set<int> {
    set e | lo <= e < hi && SeenIn(log, e, kind)
  }

  lemma EpochsSplit(log: seq<Stamped<int>>, lo: int, hi: int, kind: int)
    requires lo < hi
    ensures |Epochs(log, lo, hi, kind)| == |Epochs(log, lo, hi - 1, kind)| + if Seen(log, hi - 1, hi, kind) > 0 then 1 else 0
  {
    var before := Epochs(log, lo, hi - 1, kind);
    assert Epochs(log, lo, hi, kind) == if SeenIn(log, hi - 1, kind) then before + {hi - 1} else before;
  }

  /** Bounds above the newest result see the same. */
  lemma {:induction false} SeenCaps(log: seq<Stamped<int>>, lo: int, hi: int, hi': int, kind: int)
    requires forall i | 0 <= i < |log| :: log[i].epoch < hi <==> log[i].epoch < hi'
    ensures Seen(log, lo, hi, kind) == Seen(log, lo, hi', kind)
  {
    if log != [] {
      SeenCaps(log[..|log| - 1], lo, hi, hi', kind);
    }
  }

  lemma EpochsCap(log: seq<Stamped<int>>, lo: int, hi: int, hi': int, kind: int)
    requires forall i | 0 <= i < |log| :: log[i].epoch < hi <==> log[i].epoch < hi'
    ensures Epochs(log, lo, hi, kind) == Epochs(log, lo, hi', kind)
  {
    forall e | hi <= e < hi' || hi' <= e < hi
      ensures !SeenIn(log, e, kind)
    {
      NothingSeen(log, e, e + 1, kind);
    }
  }

  /** The window's totals are counts of the log: every result is a success, a failure or a drop. */
  lemma {:induction false} TallyCounts(log: seq<Stamped<int>>, lo: int, hi: int)
    ensures var h := Tally(Span(Results(), log, lo, hi));
            && h.accepts == Seen(log, lo, hi, SUCCESS)
            && h.total == Seen(log, lo, hi, SUCCESS) + Seen(log, lo, hi, FAILURE) + Seen(log, lo, hi, DROP)
            && h.failingBuckets == |Epochs(log, lo, hi, FAILURE)| && h.workingBuckets == |Epochs(log, lo, hi, SUCCESS)|
    decreases hi - lo
  {
    if lo < hi {
      TallyCounts(log, lo, hi - 1);
      SpanSnoc(log, lo, hi);
      BucketCounts(log, hi - 1);
      EpochsSplit(log, lo, hi, SUCCESS);
      EpochsSplit(log, lo, hi, FAILURE);
      SeenSplits(log, lo, hi, SUCCESS);
      SeenSplits(log, lo, hi, FAILURE);
      SeenSplits(log, lo, hi, DROP);
    } else {
      NothingSeen(log, lo, hi, SUCCESS);
      NothingSeen(log, lo, hi, FAILURE);
      NothingSeen(log, lo, hi, DROP);
    }
  }

  predicate NoBetterBucket(b': BreakerBucket, b: BreakerBucket) {
    b'.sum == b.sum && b'.success <= b.success && b'.failure >= b.failure
  }

  lemma {:induction false} TallyNoBetter(bs: seq<BreakerBucket>, bs': seq<BreakerBucket>)
    requires |bs| == |bs'| && forall i | 0 <= i < |bs| :: NoBetterBucket(bs'[i], bs[i])
    ensures NoBetter(Tally(bs'), Tally(bs))
  {
    if bs != [] {
      var n := |bs| - 1;
      assert NoBetterBucket(bs'[n], bs[n]);
      TallyNoBetter(bs[..n], bs'[..n]);
    }
  }

  lemma {:induction false} RelabelBucket(log: seq<Stamped<int>>, i: nat, epoch: int)
    requires i < |log| && Kind(log[i].value) == SUCCESS
    ensures var b, b' := Collect(Results(), log, epoch), Collect(Results(), log[i := Stamped(log[i].epoch, FAILURE)], epoch);
            if epoch == log[i].epoch then b.success > 0 && b' == b.(success := b.success - 1, failure := b.failure + 1) else b' == b
  {
    var log' := log[i := Stamped(log[i].epoch, FAILURE)];
    var n := |log| - 1;
    if i < n {
      RelabelBucket(log[..n], i, epoch);
      assert log'[..n] == log[..n][i := Stamped(log[i].epoch, FAILURE)];
    } else {
      assert log'[..n] == log[..n];
    }
  }

  /** Had any one success been a failure instead, no request would be less likely to be dropped. */
  lemma FailureNeverHelps(k: real, n: nat, log: seq<Stamped<int>>, i: nat, lo: int, hi: int)
    requires i < |log| && Kind(log[i].value) == SUCCESS && 0 < n && hi - lo <= n
    ensures DropProbability(k, n, Tally(Span(Results(), log, lo, hi))) <=
            DropProbability(k, n, Tally(Span(Results(), log[i := Stamped(log[i].epoch, FAILURE)], lo, hi)))
  {
    var log' := log[i := Stamped(log[i].epoch, FAILURE)];
    var bs, bs' := Span(Results(), log, lo, hi), Span(Results(), log', lo, hi);
    forall j | 0 <= j < |bs|
      ensures NoBetterBucket(bs'[j], bs[j])
    {
      RelabelBucket(log, i, lo + j);
    }
    TallyNoBetter(bs, bs');
    ProbabilityRises(k, n, Tally(bs), Tally(bs'));
  }

  // ---------------------------------------------------------------- the decision

  lemma MulStrict(u: real, v: real, p: real)
    requires p > 0.0
    ensures u < v <==> u * p < v * p
  {
    if u < v {
      assert (v - u) * p > 0.0;
    } else {
      MulOrder(v, u, p);
    }
  }

  /** Comparing with a product of two quotients, without dividing. */
  lemma CrossMultiplied(draw: real, x: real, t: real, y: real, n: real)
    requires t > 0.0 && n > 0.0
    ensures draw < x / t * (y / n) <==> draw * n * t < x * y
  {
    var a, c := x / t, y / n;
    assert a * t == x && c * n == y;
    MulStrict(draw, a * c, n);
    MulStrict(draw * n, a * c * n, t);
    Regroup(a, c, n, t);
  }

  lemma Regroup(a: real, c: real, n: real, t: real)
    ensures a * c * n * t == (a * t) * (c * n)
  {
    assert a * c * n == a * (c * n);
    assert a * (c * n) * t == (a * t) * (c * n);
  }

  /** By how much the requests exceed what the accepted ones allow: the multiplier falls from k to 1.1 with the share of
      epochs that saw a failure. */
  function Excess(k: real, n: nat, accepts: nat, total: nat, failing: nat): real
    requires n > 0
  {
    var w := k - (k - 1.1) * failing as real / n as real;
    total as real - 5.0 - (if w < 1.1 then 1.1 else w) * accepts as real
  }

  /** The SRE formula without divisions: the draw falls below excess / (total + 1), times the share of epochs without a
      success. */
  predicate DrawDrops(k: real, n: nat, accepts: nat, total: nat, failing: nat, working: nat, draw: real)
    requires n > 0
  {
    var excess := Excess(k, n, accepts, total, failing);
    excess > 0.0 && draw * n as real * (total + 1) as real < excess * (n - working) as real
  }

  /** A window of a hundred failures drops 95 requests of 101. */
  lemma HundredFailures(k: real, n: nat, failing: nat, draw: real)
    requires n > 0
    ensures DrawDrops(k, n, 0, 100, failing, 0, draw) <==> draw * 101.0 < 95.0
  {
    var u := draw * 101.0;
    assert Excess(k, n, 0, 100, failing) == 95.0;
    MulStrict(u, 95.0, n as real);
    assert draw * n as real * 101.0 == u * n as real;
  }

  lemma RatioByTheFormula(k: real, n: nat, h: WindowResult)
    requires n > 0
    ensures DropRatio(k, n, h) * (h.total + 1) as real == Excess(k, n, h.accepts, h.total, h.failingBuckets)
    ensures DropRatio(k, n, h) > 0.0 <==> Excess(k, n, h.accepts, h.total, h.failingBuckets) > 0.0
  {
    var x, t := Excess(k, n, h.accepts, h.total, h.failingBuckets), (h.total + 1) as real;
    assert DropRatio(k, n, h) == x / t;
    MulStrict(0.0, x / t, t);
  }

  /** The drop ratio and probability of a window's numbers. */
  lemma ProbabilityByTheFormula(k: real, n: nat, h: WindowResult, draw: real)
    requires n > 0 && 0.0 <= draw
    ensures draw < DropProbability(k, n, h) <==>
            DrawDrops(k, n, h.accepts, h.total, h.failingBuckets, h.workingBuckets, draw)
  {
    RatioByTheFormula(k, n, h);
    var x, t := Excess(k, n, h.accepts, h.total, h.failingBuckets), (h.total + 1) as real;
    assert DropRatio(k, n, h) == x / t;
    CrossMultiplied(draw, x, t, (n - h.workingBuckets) as real, n as real);
  }

  // ---------------------------------------------------------------- the breaker

  /** Integer division that truncates toward zero. */
  function Quotient(a: int, n: nat): int
    requires n > 0
  {
    if a >= 0 then a / n else -(-a / n)
  }

  lemma QuotientTruncates(a: int, n: nat)
    requires n > 0
    ensures Quotient(a, n) > 0 <==> a >= n
    ensures if a >= 0 then 0 <= a - Quotient(a, n) * n < n else 0 <= Quotient(a, n) * n - a < n
  {
    var q, r := if a >= 0 then a / n else -a / n, if a >= 0 then a % n else -a % n;
    assert (if a >= 0 then a else -a) == q * n + r;
    assert (-q) * n == -(q * n);
    MulBound(q, n);
  }

  /** A breaker is usable if its window is at least as long as it has buckets; with a shorter one the first call
      divides by a zero interval. */
  class SreBreaker {
    const k: real
    const buckets: nat
    const stat: RollingWindow<int, BreakerBucket>
    const probeInterval: int
    var lastPass: int

    ghost predicate Valid()
      reads this, stat, stat.buckets
    {
      buckets > 0 && stat.Valid() && stat.size == buckets && stat.bk == Results() && !stat.ignoreCurrent
    }

    /** What the window of the last `buckets` epochs amounts to. */
    ghost function HistoryAt(now: int): WindowResult
      requires Valid()
      reads this, stat, stat.buckets
    {
      Tally(Span(Results(), stat.log, stat.EpochOf(now) - buckets + 1, stat.epoch + 1))
    }

    constructor (k: real, window: int, buckets: int, probeInterval: int, now: int)
      ensures this.buckets == if buckets < 1 then 40 else buckets
      ensures Valid() <==> this.buckets <= window
      ensures fresh(stat) && fresh(stat.buckets) && stat.log == [] && lastPass == 0 && this.k == k
      ensures this.probeInterval == probeInterval && stat.start == now
      ensures var left := window - stat.interval * this.buckets; if window >= 0 then 0 <= left < this.buckets else 0 <= -left < this.buckets
    {
      var n := if buckets < 1 then DEFAULT_BUCKETS else buckets;
      QuotientTruncates(window, n);
      this.k, this.buckets, this.probeInterval, this.lastPass := k, n, probeInterval, 0;
      stat := new RollingWindow(Results(), n, Quotient(window, n), false, now);
    }

    method History(now: int) returns (h: WindowResult)
      requires Valid() && stat.lastTime <= now
      ensures h == HistoryAt(now)
      ensures h.workingBuckets <= buckets && h.failingBuckets <= buckets
    {
      var visited := stat.Reduce(now);
      stat.Elapsed(now);
      h := WindowResult(0, 0, 0, 0);
      for i := 0 to |visited|
        invariant h == Tally(visited[..i])
      {
        assert visited[..i + 1][..i] == visited[..i];
        h := TallyOne(h, visited[i]);
      }
      assert visited[..|visited|] == visited;
    }

    /** The numbers of the window are counts of the log, over the last `buckets` epochs up to the current one. */
    lemma WindowCounts(now: int)
      requires Valid() && stat.lastTime <= now
      ensures var e := (now - stat.start) / stat.interval;
              var lo, hi := e - buckets + 1, e + 1;
              var h := HistoryAt(now);
              && h.accepts == Seen(stat.log, lo, hi, 0)
              && h.total == Seen(stat.log, lo, hi, 0) + Seen(stat.log, lo, hi, 1) + Seen(stat.log, lo, hi, 2)
              && h.failingBuckets == |Epochs(stat.log, lo, hi, 1)| && h.workingBuckets == |Epochs(stat.log, lo, hi, 0)|
    {
      stat.Elapsed(now);
      var lo, hi, hi' := stat.EpochOf(now) - buckets + 1, stat.epoch + 1, stat.EpochOf(now) + 1;
      SeenCaps(stat.log, lo, hi, hi', 0);
      SeenCaps(stat.log, lo, hi, hi', 1);
      SeenCaps(stat.log, lo, hi, hi', 2);
      EpochsCap(stat.log, lo, hi, hi', 0);
      EpochsCap(stat.log, lo, hi, hi', 1);
      TallyCounts(stat.log, lo, hi);
    }

    /** A request is rejected exactly when no probe is due and the draw falls below the SRE formula's probability, taken
        over the results logged in the last `buckets` epochs; every other request under pressure counts as a pass. */
    method Accept(now: int, draw: real) returns (ok: bool)
      requires Valid() && stat.lastTime <= now && 0.0 <= draw < 1.0
      modifies this`lastPass
      ensures Valid()
      ensures var e := (now - stat.start) / stat.interval;
              var lo, hi := e - buckets + 1, e + 1;
              var accepts, failed, dropped := Seen(stat.log, lo, hi, 0), Seen(stat.log, lo, hi, 1), Seen(stat.log, lo, hi, 2);
              var failing, working := |Epochs(stat.log, lo, hi, 1)|, |Epochs(stat.log, lo, hi, 0)|;
              var probe := old(lastPass) > 0 && now - old(lastPass) > probeInterval;
              && (ok <==> probe || !DrawDrops(k, buckets, accepts, accepts + failed + dropped, failing, working, draw))
              && lastPass == if ok && Excess(k, buckets, accepts, accepts + failed + dropped, failing) > 0.0 then now else old(lastPass)
    {
      WindowCounts(now);
      var h := History(now);
      ok := Judge(h, now, draw);
    }

    /** The decision on the history. */
    method Judge(h: WindowResult, now: int, draw: real) returns (ok: bool)
      requires buckets > 0 && h.workingBuckets <= buckets && 0.0 <= draw < 1.0
      modifies this`lastPass
      ensures var probe := old(lastPass) > 0 && now - old(lastPass) > probeInterval;
              && (ok <==> probe || !DrawDrops(k, buckets, h.accepts, h.total, h.failingBuckets, h.workingBuckets, draw))
              && lastPass == if ok && Excess(k, buckets, h.accepts, h.total, h.failingBuckets) > 0.0 then now else old(lastPass)
    {
      RatioByTheFormula(k, buckets, h);
      ProbabilityByTheFormula(k, buckets, h, draw);
      var ratio := DropRatio(k, buckets, h);
      if ratio <= 0.0 {
        return true;
      }
      if lastPass > 0 && now - lastPass > probeInterval {
        lastPass := now;
        return true;
      }
      ratio := ratio * ((buckets - h.workingBuckets) as real / buckets as real);
      if draw < ratio {
        return false;
      }
      lastPass := now;
      return true;
    }

    method Healthy(now: int) returns (ok: bool)
      requires Valid() && stat.lastTime <= now
      ensures var e := (now - stat.start) / stat.interval;
              var lo, hi := e - buckets + 1, e + 1;
              var accepts, failed, dropped := Seen(stat.log, lo, hi, 0), Seen(stat.log, lo, hi, 1), Seen(stat.log, lo, hi, 2);
              ok <==> Excess(k, buckets, accepts, accepts + failed + dropped, |Epochs(stat.log, lo, hi, 1)|) <= 0.0
      ensures stat.EpochOf(now) - stat.epoch >= buckets ==> ok
    {
      WindowCounts(now);
      var h := History(now);
      RatioByTheFormula(k, buckets, h);
      if stat.EpochOf(now) - stat.epoch >= buckets {
        ProtectedNeverDrops(k, buckets, h);
      }
      ok := DropRatio(k, buckets, h) <= 0.0;
    }

    /** The start of a guarded call: a rejected one leaves a drop in the log, an admitted one nothing yet.  Other
        calls may start and finish before this one does. */
    method Begin(now: int, draw: real) returns (admitted: bool)
      requires Valid() && stat.lastTime <= now && 0.0 <= draw < 1.0
      modifies this`lastPass, stat, stat.buckets
      ensures Valid() && stat.lastTime <= now
      ensures var log, e := old(stat.log), (now - stat.start) / stat.interval;
              var lo, hi := e - buckets + 1, e + 1;
              var accepts, failed, dropped := Seen(log, lo, hi, 0), Seen(log, lo, hi, 1), Seen(log, lo, hi, 2);
              var failing, working := |Epochs(log, lo, hi, 1)|, |Epochs(log, lo, hi, 0)|;
              var probe := old(lastPass) > 0 && now - old(lastPass) > probeInterval;
              admitted <==> probe || !DrawDrops(k, buckets, accepts, accepts + failed + dropped, failing, working, draw)
      ensures stat.log == if admitted then old(stat.log) else old(stat.log) + [Stamped((now - stat.start) / stat.interval, 2)]
    {
      admitted := Accept(now, draw);
      if !admitted {
        stat.Add(now, DROP);
      }
    }

    /** The end of an admitted call, with whatever came in between: its outcome is logged when it ends.  A call
        that panics ends as one that is not acceptable. */
    method Finish(now: int, acceptable: bool)
      requires Valid() && stat.lastTime <= now
      modifies stat, stat.buckets
      ensures Valid() && stat.lastTime <= now
      ensures stat.log == old(stat.log) + [Stamped((now - stat.start) / stat.interval, if acceptable then 0 else 1)]
    {
      if acceptable {
        stat.Add(now, SUCCESS);
      } else {
        stat.Add(now, FAILURE);
      }
    }

    /** One guarded call leaves exactly one result in the log: a drop if it was rejected, otherwise its outcome. */
    method DoReq(now: int, draw: real, doneAt: int, acceptable: bool) returns (admitted: bool)
      requires Valid() && stat.lastTime <= now <= doneAt && 0.0 <= draw < 1.0
      modifies this`lastPass, stat, stat.buckets
      ensures Valid()
      ensures var log, e := old(stat.log), (now - stat.start) / stat.interval;
              var lo, hi := e - buckets + 1, e + 1;
              var accepts, failed, dropped := Seen(log, lo, hi, 0), Seen(log, lo, hi, 1), Seen(log, lo, hi, 2);
              var failing, working := |Epochs(log, lo, hi, 1)|, |Epochs(log, lo, hi, 0)|;
              var probe := old(lastPass) > 0 && now - old(lastPass) > probeInterval;
              admitted <==> probe || !DrawDrops(k, buckets, accepts, accepts + failed + dropped, failing, working, draw)
      ensures stat.log == old(stat.log) + [if !admitted then Stamped((now - stat.start) / stat.interval, 2)
                                           else Stamped((doneAt - stat.start) / stat.interval, if acceptable then 0 else 1)]
    {
      admitted := Begin(now, draw);
      if admitted {
        Finish(doneAt, acceptable);
      }
    }
  }

  /** A pause of one whole window moves the clock on by at least `n` epochs. */
  lemma IdleWindowPasses(start: int, interval: int, n: nat, last: int, now: int)
    requires interval > 0 && now - last >= n * interval
    ensures (now - start) / interval >= (last - start) / interval + n
  {
    var q, r := (last - start) / interval, (last - start) % interval;
    var q', r' := (now - start) / interval, (now - start) % interval;
    assert last - start == q * interval + r && now - start == q' * interval + r';
    assert (q' - q - n) * interval == now - last - n * interval - r' + r;
    MulBound(q' - q - n, interval);
  }

  /** After one whole window without additions the breaker lets everything through again. */
  lemma IdleWindowHeals(k: real, n: nat, log: seq<Stamped<int>>, start: int, interval: int, last: int, now: int, hi: int)
    requires interval > 0 && n > 0 && now - last >= n * interval
    requires forall i | 0 <= i < |log| :: log[i].epoch <= (last - start) / interval
    ensures DropRatio(k, n, Tally(Span(Results(), log, (now - start) / interval - n + 1, hi))) <= 0.0
  {
    IdleWindowPasses(start, interval, n, last, now);
    var lo := (now - start) / interval - n + 1;
    TallyCounts(log, lo, hi);
    NothingSeen(log, lo, hi, SUCCESS);
    NothingSeen(log, lo, hi, FAILURE);
    NothingSeen(log, lo, hi, DROP);
    ProtectedNeverDrops(k, n, Tally(Span(Results(), log, lo, hi)));
  }
}
