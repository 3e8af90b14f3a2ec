/** The in-process rate limit store: sweeping idle entries cannot be observed, and each key
    behaves as a token bucket of its own. */
module MemoryStore {
  import opened Arithmetic
  import opened TokenBuckets

  const CLEANUP_INTERVAL := 60.0

  datatype Window = Window(count: int, expires: real)

  datatype Store = Store(buckets: map<string, Bucket>, windows: map<string, Window>, lastCleanup: real)

  datatype Op =
    | TakeTokens(now: real, key: string, rate: int, burst: int, n: int)
    | IncrWindow(now: real, key: string, window: real)

  datatype Answer = Allowed(ok: bool) | Counted(count: int)

  function Empty(now: real): Store {
    Store(map[], map[], now)
  }

  // ---------------------------------------------------------------- operations

  predicate Expired(w: Window, now: real) {
    w.expires <= now
  }

  predicate Refilled(b: Bucket, now: real) {
    b.rate > 0.0 && now - b.last >= b.burst / b.rate
  }

  function Cleanup(s: Store, now: real): Store {
    if now - s.lastCleanup < CLEANUP_INTERVAL then s else
      Store(map k | k in s.buckets && !Refilled(s.buckets[k], now) :: s.buckets[k],
            map k | k in s.windows && !Expired(s.windows[k], now) :: s.windows[k],
            now)
  }

  /** The bucket a request on `key` meets: the stored one, or a fresh full one. */
  function BucketFor(s: Store, op: Op): Bucket
    requires op.TakeTokens?
  {
    if op.key in s.buckets then s.buckets[op.key] else Fresh(op.rate as real, op.burst as real, op.now)
  }

  function WindowFor(s: Store, op: Op): Window
    requires op.IncrWindow?
  {
    if op.key in s.windows && !Expired(s.windows[op.key], op.now) then s.windows[op.key] else Window(0, op.now + op.window)
  }

  /** What an operation does once the sweep, if any, is over. */
  function Serve(s: Store, op: Op): (Store, Answer) {
    match op
    case TakeTokens(now, key, rate, burst, n) =>
      var (b, ok) := Take(BucketFor(s, op), Request(now, n as real));
      (s.(buckets := s.buckets[key := b]), Allowed(ok))
    case IncrWindow(now, key, window) =>
      var w := WindowFor(s, op);
      (s.(windows := s.windows[key := w.(count := w.count + 1)]), Counted(w.count + 1))
  }

  function Step(s: Store, op: Op, sweeping: bool): (Store, Answer) {
    Serve(if sweeping then Cleanup(s, op.now) else s, op)
  }

  function Answers(s: Store, ops: seq<Op>, sweeping: bool): (r: seq<Answer>)
    ensures |r| == |ops|
    decreases |ops|
  {
    if ops == [] then [] else
      var (s', a) := Step(s, ops[0], sweeping);
      [a] + Answers(s', ops[1..], sweeping)
  }

  // ---------------------------------------------------------------- sweeping is invisible

  /** The clock is monotone, and each key always comes with the same rate and burst. */
  ghost predicate WellUsed(now: real, ops: seq<Op>, limits: map<string, (int, int)>) {
    InOrder(now, ops) && forall op | op in ops :: Limited(op, limits)
  }

  ghost predicate InOrder(now: real, ops: seq<Op>) {
    && (forall i | 0 <= i < |ops| :: now <= ops[i].now)
    && (forall i, j | 0 <= i < j < |ops| :: ops[i].now <= ops[j].now)
  }

  predicate Limited(op: Op, limits: map<string, (int, int)>) {
    op.TakeTokens? ==> op.key in limits && (op.rate, op.burst) == limits[op.key]
  }

  function Least(x: real, y: real): real { if x < y then x else y }

  /** A stored bucket never holds less than an empty bucket or a full one. */
  predicate BucketOk(b: Bucket, now: real) {
    && b.last <= now
    && (b.rate > 0.0 ==> b.tokens >= Least(0.0, b.burst))
  }

  /** A bucket that is full again by `now`, so that it is as good as a fresh one. */
  predicate Full(b: Bucket, now: real) {
    b.rate > 0.0 && b.tokens + (now - b.last) * b.rate >= b.burst
  }

  /** A swept store agrees with the one that never sweeps, except for entries that no longer matter. */
  ghost predicate Agree(swept: Store, plain: Store, now: real) {
    && (forall k | k in swept.buckets :: k in plain.buckets && plain.buckets[k] == swept.buckets[k])
    && (forall k | k in plain.buckets :: BucketOk(plain.buckets[k], now))
    && (forall k | k in plain.buckets && k !in swept.buckets :: Full(plain.buckets[k], now))
    && (forall k | k in swept.windows :: k in plain.windows && plain.windows[k] == swept.windows[k])
    && (forall k | k in plain.windows && k !in swept.windows :: Expired(plain.windows[k], now))
  }

  lemma FullStaysFull(b: Bucket, now: real, later: real)
    requires Full(b, now) && now <= later
    ensures Full(b, later)
  {
    MulOrder(now - b.last, later - b.last, b.rate);
  }

  lemma DivMul(x: real, r: real)
    requires r > 0.0
    ensures x / r * r == x
  {
  }

  /** The sweep only drops buckets that are full again. */
  lemma RefilledIsFull(b: Bucket, now: real)
    requires BucketOk(b, now) && Refilled(b, now)
    ensures Full(b, now)
  {
    var dt := now - b.last;
    DivMul(b.burst, b.rate);
    Enough(b.burst / b.rate, dt, b.rate, b.burst);
    Growth(dt, b.rate);
    FullWith(b.tokens, dt * b.rate, b.burst);
  }

  lemma FullWith(tokens: real, earned: real, burst: real)
    requires tokens >= Least(0.0, burst) && earned >= burst && earned >= 0.0
    ensures tokens + earned >= burst
  {
  }

  lemma Enough(q: real, dt: real, r: real, x: real)
    requires q <= dt && 0.0 < r && q * r == x
    ensures dt * r >= x
  {
    MulOrder(q, dt, r);
  }

  /** A refill never takes tokens away, except those over the burst. */
  lemma RefillKeeps(b: Bucket, now: real)
    requires 0.0 <= b.rate && b.last <= now
    ensures Refill(b, now).tokens >= Least(b.tokens, b.burst)
  {
    Growth(now - b.last, b.rate);
    var earned := (now - b.last) * b.rate;
    assert b.tokens + earned >= b.tokens;
  }

  lemma TakeKeepsBucketOk(b: Bucket, now: real, req: Request)
    requires BucketOk(b, now) && now <= req.at
    ensures BucketOk(Take(b, req).0, req.at)
  {
    if b.rate > 0.0 {
      RefillKeeps(b, req.at);
      var r := Refill(b, req.at);
      assert r.tokens >= Least(0.0, r.burst);
    }
  }

  lemma RefillFull(b: Bucket, now: real)
    requires Full(b, now)
    ensures Refill(b, now) == Fresh(b.rate, b.burst, now)
  {
    var earned := (now - b.last) * b.rate;
    assert b.tokens + earned >= b.burst;
  }

  lemma RefillFresh(rate: real, burst: real, now: real)
    ensures Refill(Fresh(rate, burst, now), now) == Fresh(rate, burst, now)
  {
    assert (now - now) * rate == 0.0;
  }

  /** A full bucket serves a request exactly as a fresh one does. */
  lemma FullServesAsFresh(b: Bucket, req: Request)
    requires Full(b, req.at)
    ensures Take(b, req) == Take(Fresh(b.rate, b.burst, req.at), req)
  {
    RefillFull(b, req.at);
    RefillFresh(b.rate, b.burst, req.at);
  }

  lemma CleanupAgrees(swept: Store, plain: Store, before: real, now: real)
    requires Agree(swept, plain, before) && before <= now
    ensures Agree(Cleanup(swept, now), plain, now)
  {
    forall k | k in plain.buckets && k !in Cleanup(swept, now).buckets
      ensures Full(plain.buckets[k], now)
    {
      if k in swept.buckets {
        RefilledIsFull(plain.buckets[k], now);
      } else {
        FullStaysFull(plain.buckets[k], before, now);
      }
    }
  }

  /** The request is on a swept key, and its limits are not those of the bucket that the key had. */
  predicate Clashes(swept: Store, plain: Store, op: Op) {
    && op.TakeTokens? && op.key in plain.buckets && op.key !in swept.buckets
    && !(op.rate as real == plain.buckets[op.key].rate && op.burst as real == plain.buckets[op.key].burst)
  }

  lemma ServeAgrees(swept: Store, plain: Store, op: Op)
    requires Agree(swept, plain, op.now) && !Clashes(swept, plain, op)
    ensures Serve(swept, op).1 == Serve(plain, op).1
    ensures Agree(Serve(swept, op).0, Serve(plain, op).0, op.now)
  {
    if op.TakeTokens? {
      var req := Request(op.now, op.n as real);
      var b := BucketFor(plain, op);
      if op.key in plain.buckets && op.key !in swept.buckets {
        FullServesAsFresh(b, req);
      }
      assert Take(BucketFor(swept, op), req) == Take(b, req);
      TakeKeepsBucketOk(b, op.now, req);
    }
  }

  /** The store after a run. */
  function StoreAfter(s: Store, ops: seq<Op>, sweeping: bool): Store
    decreases |ops|
  {
    if ops == [] then s else StoreAfter(Step(s, ops[0], sweeping).0, ops[1..], sweeping)
  }

  /** No request of the run meets a swept key with limits that are not those of the bucket swept. */
  predicate ClashFree(swept: Store, plain: Store, ops: seq<Op>)
    decreases |ops|
  {
    ops == [] ||
    (!Clashes(Cleanup(swept, ops[0].now), plain, ops[0]) &&
     ClashFree(Step(swept, ops[0], true).0, Step(plain, ops[0], false).0, ops[1..]))
  }

  lemma {:induction false} AgreeingStoresAnswerAlike(swept: Store, plain: Store, now: real, ops: seq<Op>)
    requires Agree(swept, plain, now) && InOrder(now, ops) && ClashFree(swept, plain, ops)
    ensures Answers(swept, ops, true) == Answers(plain, ops, false)
    ensures Agree(StoreAfter(swept, ops, true), StoreAfter(plain, ops, false), if ops == [] then now else ops[|ops| - 1].now)
    decreases |ops|
  {
    if ops != [] {
      var op := ops[0];
      CleanupAgrees(swept, plain, now, op.now);
      ServeAgrees(Cleanup(swept, op.now), plain, op);
      AgreeingStoresAnswerAlike(Step(swept, op, true).0, Step(plain, op, false).0, op.now, ops[1..]);
    }
  }

  /** The buckets have their keys' limits. */
  ghost predicate HasLimits(s: Store, limits: map<string, (int, int)>) {
    forall k | k in s.buckets ::
      k in limits && s.buckets[k].rate == limits[k].0 as real && s.buckets[k].burst == limits[k].1 as real
  }

  lemma {:induction false} FixedLimitsNeverClash(swept: Store, plain: Store, now: real, ops: seq<Op>, limits: map<string, (int, int)>)
    requires HasLimits(plain, limits) && WellUsed(now, ops, limits)
    ensures ClashFree(swept, plain, ops)
    decreases |ops|
  {
    if ops != [] {
      RestIsWellUsed(now, ops, limits);
      FixedLimitsNeverClash(Step(swept, ops[0], true).0, Step(plain, ops[0], false).0, ops[0].now, ops[1..], limits);
    }
  }

  /** Every run gets the same answers from a store that sweeps as from one that never does. */
  lemma SweepingIsInvisible(start: real, ops: seq<Op>, limits: map<string, (int, int)>)
    requires WellUsed(start, ops, limits)
    ensures Answers(Empty(start), ops, true) == Answers(Empty(start), ops, false)
  {
    FixedLimitsNeverClash(Empty(start), Empty(start), start, ops, limits);
    AgreeingStoresAnswerAlike(Empty(start), Empty(start), start, ops);
  }

  // ---------------------------------------------------------------- when changed limits show the sweep

  lemma {:induction false} LastAnswer(s: Store, ops: seq<Op>, op: Op, sweeping: bool)
    ensures Answers(s, ops + [op], sweeping) == Answers(s, ops, sweeping) + [Step(StoreAfter(s, ops, sweeping), op, sweeping).1]
    decreases |ops|
  {
    if ops == [] {
      assert [op][1..] == [];
    } else {
      var s' := Step(s, ops[0], sweeping).0;
      assert (ops + [op])[1..] == ops[1..] + [op];
      LastAnswer(s', ops[1..], op, sweeping);
    }
  }

  /** `n` lies between the two bursts: one bucket, full, can serve it and the other, full, cannot. */
  predicate Between(n: real, burst: real, burst': real) {
    burst < n <= burst' || burst' < n <= burst
  }

  /** The operation is a request on a swept key, for a number between the burst the key had and the new one. */
  predicate Shows(swept: Store, plain: Store, op: Op) {
    && op.TakeTokens? && op.key in plain.buckets && op.key !in swept.buckets
    && Between(op.n as real, plain.buckets[op.key].burst, op.burst as real)
  }

  /** From agreeing stores any operation, whatever its limits, is answered alike if and only if it does not show. */
  lemma AnsweredAlikeUnlessShown(swept: Store, plain: Store, op: Op)
    requires Agree(swept, plain, op.now)
    ensures Serve(swept, op).1 == Serve(plain, op).1 <==> !Shows(swept, plain, op)
  {
    if op.TakeTokens? && op.key in plain.buckets && op.key !in swept.buckets {
      RefillFull(plain.buckets[op.key], op.now);
      RefillFresh(op.rate as real, op.burst as real, op.now);
    }
  }

  /** In any run, whatever its limits, the answers before the first clash are alike; and the answer to the operation
      that follows, clash or not, differs if and only if its key has been swept by then and it asks for a number
      between the old burst and the new one.  So a new rate alone never shows at once. */
  lemma ChangeShowsIff(start: real, ops: seq<Op>, op: Op)
    requires InOrder(start, ops + [op]) && ClashFree(Empty(start), Empty(start), ops)
    ensures var swept, plain := Cleanup(StoreAfter(Empty(start), ops, true), op.now), StoreAfter(Empty(start), ops, false);
            Answers(Empty(start), ops + [op], true) == Answers(Empty(start), ops + [op], false) <==> !Shows(swept, plain, op)
  {
    var all := ops + [op];
    assert all[|ops|] == op && forall i | 0 <= i < |ops| :: all[i] == ops[i];
    AgreeingStoresAnswerAlike(Empty(start), Empty(start), start, ops);
    LastAnswer(Empty(start), ops, op, true);
    LastAnswer(Empty(start), ops, op, false);
    var swept, plain := StoreAfter(Empty(start), ops, true), StoreAfter(Empty(start), ops, false);
    CleanupAgrees(swept, plain, if ops == [] then start else ops[|ops| - 1].now, op.now);
    AnsweredAlikeUnlessShown(Cleanup(swept, op.now), plain, op);
    SameEnds(Answers(Empty(start), ops, true), Step(swept, op, true).1, Step(plain, op, false).1);
  }

  lemma SameEnds(answers: seq<Answer>, x: Answer, y: Answer)
    ensures answers + [x] == answers + [y] <==> x == y
  {
    assert (answers + [x])[|answers|] == x && (answers + [y])[|answers|] == y;
  }

  /** For two requests on one key, in terms of the requests alone: the sweep shows if and only if the second comes
      when a sweep is due, the key's bucket has had time to refill, and the number lies between the two bursts. */
  lemma ChangingLimitsShowTheSweep(key: string, rate: int, burst: int, n: int, now: real, rate': int, burst': int, n': int)
    requires 0.0 <= now
    ensures var ops := [TakeTokens(0.0, key, rate, burst, n), TakeTokens(now, key, rate', burst', n')];
            Answers(Empty(0.0), ops, true) != Answers(Empty(0.0), ops, false) <==>
              now >= 60.0 && rate > 0 && now >= burst as real / rate as real && Between(n' as real, burst as real, burst' as real)
  {
    var first, second := TakeTokens(0.0, key, rate, burst, n), TakeTokens(now, key, rate', burst', n');
    var held := Serve(Empty(0.0), first).0;
    assert Cleanup(Empty(0.0), 0.0) == Empty(0.0);
    assert forall sweeping :: StoreAfter(Empty(0.0), [first], sweeping) == held;
    assert held.buckets.Keys == {key} && held.buckets[key].rate == rate as real && held.buckets[key].burst == burst as real && held.buckets[key].last == 0.0;
    assert key in Cleanup(held, now).buckets <==> now < CLEANUP_INTERVAL || !Refilled(held.buckets[key], now);
    assert ClashFree(Empty(0.0), Empty(0.0), [first]);
    ChangeShowsIff(0.0, [first], second);
    assert [first] + [second] == [first, second];
  }

  /** So every change of the burst of a key that refills shows in some run of two requests: say, the burst of a
      bucket of one token raised to ten, and five tokens asked for a minute later. */
  lemma ChangedBurstShows(key: string, rate: int, burst: int, burst': int, n: int)
    requires rate > 0 && Between(n as real, burst as real, burst' as real)
    ensures var refill := burst as real / rate as real;
            var now := if refill > CLEANUP_INTERVAL then refill else CLEANUP_INTERVAL;
            var ops := [TakeTokens(0.0, key, rate, burst, 0), TakeTokens(now, key, rate, burst', n)];
            Answers(Empty(0.0), ops, true) != Answers(Empty(0.0), ops, false)
  {
    var refill := burst as real / rate as real;
    var now := if refill > CLEANUP_INTERVAL then refill else CLEANUP_INTERVAL;
    ChangingLimitsShowTheSweep(key, rate, burst, 0, now, rate, burst', n);
  }

  // ---------------------------------------------------------------- one token bucket per key

  /** The requests of a run on one key. */
  function TakesOf(ops: seq<Op>, key: string): seq<Request> {
    if ops == [] then [] else
      (if ops[0].TakeTokens? && ops[0].key == key then [Request(ops[0].now, ops[0].n as real)] else []) + TakesOf(ops[1..], key)
  }

  /** The answers to those requests. */
  function GrantsOf(ops: seq<Op>, answers: seq<Answer>, key: string): seq<bool>
    requires |ops| == |answers|
  {
    if ops == [] then [] else
      (if ops[0].TakeTokens? && ops[0].key == key then [answers[0] == Allowed(true)] else []) + GrantsOf(ops[1..], answers[1..], key)
  }

  /** What a token bucket of its own answers. */
  function BucketAnswers(b: Bucket, reqs: seq<Request>): (r: seq<bool>)
    ensures |r| == |reqs|
    decreases |reqs|
  {
    if reqs == [] then [] else [Take(b, reqs[0]).1] + BucketAnswers(Take(b, reqs[0]).0, reqs[1..])
  }

  lemma {:induction false} AfterHead(b: Bucket, reqs: seq<Request>)
    requires reqs != []
    ensures After(b, reqs) == After(Take(b, reqs[0]).0, reqs[1..])
  {
    if |reqs| > 1 {
      var before := reqs[..|reqs| - 1];
      AfterHead(b, before);
      assert before[1..] == reqs[1..][..|reqs| - 2];
    }
  }

  lemma {:induction false} BucketAnswersAreGrants(b: Bucket, reqs: seq<Request>, j: nat)
    requires j < |reqs|
    ensures BucketAnswers(b, reqs)[j] == Granted(b, reqs, j)
    decreases j
  {
    if j > 0 {
      BucketAnswersAreGrants(Take(b, reqs[0]).0, reqs[1..], j - 1);
      AfterHead(b, reqs[..j]);
      assert reqs[..j][1..] == reqs[1..][..j - 1];
    }
  }

  /** In a store that never sweeps, a key's requests meet one bucket. */
  lemma {:induction false} PlainStoreIsBuckets(s: Store, now: real, ops: seq<Op>, limits: map<string, (int, int)>, key: string, b: Bucket)
    requires WellUsed(now, ops, limits)
    requires if key in s.buckets then b == s.buckets[key]
             else key in limits && TakesOf(ops, key) != [] ==>
                    b == Fresh(limits[key].0 as real, limits[key].1 as real, TakesOf(ops, key)[0].at)
    ensures GrantsOf(ops, Answers(s, ops, false), key) == BucketAnswers(b, TakesOf(ops, key))
    decreases |ops|
  {
    if ops != [] {
      var op, rest := ops[0], ops[1..];
      var s' := Step(s, op, false).0;
      RestIsWellUsed(now, ops, limits);
      assert Answers(s, ops, false)[1..] == Answers(s', rest, false);
      if op.TakeTokens? && op.key == key {
        var req := Request(op.now, op.n as real);
        assert TakesOf(ops, key)[0] == req && TakesOf(ops, key)[1..] == TakesOf(rest, key);
        assert b == BucketFor(s, op);
        PlainStoreIsBuckets(s', op.now, rest, limits, key, Take(b, req).0);
      } else {
        assert TakesOf(ops, key) == TakesOf(rest, key);
        PlainStoreIsBuckets(s', op.now, rest, limits, key, b);
      }
    }
  }

  lemma RestIsWellUsed(now: real, ops: seq<Op>, limits: map<string, (int, int)>)
    requires WellUsed(now, ops, limits) && ops != []
    ensures Limited(ops[0], limits) && WellUsed(ops[0].now, ops[1..], limits)
  {
    assert ops[0] in ops && forall x | x in ops[1..] :: x in ops;
  }

  /** Over any run, the sweeping store answers each key as a token bucket of its own would. */
  lemma StoreIsTokenBuckets(start: real, ops: seq<Op>, limits: map<string, (int, int)>, key: string)
    requires WellUsed(start, ops, limits) && key in limits && TakesOf(ops, key) != []
    ensures GrantsOf(ops, Answers(Empty(start), ops, true), key) ==
            BucketAnswers(Fresh(limits[key].0 as real, limits[key].1 as real, TakesOf(ops, key)[0].at), TakesOf(ops, key))
  {
    SweepingIsInvisible(start, ops, limits);
    PlainStoreIsBuckets(Empty(start), start, ops, limits, key,
                        Fresh(limits[key].0 as real, limits[key].1 as real, TakesOf(ops, key)[0].at));
  }

  /** So a request is allowed exactly when the key's grants since each of its earlier requests, and it,
      stay within burst + rate * elapsed. */
  lemma BucketAnswersByTheLaw(b: Bucket, reqs: seq<Request>, j: nat)
    requires j < |reqs| && b.tokens == b.burst && 0.0 <= b.rate && b.last <= reqs[0].at
    ensures BucketAnswers(b, reqs)[j] <==>
            forall i | 0 <= i <= j :: Spent(b, reqs, i, j) + reqs[j].n <= b.burst + (reqs[j].at - reqs[i].at) * b.rate
  {
    BucketAnswersAreGrants(b, reqs, j);
    GrantedIffWithinEveryLaw(b, reqs, j);
  }

  /** Over any run of the sweeping store, each key's answers are the lawful ones for its rate and burst: a request is
      allowed if and only if, since each of the key's earlier requests, what was given and it stay within
      burst + rate * elapsed. */
  lemma StoreIsLawful(start: real, ops: seq<Op>, limits: map<string, (int, int)>, key: string)
    requires WellUsed(start, ops, limits) && key in limits && limits[key].0 >= 0
    ensures Lawful(limits[key].0 as real, limits[key].1 as real, TakesOf(ops, key), GrantsOf(ops, Answers(Empty(start), ops, true), key))
  {
    var reqs, answers := TakesOf(ops, key), GrantsOf(ops, Answers(Empty(start), ops, true), key);
    SameLength(ops, Answers(Empty(start), ops, true), key);
    if reqs != [] {
      StoreIsTokenBuckets(start, ops, limits, key);
      var b := Fresh(limits[key].0 as real, limits[key].1 as real, reqs[0].at);
      forall l | 0 <= l < |reqs|
        ensures answers[l] == Granted(b, reqs, l)
      {
        BucketAnswersAreGrants(b, reqs, l);
      }
      GrantsAreLawful(b, reqs, answers);
    }
  }

  lemma {:induction false} SameLength(ops: seq<Op>, answers: seq<Answer>, key: string)
    requires |ops| == |answers|
    ensures |TakesOf(ops, key)| == |GrantsOf(ops, answers, key)|
  {
    if ops != [] {
      SameLength(ops[1..], answers[1..], key);
    }
  }

  // ---------------------------------------------------------------- one counting window per key

  datatype Hit = Hit(at: real, window: real)

  function HitsOf(ops: seq<Op>, key: string): seq<Hit> {
    if ops == [] then [] else
      (if ops[0].IncrWindow? && ops[0].key == key then [Hit(ops[0].now, ops[0].window)] else []) + HitsOf(ops[1..], key)
  }

  function CountsOf(ops: seq<Op>, answers: seq<Answer>, key: string): seq<Answer>
    requires |ops| == |answers|
  {
    if ops == [] then [] else
      (if ops[0].IncrWindow? && ops[0].key == key then [answers[0]] else []) + CountsOf(ops[1..], answers[1..], key)
  }

  /** The window after a run of hits on one key: a hit joins it, or opens the next one once it is over. */
  function WindowAfter(hits: seq<Hit>): Window {
    if hits == [] then Window(0, 0.0) else
      var before, hit := hits[..|hits| - 1], hits[|hits| - 1];
      var w := WindowAfter(before);
      if before == [] || Expired(w, hit.at) then Window(1, hit.at + hit.window) else w.(count := w.count + 1)
  }

  /** The count `c` given to hit `j` names its window: hit j - c + 1 opened it, because it was the first or found
      the window before over, and every later hit up to `j` came before it was over. */
  lemma {:induction false} CountNamesTheWindow(hits: seq<Hit>, j: nat) returns (o: nat)
    requires j < |hits|
    ensures o <= j && WindowAfter(hits[..j + 1]) == Window(j - o + 1, hits[o].at + hits[o].window)
    ensures forall i | o < i <= j :: hits[i].at < hits[o].at + hits[o].window
    ensures o > 0 ==> WindowAfter(hits[..o]).expires <= hits[o].at
  {
    assert hits[..j + 1][..j] == hits[..j];
    if j == 0 {
      o := 0;
    } else {
      o := CountNamesTheWindow(hits, j - 1);
      assert hits[..j - 1 + 1] == hits[..j];
      if Expired(WindowAfter(hits[..j]), hits[j].at) {
        o := j;
      }
    }
  }

  /** What the windows of one key answer to hits that follow on earlier ones. */
  function WindowAnswers(earlier: seq<Hit>, hits: seq<Hit>): (r: seq<Answer>)
    ensures |r| == |hits|
    decreases |hits|
  {
    if hits == [] then [] else
      var now := earlier + [hits[0]];
      [Counted(WindowAfter(now).count)] + WindowAnswers(now, hits[1..])
  }

  lemma {:induction false} WindowAnswersAt(earlier: seq<Hit>, hits: seq<Hit>, i: nat)
    requires i < |hits|
    ensures WindowAnswers(earlier, hits)[i] == Counted(WindowAfter(earlier + hits[..i + 1]).count)
    decreases |hits|
  {
    var now := earlier + [hits[0]];
    if i == 0 {
      assert hits[..1] == [hits[0]];
    } else {
      WindowAnswersAt(now, hits[1..], i - 1);
      assert now + hits[1..][..i] == earlier + hits[..i + 1];
    }
  }

  lemma HitJoins(s: Store, op: Op, earlier: seq<Hit>)
    requires op.IncrWindow?
    requires if earlier == [] then op.key !in s.windows else op.key in s.windows && s.windows[op.key] == WindowAfter(earlier)
    ensures var now := WindowAfter(earlier + [Hit(op.now, op.window)]);
            Serve(s, op) == (s.(windows := s.windows[op.key := now]), Counted(now.count))
  {
    assert (earlier + [Hit(op.now, op.window)])[..|earlier|] == earlier;
  }

  lemma {:induction false} PlainStoreIsWindows(s: Store, ops: seq<Op>, key: string, earlier: seq<Hit>)
    requires if earlier == [] then key !in s.windows else key in s.windows && s.windows[key] == WindowAfter(earlier)
    ensures CountsOf(ops, Answers(s, ops, false), key) == WindowAnswers(earlier, HitsOf(ops, key))
    decreases |ops|
  {
    if ops != [] {
      var op := ops[0];
      var s' := Step(s, op, false).0;
      assert Answers(s, ops, false)[1..] == Answers(s', ops[1..], false);
      if op.IncrWindow? && op.key == key {
        HitJoins(s, op, earlier);
        PlainStoreIsWindows(s', ops[1..], key, earlier + [Hit(op.now, op.window)]);
        assert HitsOf(ops, key)[1..] == HitsOf(ops[1..], key);
      } else {
        PlainStoreIsWindows(s', ops[1..], key, earlier);
        assert HitsOf(ops, key) == HitsOf(ops[1..], key);
      }
    }
  }

  /** Over any run of the sweeping store, the i-th hit on a key is answered with the count of its window. */
  lemma StoreIsCountingWindows(start: real, ops: seq<Op>, limits: map<string, (int, int)>, key: string, i: nat)
    requires WellUsed(start, ops, limits) && i < |HitsOf(ops, key)|
    ensures var counts := CountsOf(ops, Answers(Empty(start), ops, true), key);
            |counts| == |HitsOf(ops, key)| && counts[i] == Counted(WindowAfter(HitsOf(ops, key)[..i + 1]).count)
  {
    SweepingIsInvisible(start, ops, limits);
    PlainStoreIsWindows(Empty(start), ops, key, []);
    WindowAnswersAt([], HitsOf(ops, key), i);
    assert [] + HitsOf(ops, key)[..i + 1] == HitsOf(ops, key)[..i + 1];
  }

  // ---------------------------------------------------------------- the store object

  class MemStore {
    var buckets: map<string, Bucket>
    var windows: map<string, Window>
    var lastCleanup: real

    ghost function View(): Store
      reads this
    {
      Store(buckets, windows, lastCleanup)
    }

    constructor (now: real)
      ensures View() == Empty(now)
    {
      buckets, windows, lastCleanup := map[], map[], now;
    }

    method CleanupLocked(now: real)
      modifies this
      ensures View() == Cleanup(old(View()), now)
      ensures if now - old(lastCleanup) < 60.0 then View() == old(View())
              else
                && lastCleanup == now
                && windows == (map k | k in old(windows) && now < old(windows)[k].expires :: old(windows)[k])
                && buckets == map k | k in old(buckets) && (old(buckets)[k].rate <= 0.0 || now - old(buckets)[k].last < old(buckets)[k].burst / old(buckets)[k].rate) ::
                                old(buckets)[k]
    {
      if now - lastCleanup < CLEANUP_INTERVAL {
        return;
      }
      lastCleanup := now;
      SweepWindows(now);
      SweepBuckets(now);
    }

    method SweepWindows(now: real)
      modifies this`windows
      ensures windows == map k | k in old(windows) && !Expired(old(windows)[k], now) :: old(windows)[k]
    {
      var todo := windows.Keys;
      while todo != {}
        invariant todo <= old(windows).Keys
        invariant windows == map k | k in old(windows) && (k in todo || !Expired(old(windows)[k], now)) :: old(windows)[k]
        decreases |todo|
      {
        var k :| k in todo;
        if windows[k].expires <= now {
          windows := windows - {k};
        }
        todo := todo - {k};
      }
    }

    method SweepBuckets(now: real)
      modifies this`buckets
      ensures buckets == map k | k in old(buckets) && !Refilled(old(buckets)[k], now) :: old(buckets)[k]
    {
      var todo := buckets.Keys;
      while todo != {}
        invariant todo <= old(buckets).Keys
        invariant buckets == map k | k in old(buckets) && (k in todo || !Refilled(old(buckets)[k], now)) :: old(buckets)[k]
        decreases |todo|
      {
        var k :| k in todo;
        if Refilled(buckets[k], now) {
          buckets := buckets - {k};
        }
        todo := todo - {k};
      }
    }

    method TakeTokens(now: real, key: string, rate: int, burst: int, n: int) returns (ok: bool)
      modifies this
      ensures (View(), Allowed(ok)) == Step(old(View()), Op.TakeTokens(now, key, rate, burst, n), true)
    {
      CleanupLocked(now);
      var b := if key in buckets then buckets[key] else Fresh(rate as real, burst as real, now);
      b := Refill(b, now);
      ok := b.tokens >= n as real;
      if ok {
        b := b.(tokens := b.tokens - n as real);
      }
      buckets := buckets[key := b];
    }

    method IncrWindow(now: real, key: string, window: real) returns (count: int)
      modifies this
      ensures (View(), Counted(count)) == Step(old(View()), Op.IncrWindow(now, key, window), true)
    {
      CleanupLocked(now);
      var w := if key in windows && windows[key].expires > now then windows[key] else Window(0, now + window);
      w := w.(count := w.count + 1);
      windows := windows[key := w];
      return w.count;
    }
  }
}
