/** The timing wheel as a value: what the slot lists and the key index mean.

    A wheel has `numSlots` slots and visits the next one on every tick.  A pending
    timer sits in one slot, waits `circle` further visits of it, and then moves
    `diff` slots ahead before it fires.  Every operation of the wheel is a function
    on this value; the lemmas say on which tick a timer fires over whole runs. */
module WheelSpec {
  import opened Arithmetic
  import opened Wrappers

  datatype Timer<V> = Timer(value: V, pos: nat, circle: nat, diff: nat)

  datatype Wheel<K, V> = Wheel(numSlots: nat, interval: int, tickedPos: nat, timers: map<K, Timer<V>>)

  ghost predicate Valid<K, V>(w: Wheel<K, V>) {
    && 0 < w.interval
    && w.tickedPos < w.numSlots
    && forall k | k in w.timers :: w.timers[k].pos < w.numSlots && w.timers[k].diff < w.numSlots
  }

  // ---------------------------------------------------------------- operations

  /** The slot and the number of full revolutions that a delay stands for. */
  function Place<K, V>(w: Wheel<K, V>, delay: int): (r: (nat, nat))
    requires 0 < w.numSlots && 0 < w.interval <= delay
    ensures r.0 < w.numSlots
  {
    DivAtLeastOne(delay, w.interval);
    var steps := delay / w.interval;
    ((w.tickedPos + steps) % w.numSlots, (steps - 1) / w.numSlots)
  }

  /** Reschedules a pending timer, in one of three ways. */
  function Reschedule<K, V>(w: Wheel<K, V>, t: Timer<V>, delay: int): Timer<V>
    requires Valid(w) && w.interval <= delay && t.pos < w.numSlots
  {
    var (pos, circle) := Place(w, delay);
    if pos >= t.pos then t.(circle := circle, diff := pos - t.pos)
    else if circle > 0 then t.(circle := circle - 1, diff := w.numSlots + pos - t.pos)
    else Timer(t.value, pos, 0, 0)
  }

  function MoveTask<K, V>(w: Wheel<K, V>, k: K, delay: int): (r: (Wheel<K, V>, map<K, V>))
    requires Valid(w)
  {
    if k !in w.timers then (w, map[])
    else if delay < w.interval then (w, map[k := w.timers[k].value])
    else (w.(timers := w.timers[k := Reschedule(w, w.timers[k], delay)]), map[])
  }

  function SetTask<K, V>(w: Wheel<K, V>, k: K, v: V, delay: int): Wheel<K, V>
    requires Valid(w)
  {
    var d := if delay < w.interval then w.interval else delay;
    if k in w.timers then
      w.(timers := w.timers[k := Reschedule(w, w.timers[k].(value := v), d)])
    else
      var (pos, circle) := Place(w, d);
      w.(timers := w.timers[k := Timer(v, pos, circle, 0)])
  }

  function RemoveTask<K, V>(w: Wheel<K, V>, k: K): Wheel<K, V> {
    w.(timers := w.timers - {k})
  }

  /** A visit of slot `now` fires a timer that sits there with nothing left to wait for. */
  predicate FiresAt<V>(t: Timer<V>, now: nat) {
    t.pos == now && t.circle == 0 && t.diff == 0
  }

  /** What a visit of slot `now` does to a timer that does not fire. */
  function Advance<V>(numSlots: nat, now: nat, t: Timer<V>): Timer<V>
    requires 0 < numSlots
  {
    if t.pos != now then t
    else if t.circle > 0 then t.(circle := t.circle - 1)
    else t.(pos := (now + t.diff) % numSlots, diff := 0)
  }

  function FiredBy<K, V>(timers: map<K, Timer<V>>, now: nat): map<K, V> {
    map k | k in timers && FiresAt(timers[k], now) :: timers[k].value
  }

  function Kept<K, V>(numSlots: nat, timers: map<K, Timer<V>>, now: nat): map<K, Timer<V>>
    requires 0 < numSlots
  {
    map k | k in timers && !FiresAt(timers[k], now) :: Advance(numSlots, now, timers[k])
  }

  function NextPos<K, V>(w: Wheel<K, V>): nat
    requires 0 < w.numSlots
  {
    (w.tickedPos + 1) % w.numSlots
  }

  function OnTick<K, V>(w: Wheel<K, V>): (r: (Wheel<K, V>, map<K, V>))
    requires Valid(w)
  {
    var now := NextPos(w);
    (w.(tickedPos := now, timers := Kept(w.numSlots, w.timers, now)), FiredBy(w.timers, now))
  }

  function Values<K, V>(timers: map<K, Timer<V>>): map<K, V> {
    map k | k in timers :: timers[k].value
  }

  // ---------------------------------------------------------------- runs

  datatype Op<K, V> = Set(key: K, value: V, delay: int) | Move(key: K, delay: int) | Remove(key: K) | Tick | Drain

  /** One turn of the wheel's loop: the new wheel and what it fires.  A set or move
      whose delay is not positive is rejected before it reaches the wheel. */
  function Step<K, V>(w: Wheel<K, V>, op: Op<K, V>): (Wheel<K, V>, map<K, V>)
    requires Valid(w)
  {
    match op
    case Set(k, v, delay) => if delay <= 0 then (w, map[]) else (SetTask(w, k, v, delay), map[])
    case Move(k, delay) => if delay <= 0 then (w, map[]) else MoveTask(w, k, delay)
    case Remove(k) => (RemoveTask(w, k), map[])
    case Tick => OnTick(w)
    case Drain => (w.(timers := map[]), Values(w.timers))
  }

  lemma StepValid<K, V>(w: Wheel<K, V>, op: Op<K, V>)
    requires Valid(w)
    ensures Valid(Step(w, op).0)
    ensures Step(w, op).0.numSlots == w.numSlots && Step(w, op).0.interval == w.interval
  {
  }

  function Run<K, V>(w: Wheel<K, V>, ops: seq<Op<K, V>>): (r: Wheel<K, V>)
    requires Valid(w)
    ensures Valid(r)
    decreases |ops|
  {
    if ops == [] then w else StepValid(w, ops[0]); Run(Step(w, ops[0]).0, ops[1..])
  }

  /** What each operation of a run fires, in order. */
  function Fired<K, V>(w: Wheel<K, V>, ops: seq<Op<K, V>>): (r: seq<map<K, V>>)
    requires Valid(w)
    ensures |r| == |ops|
    decreases |ops|
  {
    if ops == [] then [] else StepValid(w, ops[0]); [Step(w, ops[0]).1] + Fired(Step(w, ops[0]).0, ops[1..])
  }

  // ---------------------------------------------------------------- when a timer is due

  /** Ticks until slot `pos` is next visited, in 1..numSlots. */
  function Gap<K, V>(w: Wheel<K, V>, pos: nat): (r: nat)
    requires w.tickedPos < w.numSlots && pos < w.numSlots
    ensures 1 <= r <= w.numSlots
  {
    if pos > w.tickedPos then pos - w.tickedPos else pos + w.numSlots - w.tickedPos
  }

  /** The ticks of `circle` whole revolutions. */
  function Turns(circle: nat, n: nat): (r: nat)
  {
    if circle == 0 then 0 else n + Turns(circle - 1, n)
  }

  lemma {:induction false} TurnsIsProduct(circle: nat, n: nat)
    ensures Turns(circle, n) == circle * n
  {
    if circle > 0 {
      TurnsIsProduct(circle - 1, n);
      assert circle * n == (circle - 1) * n + n;
    }
  }

  /** Ticks until a timer fires if nobody touches it. */
  function Due<K, V>(w: Wheel<K, V>, t: Timer<V>): (r: nat)
    requires w.tickedPos < w.numSlots && t.pos < w.numSlots
    ensures r >= 1
  {
    Gap(w, t.pos) + Turns(t.circle, w.numSlots) + t.diff
  }

  /** A slot and revolution count always encode the whole number of steps of the delay. */
  lemma PlaceIsExact<K, V>(w: Wheel<K, V>, delay: int)
    requires w.tickedPos < w.numSlots && 0 < w.interval <= delay
    ensures var (pos, circle) := Place(w, delay); Gap(w, pos) + Turns(circle, w.numSlots) == delay / w.interval
  {
    DivAtLeastOne(delay, w.interval);
    var n, t, s := w.numSlots, w.tickedPos, delay / w.interval;
    var c, r := (s - 1) / n, (s - 1) % n;
    assert s - 1 == c * n + r;
    TurnsIsProduct(c, n);
    if t + 1 + r < n {
      DivModUnique(t + s, c, t + 1 + r, n);
    } else {
      assert (c + 1) * n == c * n + n;
      DivModUnique(t + s, c + 1, t + 1 + r - n, n);
    }
  }

  /** How a tick shifts the ring: every slot comes one tick closer, and the visited one goes last. */
  lemma TickShiftsGaps<K, V>(w: Wheel<K, V>, pos: nat, d: nat)
    requires w.tickedPos < w.numSlots && pos < w.numSlots && 0 < d < w.numSlots
    ensures var w' := w.(tickedPos := NextPos(w));
            && w'.tickedPos < w.numSlots
            && (pos == w'.tickedPos <==> Gap(w, pos) == 1)
            && (pos == w'.tickedPos ==> Gap(w', pos) == w.numSlots)
            && (pos != w'.tickedPos ==> Gap(w', pos) == Gap(w, pos) - 1)
            && Gap(w', (w'.tickedPos + d) % w.numSlots) == d
  {
    RingAdd(w.tickedPos, 1, w.numSlots);
    RingAdd(NextPos(w), d, w.numSlots);
  }

  lemma AdvanceCountsDown<K, V>(w: Wheel<K, V>, t: Timer<V>)
    requires w.tickedPos < w.numSlots && t.pos < w.numSlots && t.diff < w.numSlots
    ensures FiresAt(t, NextPos(w)) <==> Due(w, t) == 1
    ensures var w' := w.(tickedPos := NextPos(w));
            !FiresAt(t, NextPos(w)) ==> Due(w', Advance(w.numSlots, w'.tickedPos, t)) == Due(w, t) - 1
  {
    if w.numSlots > 1 {
      TickShiftsGaps(w, t.pos, if t.diff > 0 then t.diff else 1);
    } else {
      RingAdd(0, 1, 1);
    }
  }

  /** A timer that does not fire on a tick is one tick closer; it fires exactly when due. */
  lemma TickCountsDown<K, V>(w: Wheel<K, V>, k: K)
    requires Valid(w) && k in w.timers
    ensures var (w', fired) := OnTick(w);
            var t := w.timers[k];
            && (k in fired <==> Due(w, t) == 1)
            && (k in fired ==> fired[k] == t.value && k !in w'.timers)
            && (k !in fired ==> k in w'.timers && w'.timers[k].value == t.value
                                && w'.tickedPos < w'.numSlots && w'.timers[k].pos < w'.numSlots
                                && Due(w', w'.timers[k]) == Due(w, t) - 1)
  {
    AdvanceCountsDown(w, w.timers[k]);
    AdvanceIgnoresTimers(w, Advance(w.numSlots, NextPos(w), w.timers[k]));
  }

  lemma AdvanceIgnoresTimers<K, V>(w: Wheel<K, V>, t: Timer<V>)
    requires Valid(w)
    ensures OnTick(w).0.tickedPos < w.numSlots
    ensures t.pos < w.numSlots ==> Due(OnTick(w).0, t) == Due(w.(tickedPos := NextPos(w)), t)
  {
  }

  // ---------------------------------------------------------------- whole runs

  /** The operation neither sets, moves, removes nor drains `k`. */
  ghost predicate LeavesAlone<K, V>(op: Op<K, V>, k: K) {
    op.Tick? || (!op.Drain? && op.key != k)
  }

  function Ticks<K, V>(ops: seq<Op<K, V>>): nat {
    if ops == [] then 0 else (if ops[0].Tick? then 1 else 0) + Ticks(ops[1..])
  }

  lemma {:induction false} AbsentNeverFires<K, V>(w: Wheel<K, V>, ops: seq<Op<K, V>>, k: K)
    requires Valid(w) && k !in w.timers
    requires forall op | op in ops :: !(op.Set? && op.key == k)
    ensures forall j | 0 <= j < |ops| :: k !in Fired(w, ops)[j]
    ensures k !in Run(w, ops).timers
    decreases |ops|
  {
    if ops != [] {
      StepValid(w, ops[0]);
      AbsentNeverFires(Step(w, ops[0]).0, ops[1..], k);
    }
  }

  /** One operation that leaves `k` alone: only a tick brings it closer, and only the due tick fires it. */
  lemma StepLeavesAlone<K, V>(w: Wheel<K, V>, op: Op<K, V>, k: K)
    requires Valid(w) && k in w.timers && LeavesAlone(op, k)
    ensures Valid(Step(w, op).0)
    ensures var (w', fired) := Step(w, op);
            var t := w.timers[k];
            && (k in fired <==> op.Tick? && Due(w, t) == 1)
            && (k in fired ==> fired[k] == t.value && k !in w'.timers)
            && (k !in fired ==> k in w'.timers && w'.timers[k].value == t.value
                                && Due(w', w'.timers[k]) == Due(w, t) - (if op.Tick? then 1 else 0))
  {
    StepValid(w, op);
    if op.Tick? {
      TickCountsDown(w, k);
    }
  }

  lemma TicksHead<K, V>(ops: seq<Op<K, V>>, j: nat)
    requires j < |ops|
    ensures Ticks(ops[..j + 1]) == (if ops[0].Tick? then 1 else 0) + Ticks(ops[1..][..j])
  {
    assert ops[..j + 1][1..] == ops[1..][..j];
  }

  lemma {:induction false} TicksPositive<K, V>(ops: seq<Op<K, V>>, i: nat)
    requires i < |ops| && ops[i].Tick?
    ensures Ticks(ops) >= 1
  {
    if i > 0 {
      TicksPositive(ops[1..], i - 1);
    }
  }

  /** A pending timer that is left alone fires exactly once, on its due tick, with its value,
      whatever happens to other keys. */
  lemma {:induction false} FiresOnDueTick<K, V>(w: Wheel<K, V>, ops: seq<Op<K, V>>, k: K, j: nat)
    requires Valid(w) && k in w.timers && j < |ops|
    requires forall op | op in ops :: LeavesAlone(op, k)
    ensures k in Fired(w, ops)[j] <==> ops[j].Tick? && Ticks(ops[..j + 1]) == Due(w, w.timers[k])
    ensures k in Fired(w, ops)[j] ==> Fired(w, ops)[j][k] == w.timers[k].value
    decreases j
  {
    var rest := ops[1..];
    var w' := Step(w, ops[0]).0;
    StepLeavesAlone(w, ops[0], k);
    TicksHead(ops, j);
    if j > 0 {
      assert forall op | op in rest :: op in ops;
      if k in w'.timers {
        FiresOnDueTick(w', rest, k, j - 1);
      } else {
        AbsentNeverFires(w', rest, k);
        if ops[j].Tick? {
          TicksPositive(rest[..j], j - 1);
        }
      }
      assert Fired(w, ops)[j] == Fired(w', rest)[j - 1];
    }
  }

  /** A timer set on a fresh key fires on exactly the max(1, delay / interval)-th tick afterwards. */
  lemma SetFiresOnTime<K, V>(w: Wheel<K, V>, k: K, v: V, delay: int, ops: seq<Op<K, V>>, j: nat)
    requires Valid(w) && k !in w.timers && delay > 0 && j < |ops|
    requires forall op | op in ops :: LeavesAlone(op, k)
    ensures Valid(SetTask(w, k, v, delay))
    ensures var fired := Fired(SetTask(w, k, v, delay), ops)[j];
            var steps := delay / w.interval;
            && (k in fired <==> ops[j].Tick? && Ticks(ops[..j + 1]) == if steps < 1 then 1 else steps)
            && (k in fired ==> fired[k] == v)
  {
    StepValid(w, Set(k, v, delay));
    var w' := SetTask(w, k, v, delay);
    var d := if delay < w.interval then w.interval else delay;
    PlaceIsExact(w, d);
    if delay < w.interval {
      DivModUnique(delay, 0, delay, w.interval);
      DivModUnique(d, 1, 0, w.interval);
    } else {
      DivAtLeastOne(delay, w.interval);
    }
    assert Due(w', w'.timers[k]) == d / w.interval;
    FiresOnDueTick(w', ops, k, j);
  }

  /** Whether a move by `delay` lands on time: decided by the branch and by which of the two slots,
      old or new, the wheel visits first. */
  predicate MovesOnTime<K, V>(w: Wheel<K, V>, t: Timer<V>, delay: int)
    requires Valid(w) && w.interval <= delay && t.pos < w.numSlots
  {
    var (pos, circle) := Place(w, delay);
    var a, b := Gap(w, t.pos), Gap(w, pos);
    if pos >= t.pos then b >= a
    else if circle > 0 then b < a
    else true
  }

  /** How many ticks after the requested one a rescheduled timer is due: none when it moves on time, otherwise one
      whole revolution, late in the first branch and early in the second. */
  function Slip<K, V>(w: Wheel<K, V>, t: Timer<V>, delay: int): (r: int)
    requires Valid(w) && w.interval <= delay && t.pos < w.numSlots
    ensures r == 0 <==> MovesOnTime(w, t, delay)
    ensures r != 0 ==> r == if Place(w, delay).0 >= t.pos then w.numSlots else -(w.numSlots as int)
  {
    PlaceIsExact(w, delay);
    Due(w, Reschedule(w, t, delay)) - delay / w.interval
  }

  /** A rescheduled timer is due on the requested tick if and only if it moves on time; otherwise one revolution
      late in the first branch and early in the second. */
  lemma RescheduleDue<K, V>(w: Wheel<K, V>, t: Timer<V>, delay: int)
    requires Valid(w) && w.interval <= delay && t.pos < w.numSlots
    ensures var t', asked := Reschedule(w, t, delay), delay / w.interval;
            && t'.diff < w.numSlots && t'.pos < w.numSlots
            && (Due(w, t') == asked <==> MovesOnTime(w, t, delay))
            && (!MovesOnTime(w, t, delay) ==> Due(w, t') == if Place(w, delay).0 >= t.pos then asked + w.numSlots else asked - w.numSlots)
  {
    PlaceIsExact(w, delay);
  }

  /** A pending timer rescheduled with value `v`, then left alone, fires once, `Slip` ticks off the requested tick:
      on that very tick if and only if it moves on time. */
  lemma RescheduledFires<K, V>(w: Wheel<K, V>, k: K, v: V, delay: int, ops: seq<Op<K, V>>, j: nat)
    requires Valid(w) && k in w.timers && w.interval <= delay && j < |ops|
    requires forall op | op in ops :: LeavesAlone(op, k)
    ensures var t := w.timers[k];
            var w' := w.(timers := w.timers[k := Reschedule(w, t.(value := v), delay)]);
            && Valid(w')
            && var fired := Fired(w', ops)[j];
            && (k in fired <==> ops[j].Tick? && Ticks(ops[..j + 1]) == delay / w.interval + Slip(w, t, delay))
            && (k in fired ==> fired[k] == v)
            && (ops[j].Tick? && Ticks(ops[..j + 1]) == delay / w.interval ==> (k in fired <==> MovesOnTime(w, t, delay)))
  {
    var t := w.timers[k];
    var w' := w.(timers := w.timers[k := Reschedule(w, t.(value := v), delay)]);
    RescheduleDue(w, t.(value := v), delay);
    RescheduleDue(w, t, delay);
    assert Due(w', w'.timers[k]) == delay / w.interval + Slip(w, t, delay);
    FiresOnDueTick(w', ops, k, j);
  }

  lemma MovedFires<K, V>(w: Wheel<K, V>, k: K, delay: int, ops: seq<Op<K, V>>, j: nat)
    requires Valid(w) && k in w.timers && w.interval <= delay && j < |ops|
    requires forall op | op in ops :: LeavesAlone(op, k)
    ensures Valid(MoveTask(w, k, delay).0)
    ensures var fired := Fired(MoveTask(w, k, delay).0, ops)[j];
            var t := w.timers[k];
            && (k in fired <==> ops[j].Tick? && Ticks(ops[..j + 1]) == delay / w.interval + Slip(w, t, delay))
            && (k in fired ==> fired[k] == t.value)
            && (ops[j].Tick? && Ticks(ops[..j + 1]) == delay / w.interval ==> (k in fired <==> MovesOnTime(w, t, delay)))
  {
    RescheduledFires(w, k, w.timers[k].value, delay, ops, j);
  }

  /** A set on a key that is already pending reschedules it the same way, with the new value. */
  lemma SetAgainFires<K, V>(w: Wheel<K, V>, k: K, v: V, delay: int, ops: seq<Op<K, V>>, j: nat)
    requires Valid(w) && k in w.timers && 0 < delay && j < |ops|
    requires forall op | op in ops :: LeavesAlone(op, k)
    ensures Valid(SetTask(w, k, v, delay))
    ensures var fired := Fired(SetTask(w, k, v, delay), ops)[j];
            var t, d := w.timers[k], if delay < w.interval then w.interval else delay;
            && (k in fired <==> ops[j].Tick? && Ticks(ops[..j + 1]) == d / w.interval + Slip(w, t, d))
            && (k in fired ==> fired[k] == v)
            && (ops[j].Tick? && Ticks(ops[..j + 1]) == d / w.interval ==> (k in fired <==> MovesOnTime(w, t, d)))
  {
    RescheduledFires(w, k, v, if delay < w.interval then w.interval else delay, ops, j);
  }

  // ---------------------------------------------------------------- runs that misfire

  lemma {:induction false} RunSplits<K, V>(w: Wheel<K, V>, a: seq<Op<K, V>>, b: seq<Op<K, V>>)
    requires Valid(w)
    ensures Run(w, a + b) == Run(Run(w, a), b)
    ensures Fired(w, a + b) == Fired(w, a) + Fired(Run(w, a), b)
    decreases |a|
  {
    if a == [] {
      assert a + b == b;
    } else {
      StepValid(w, a[0]);
      assert (a + b)[1..] == a[1..] + b;
      RunSplits(Step(w, a[0]).0, a[1..], b);
    }
  }

  /** Nothing but ticks. */
  function Idle<K, V>(n: nat): (ops: seq<Op<K, V>>)
    ensures |ops| == n && forall i | 0 <= i < n :: ops[i] == Tick
  {
    if n == 0 then [] else [Tick] + Idle(n - 1)
  }

  lemma {:induction false} TicksOfIdle<K, V>(ops: seq<Op<K, V>>, j: nat)
    requires j <= |ops| && forall i | 0 <= i < |ops| :: ops[i] == Tick
    ensures Ticks(ops[..j]) == j
  {
    if j > 0 {
      TicksHead(ops, j - 1);
      TicksOfIdle(ops[1..], j - 1);
    }
  }

  /** An empty wheel only turns. */
  lemma {:induction false} EmptyTurns<K, V>(w: Wheel<K, V>, n: nat)
    requires Valid(w) && w.timers == map[] && w.tickedPos + n < w.numSlots
    ensures Run(w, Idle<K, V>(n)) == w.(tickedPos := w.tickedPos + n)
    ensures forall j | 0 <= j < n :: Fired(w, Idle<K, V>(n))[j] == map[]
    decreases n
  {
    if n > 0 {
      RingAdd(w.tickedPos, 1, w.numSlots);
      var w' := w.(tickedPos := w.tickedPos + 1);
      assert OnTick(w) == (w', map[]);
      EmptyTurns(w', n - 1);
      assert Idle<K, V>(n)[1..] == Idle<K, V>(n - 1);
    }
  }

  const TEN: Wheel<int, int> := Wheel(10, 1, 9, map[])

  /** A new wheel of ten slots after eight ticks. */
  lemma EightTicks()
    ensures Valid(TEN) && Run(TEN, Idle(8)) == TEN.(tickedPos := 7)
    ensures forall j | 0 <= j < 8 :: Fired(TEN, Idle(8))[j] == map[]
  {
    var w := TEN.(tickedPos := 0);
    assert OnTick(TEN) == (w, map[]);
    EmptyTurns(w, 7);
    assert Idle<int, int>(8)[1..] == Idle<int, int>(7);
  }

  /** Eight ticks on a new wheel, then a set and a move of one key, then ticks. */
  ghost function Misfire(first: int, second: int, n: nat): seq<Op<int, int>> {
    Idle(8) + ([Set(0, 0, first), Move(0, second)] + Idle(n))
  }

  lemma MovedThenIdle(w: Wheel<int, int>, delay: int, n: nat)
    requires Valid(w) && w.interval == 1 && 0 in w.timers && 0 < delay
    ensures Valid(MoveTask(w, 0, delay).0)
    ensures forall j | 0 <= j < n ::
              0 in Fired(MoveTask(w, 0, delay).0, Idle(n))[j] <==> j + 1 == delay + Slip(w, w.timers[0], delay)
  {
    StepValid(w, Move(0, delay));
    forall j | 0 <= j < n
      ensures 0 in Fired(MoveTask(w, 0, delay).0, Idle(n))[j] <==> j + 1 == delay + Slip(w, w.timers[0], delay)
    {
      MovedFires(w, 0, delay, Idle(n), j);
      TicksOfIdle(Idle<int, int>(n), j + 1);
    }
  }

  lemma SetThenMove(first: int, second: int, n: nat)
    requires 0 < first && 0 < second
    ensures Valid(TEN)
    ensures var w := SetTask(TEN.(tickedPos := 7), 0, 0, first);
            && Valid(w) && Valid(MoveTask(w, 0, second).0)
            && Fired(TEN, Misfire(first, second, n)) == Fired(TEN, Idle(8)) + ([map[], map[]] + Fired(MoveTask(w, 0, second).0, Idle(n)))
  {
    var w := TEN.(tickedPos := 7);
    StepValid(w, Set(0, 0, first));
    var w1 := SetTask(w, 0, 0, first);
    StepValid(w1, Move(0, second));
    var w2 := MoveTask(w1, 0, second).0;
    var ops: seq<Op<int, int>> := [Set(0, 0, first), Move(0, second)];
    EightTicks();
    RunSplits(TEN, Idle(8), ops + Idle(n));
    TwoSteps(w, w1, w2, first, second);
    RunSplits(w, ops, Idle(n));
  }

  /** The moved timer fires once in such a run, the slip after the requested tick. */
  lemma MisfireBySlip(first: int, second: int, n: nat, slip: int)
    requires 0 < first && 0 < second
    requires var w := TEN.(tickedPos := 7);
             var w' := SetTask(w, 0, 0, first);
             Valid(w') && Slip(w', w'.timers[0], second) == slip && second + slip > 0
    ensures Valid(TEN)
    ensures forall j | 0 <= j < 10 + n :: 0 in Fired(TEN, Misfire(first, second, n))[j] <==> j == 9 + second + slip
  {
    SetThenMove(first, second, n);
    EightTicks();
    MovedThenIdle(SetTask(TEN.(tickedPos := 7), 0, 0, first), second, n);
  }

  lemma TwoSteps(w: Wheel<int, int>, w1: Wheel<int, int>, w2: Wheel<int, int>, first: int, second: int)
    requires Valid(w) && w.interval == 1 && 0 < first && 0 < second && w1 == SetTask(w, 0, 0, first) && Valid(w1) && w2 == MoveTask(w1, 0, second).0
    ensures var ops: seq<Op<int, int>> := [Set(0, 0, first), Move(0, second)];
            Run(w, ops) == w2 && Fired(w, ops) == [map[], map[]]
  {
    OneStep(w, Set(0, 0, first));
    OneStep(w1, Move(0, second));
    RunSplits(w, [Set(0, 0, first)], [Move(0, second)]);
    assert [Op<int, int>.Set(0, 0, first)] + [Op<int, int>.Move(0, second)] == [Set(0, 0, first), Move(0, second)];
  }

  lemma OneStep<K, V>(w: Wheel<K, V>, op: Op<K, V>)
    requires Valid(w)
    ensures Valid(Step(w, op).0) && Run(w, [op]) == Step(w, op).0 && Fired(w, [op]) == [Step(w, op).1]
  {
    StepValid(w, op);
    assert [op][1..] == [];
  }

  /** Both kinds of misfire happen in runs from a new wheel of ten slots: after eight ticks, a timer set for the fifth
      tick and moved to the first fires on the eleventh, and one set for the second tick and moved to the fifteenth
      fires on the fifth. */
  lemma MovesCanMisfire()
    ensures Valid(TEN)
    ensures forall j | 0 <= j < 21 :: 0 in Fired(TEN, Misfire(5, 1, 11))[j] <==> j == 9 + 11
    ensures forall j | 0 <= j < 25 :: 0 in Fired(TEN, Misfire(2, 15, 15))[j] <==> j == 9 + 5
  {
    SlipFromSeven(5, 1);
    SlipFromSeven(2, 15);
    MisfireBySlip(5, 1, 11, 10);
    MisfireBySlip(2, 15, 15, -10);
  }

  lemma SlipFromSeven(first: int, second: int)
    requires (first, second) == (5, 1) || (first, second) == (2, 15)
    ensures var w := SetTask(TEN.(tickedPos := 7), 0, 0, first);
            Valid(w) && Slip(w, w.timers[0], second) == if second == 1 then 10 else -10
  {
    var w := TEN.(tickedPos := 7);
    assert Place(w, first) == if first == 5 then (2, 0) else (9, 0);
    var w' := SetTask(w, 0, 0, first);
    assert Place(w', second) == if second == 1 then (8, 0) else (2, 1);
  }

  /** A move by less than one interval runs the task at once, and the timer fires all the same when it is due. */
  lemma HastyMoveFiresTwice<K, V>(w: Wheel<K, V>, k: K, delay: int, ops: seq<Op<K, V>>, j: nat)
    requires Valid(w) && k in w.timers && 0 < delay < w.interval && j < |ops|
    requires forall op | op in ops :: LeavesAlone(op, k)
    ensures Step(w, Move(k, delay)) == (w, map[k := w.timers[k].value])
    ensures k in Fired(w, ops)[j] <==> ops[j].Tick? && Ticks(ops[..j + 1]) == Due(w, w.timers[k])
  {
    FiresOnDueTick(w, ops, k, j);
  }

  // ---------------------------------------------------------------- with which value

  /** The value of the last accepted set on a key. */
  ghost function LastSet<K, V>(ops: seq<Op<K, V>>, k: K): Option<V> {
    if ops == [] then None else
      var op := ops[|ops| - 1];
      if op.Set? && op.key == k && op.delay > 0 then Some(op.value) else LastSet(ops[..|ops| - 1], k)
  }

  /** Every pending timer has the value of the last accepted set on its key. */
  ghost predicate ValuesAreSet<K, V>(w: Wheel<K, V>, ops: seq<Op<K, V>>) {
    forall k | k in w.timers :: LastSet(ops, k) == Some(w.timers[k].value)
  }

  lemma StepValues<K, V>(w: Wheel<K, V>, ops: seq<Op<K, V>>, op: Op<K, V>)
    requires Valid(w) && ValuesAreSet(w, ops)
    ensures ValuesAreSet(Step(w, op).0, ops + [op])
    ensures forall k | k in Step(w, op).1 :: LastSet(ops, k) == Some(Step(w, op).1[k])
  {
    assert (ops + [op])[..|ops|] == ops;
  }

  lemma {:induction false} FiredFrom<K, V>(w: Wheel<K, V>, before: seq<Op<K, V>>, ops: seq<Op<K, V>>, j: nat, k: K)
    requires Valid(w) && ValuesAreSet(w, before) && j < |ops| && k in Fired(w, ops)[j]
    ensures LastSet(before + ops[..j], k) == Some(Fired(w, ops)[j][k])
    decreases j
  {
    StepValid(w, ops[0]);
    StepValues(w, before, ops[0]);
    if j == 0 {
      assert before + ops[..0] == before;
    } else {
      FiredFrom(Step(w, ops[0]).0, before + [ops[0]], ops[1..], j - 1, k);
      assert before + [ops[0]] + ops[1..][..j - 1] == before + ops[..j];
    }
  }

  /** Over any run of a new wheel, whatever fires -- on its tick, by a hasty move or by a drain -- fires with the value of
      the last accepted set on its key. */
  lemma FiresWithLastSetValue<K, V>(w: Wheel<K, V>, ops: seq<Op<K, V>>, j: nat, k: K)
    requires Valid(w) && w.timers == map[] && j < |ops| && k in Fired(w, ops)[j]
    ensures LastSet(ops[..j], k) == Some(Fired(w, ops)[j][k])
  {
    FiredFrom(w, [], ops, j, k);
    assert [] + ops[..j] == ops[..j];
  }

  // ---------------------------------------------------------------- conservation

  /** Sets in a run that schedule `k` anew, because no timer of `k` is pending. */
  ghost function FreshSets<K, V>(w: Wheel<K, V>, ops: seq<Op<K, V>>, k: K): nat
    requires Valid(w)
    decreases |ops|
  {
    if ops == [] then 0 else
      StepValid(w, ops[0]);
      One(ops[0].Set? && ops[0].key == k && ops[0].delay > 0 && k !in w.timers) +
      FreshSets(Step(w, ops[0]).0, ops[1..], k)
  }

  /** Removes in a run that cancel a pending timer of `k`. */
  ghost function Cancels<K, V>(w: Wheel<K, V>, ops: seq<Op<K, V>>, k: K): nat
    requires Valid(w)
    decreases |ops|
  {
    if ops == [] then 0 else
      StepValid(w, ops[0]);
      One(ops[0].Remove? && ops[0].key == k && k in w.timers) + Cancels(Step(w, ops[0]).0, ops[1..], k)
  }

  /** Moves by less than one interval: they run the task at once and keep it scheduled. */
  ghost function HastyMoves<K, V>(w: Wheel<K, V>, ops: seq<Op<K, V>>, k: K): nat
    requires Valid(w)
    decreases |ops|
  {
    if ops == [] then 0 else
      StepValid(w, ops[0]);
      One(ops[0].Move? && ops[0].key == k && 0 < ops[0].delay < w.interval && k in w.timers) +
      HastyMoves(Step(w, ops[0]).0, ops[1..], k)
  }

  ghost function TimesFired<K, V>(fired: seq<map<K, V>>, k: K): nat {
    if fired == [] then 0 else One(k in fired[0]) + TimesFired(fired[1..], k)
  }

  /** Every scheduled timer is fired, cancelled or still pending, exactly one of the three; the only
      other firings are those of hasty moves.  So without hasty moves a key fires at most once per set. */
  lemma {:induction false} TimersAreConserved<K, V>(w: Wheel<K, V>, ops: seq<Op<K, V>>, k: K)
    requires Valid(w)
    ensures One(k in w.timers) + FreshSets(w, ops, k) + HastyMoves(w, ops, k)
         == TimesFired(Fired(w, ops), k) + Cancels(w, ops, k) + One(k in Run(w, ops).timers)
    decreases |ops|
  {
    if ops != [] {
      StepValid(w, ops[0]);
      var w' := Step(w, ops[0]).0;
      TimersAreConserved(w', ops[1..], k);
      if ops[0].Tick? && k in w.timers {
        TickCountsDown(w, k);
      }
      assert Fired(w, ops)[1..] == Fired(w', ops[1..]);
    }
  }
}
