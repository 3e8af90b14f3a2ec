/** The rolling window: a ring of time buckets that refines a timestamped log. */
module RollingWindows {
  import opened Arithmetic

  /** How a bucket accumulates values: its reset state and its Add. */
  datatype Bucketing<!T, !B> = Bucketing(empty: B, add: (B, T) -> B)

  /** One addition of the log: the interval-long epoch it happened in, and its value. */
  datatype Stamped<T> = Stamped(epoch: int, value: T)

  /** What a bucket holds that saw exactly the additions of one epoch, in order. */
  function Collect<T, B>(bk: Bucketing<T, B>, log: seq<Stamped<T>>, epoch: int): B {
    if log == [] then bk.empty else
      var b := Collect(bk, log[..|log| - 1], epoch);
      var last := log[|log| - 1];
      if last.epoch == epoch then bk.add(b, last.value) else b
  }

  /** The buckets of the epochs lo, ..., hi - 1. */
  function Span<T, B>(bk: Bucketing<T, B>, log: seq<Stamped<T>>, lo: int, hi: int): (r: seq<B>)
    decreases hi - lo
    ensures |r| == if lo < hi then hi - lo else 0
    ensures forall i | 0 <= i < |r| :: r[i] == Collect(bk, log, lo + i)
  {
    if lo >= hi then [] else [Collect(bk, log, lo)] + Span(bk, log, lo + 1, hi)
  }

  lemma {:induction false} CollectNothing<T, B>(bk: Bucketing<T, B>, log: seq<Stamped<T>>, epoch: int)
    requires forall i | 0 <= i < |log| :: log[i].epoch != epoch
    ensures Collect(bk, log, epoch) == bk.empty
  {
    if log != [] {
      CollectNothing(bk, log[..|log| - 1], epoch);
    }
  }

  // ---------------------------------------------------------------- the log behind the buckets

  /** Buckets that just list their additions. */
  function Lists<T>(): Bucketing<T, seq<T>> {
    Bucketing([], (s, v) => s + [v])
  }

  function Fold<T, B>(bk: Bucketing<T, B>, values: seq<T>): B {
    if values == [] then bk.empty else bk.add(Fold(bk, values[..|values| - 1]), values[|values| - 1])
  }

  /** Whatever the buckets compute, they compute it from the additions of their epoch. */
  lemma {:induction false} CollectIsFold<T, B>(bk: Bucketing<T, B>, log: seq<Stamped<T>>, epoch: int)
    ensures Collect(bk, log, epoch) == Fold(bk, Collect(Lists(), log, epoch))
  {
    if log != [] {
      CollectIsFold(bk, log[..|log| - 1], epoch);
      var before := Collect(Lists(), log[..|log| - 1], epoch);
      assert (before + [log[|log| - 1].value])[..|before|] == before;
    }
  }

  function Flat<T>(lists: seq<seq<T>>): seq<T> {
    if lists == [] then [] else lists[0] + Flat(lists[1..])
  }

  /** The log's additions with lo <= epoch < hi, in order. */
  function Between<T>(log: seq<Stamped<T>>, lo: int, hi: int): seq<T> {
    if log == [] then [] else
      var last := log[|log| - 1];
      Between(log[..|log| - 1], lo, hi) + if lo <= last.epoch < hi then [last.value] else []
  }

  ghost predicate InOrder<T>(log: seq<Stamped<T>>) {
    forall i, j | 0 <= i < j < |log| :: log[i].epoch <= log[j].epoch
  }

  lemma {:induction false} BetweenNothing<T>(log: seq<Stamped<T>>, lo: int, hi: int)
    requires forall i | 0 <= i < |log| :: !(lo <= log[i].epoch < hi)
    ensures Between(log, lo, hi) == []
  {
    if log != [] {
      BetweenNothing(log[..|log| - 1], lo, hi);
    }
  }

  lemma {:induction false} BetweenSplits<T>(log: seq<Stamped<T>>, lo: int, hi: int)
    requires InOrder(log) && lo < hi
    ensures Between(log, lo, hi) == Collect(Lists(), log, lo) + Between(log, lo + 1, hi)
  {
    if log != [] {
      var before := log[..|log| - 1];
      BetweenSplits(before, lo, hi);
      if log[|log| - 1].epoch == lo {
        BetweenNothing(before, lo + 1, hi);
      }
    }
  }

  lemma {:induction false} FlatSpan<T>(log: seq<Stamped<T>>, lo: int, hi: int)
    requires InOrder(log)
    ensures Flat(Span(Lists(), log, lo, hi)) == Between(log, lo, hi)
    decreases hi - lo
  {
    if lo < hi {
      BetweenSplits(log, lo, hi);
      FlatSpan(log, lo + 1, hi);
      assert Span(Lists(), log, lo, hi)[1..] == Span(Lists(), log, lo + 1, hi);
    } else {
      BetweenNothing(log, lo, hi);
    }
  }

  /** Two bounds above the newest addition select the same additions. */
  lemma {:induction false} BetweenCaps<T>(log: seq<Stamped<T>>, lo: int, hi: int, hi': int)
    requires forall i | 0 <= i < |log| :: log[i].epoch < hi <==> log[i].epoch < hi'
    ensures Between(log, lo, hi) == Between(log, lo, hi')
  {
    if log != [] {
      BetweenCaps(log[..|log| - 1], lo, hi, hi');
    }
  }

  /** Reduce sees exactly the additions of the last `size` epochs, in order, without those of the
      current epoch when it is ignored, however long ago the last addition was. */
  lemma {:induction false} SeesExactly<T>(log: seq<Stamped<T>>, e: int, size: nat, ignoreCurrent: bool, last: int)
    requires InOrder(log) && last <= e && forall i | 0 <= i < |log| :: log[i].epoch <= last
    ensures Flat(InWindow(Lists(), log, e, size, ignoreCurrent, last)) ==
            Between(log, e - size + 1, if ignoreCurrent then e else e + 1)
  {
    var hi := 1 + if ignoreCurrent && e == last then last - 1 else last;
    FlatSpan(log, e - size + 1, hi);
    BetweenCaps(log, e - size + 1, hi, if ignoreCurrent then e else e + 1);
  }

  // ---------------------------------------------------------------- the ring

  /** The slot `j` steps back from `offset` on a ring of `size` slots. */
  function Back(offset: nat, j: nat, size: nat): (r: nat)
    requires offset < size && j < size
    ensures r < size
  {
    if j <= offset then offset - j else offset + size - j
  }

  lemma StepForward(offset: nat, j: nat, size: nat)
    requires offset < size && 0 < j <= size
    ensures (offset + j) % size == Back(offset, size - j, size)
  {
    RingAdd(offset, j, size);
  }

  lemma BackAfterForward(offset: nat, span: nat, j: nat, size: nat)
    requires offset < size && span <= size && j < size
    ensures (offset + span) % size < size
    ensures Back((offset + span) % size, j, size) == Back(offset, if j < span then size - span + j else j - span, size)
  {
    RingAdd(offset, span, size);
  }

  /** The slot that Reduce visits in step `i`. */
  lemma ReduceIndex(offset: nat, span: nat, i: nat, size: nat)
    requires offset < size && i + span < size
    ensures ((offset + span + 1) % size + i) % size == Back(offset, size - span - 1 - i, size)
  {
    RingAdd(offset, span + 1, size);
    RingAdd((offset + span + 1) % size, i, size);
  }

  /** What Reduce sees at epoch `e` when the last addition was in epoch `last`. */
  function InWindow<T, B>(bk: Bucketing<T, B>, log: seq<Stamped<T>>, e: int, size: nat, ignoreCurrent: bool, last: int): seq<B> {
    Span(bk, log, e - size + 1, 1 + if ignoreCurrent && e == last then last - 1 else last)
  }

  class RollingWindow<T, B> {
    const bk: Bucketing<T, B>
    const size: nat
    const interval: int
    const ignoreCurrent: bool
    const buckets: array<B>
    var offset: nat
    var lastTime: int
    ghost const start: int
    ghost var epoch: nat               // the epoch of lastTime, counted from start
    ghost var log: seq<Stamped<T>>     // every addition so far

    ghost function EpochOf(now: int): int
      reads this
      requires interval > 0
    {
      (now - start) / interval
    }

    ghost predicate Valid()
      reads this, buckets
    {
      && offset < size == buckets.Length && 0 < interval
      && lastTime == start + epoch * interval
      && (forall i | 0 <= i < |log| :: log[i].epoch <= epoch)
      && InOrder(log)
      && (forall j | 0 <= j < size :: buckets[Back(offset, j, size)] == Collect(bk, log, epoch - j))
    }

    constructor (bk: Bucketing<T, B>, size: nat, interval: int, ignoreCurrent: bool, now: int)
      requires 0 < size
      ensures Valid() <==> 0 < interval
      ensures fresh(buckets) && log == [] && start == now && lastTime == now && epoch == 0
      ensures this.bk == bk && this.size == size && this.interval == interval && this.ignoreCurrent == ignoreCurrent
    {
      this.bk, this.size, this.interval, this.ignoreCurrent := bk, size, interval, ignoreCurrent;
      offset, lastTime := 0, now;
      start, epoch, log := now, 0, [];
      buckets := new B[size](_ => bk.empty);
    }

    /** Whole epochs between lastTime and now. */
    lemma Elapsed(now: int)
      requires Valid() && lastTime <= now
      ensures (now - lastTime) / interval == EpochOf(now) - epoch >= 0
      ensures now - (now - lastTime) % interval == start + EpochOf(now) * interval
    {
      var q, r := (now - lastTime) / interval, (now - lastTime) % interval;
      assert now - lastTime == q * interval + r;
      assert (epoch + q) * interval == epoch * interval + q * interval;
      DivModUnique(now - start, epoch + q, r, interval);
    }

    method CurrentSpan(now: int) returns (span: nat)
      requires Valid() && lastTime <= now
      ensures span == if EpochOf(now) - epoch < size then EpochOf(now) - epoch else size
    {
      Elapsed(now);
      var elapsed := (now - lastTime) / interval;
      span := if 0 <= elapsed < size then elapsed else size;
    }

    /** Resets the next `span` buckets on the ring. */
    method ResetNext(span: nat)
      requires offset < size == buckets.Length && span <= size
      modifies buckets
      ensures forall j | 0 <= j < size ::
                buckets[Back(offset, j, size)] == if j >= size - span then bk.empty else old(buckets[Back(offset, j, size)])
    {
      var i := 0;
      while i < span
        invariant 0 <= i <= span
        invariant forall j | 0 <= j < size ::
                    buckets[Back(offset, j, size)] == if j >= size - i then bk.empty else old(buckets[Back(offset, j, size)])
      {
        StepForward(offset, i + 1, size);
        buckets[(offset + i + 1) % size] := bk.empty;
        i := i + 1;
      }
    }

    /** A forward shift by `span` after the reset moves every bucket to its new place. */
    lemma Shifted(e: nat, span: nat, j: nat)
      requires offset < size == buckets.Length && j < size
      requires epoch <= e && span == if e - epoch < size then e - epoch else size
      requires forall i | 0 <= i < |log| :: log[i].epoch <= epoch
      requires forall i | 0 <= i < size ::
                 buckets[Back(offset, i, size)] == if i >= size - span then bk.empty else Collect(bk, log, epoch - i)
      ensures (offset + span) % size < size
      ensures buckets[Back((offset + span) % size, j, size)] == Collect(bk, log, e - j)
    {
      BackAfterForward(offset, span, j, size);
      if j < span {
        CollectNothing(bk, log, e - j);
      }
    }

    method UpdateOffset(now: int)
      requires Valid() && lastTime <= now
      modifies this`offset, this`lastTime, this`epoch, buckets
      ensures Valid() && epoch == EpochOf(now) && lastTime <= now
    {
      var span := CurrentSpan(now);
      Elapsed(now);
      if span <= 0 {
        return;
      }
      ResetNext(span);
      ghost var e := EpochOf(now);
      RingAdd(offset, span, size);
      var next := (offset + span) % size;
      forall j | 0 <= j < size
        ensures buckets[Back(next, j, size)] == Collect(bk, log, e - j)
      {
        Shifted(e, span, j);
      }
      offset := next;
      lastTime := now - (now - lastTime) % interval;
      epoch := e;
    }

    method Add(now: int, v: T)
      requires Valid() && lastTime <= now
      modifies this, buckets
      ensures Valid() && log == old(log) + [Stamped((now - start) / interval, v)] && lastTime <= now
    {
      UpdateOffset(now);
      buckets[offset] := bk.add(buckets[offset], v);
      log := log + [Stamped(epoch, v)];
    }

    /** Visits the buckets oldest first: those of the last `size` epochs, without the current epoch
        when it is to be ignored.  Epochs after the last addition's have no bucket and no additions. */
    method Reduce(now: int) returns (visited: seq<B>)
      requires Valid() && lastTime <= now
      ensures visited == InWindow(bk, log, (now - start) / interval, size, ignoreCurrent, epoch)
    {
      var span := CurrentSpan(now);
      Elapsed(now);
      var diff := if span == 0 && ignoreCurrent then size - 1 else size - span;
      visited := [];
      if diff > 0 {
        RingAdd(offset, span, size);
        var i := 0;
        ghost var lo := EpochOf(now) - size + 1;
        while i < diff
          invariant 0 <= i <= diff
          invariant |visited| == i && forall k | 0 <= k < i :: visited[k] == Collect(bk, log, lo + k)
        {
          ReduceIndex(offset, span, i, size);
          visited := visited + [buckets[((offset + span + 1) % size + i) % size]];
          assert visited[i] == Collect(bk, log, lo + i);
          i := i + 1;
        }
      }
    }
  }
}
