/** The timing wheel itself: slot lists of shared, mutable entries with tombstones, and an index
    from key to the entry's slot.  Every method is proved against its function in WheelSpec,
    and keeps the index and the lists in agreement. */
module TimingWheels {
  import opened Arithmetic
  import opened WheelSpec
  import opened Lists
  import opened Wrappers

  /** An entry is shared by the slot list that holds it and by the index. */
  class TimingEntry<K, V> {
    const key: K
    var value: V
    var circle: nat
    var diff: nat
    var removed: bool

    constructor (key: K, value: V, circle: nat)
      ensures this.key == key && this.value == value && this.circle == circle && this.diff == 0 && !removed
    {
      this.key, this.value, this.circle, this.diff, this.removed := key, value, circle, 0, false;
    }
  }

  datatype Position<K, V> = Position(pos: nat, item: TimingEntry<K, V>)

  datatype Task<K, V> = Task(key: K, value: V)

  /** The tasks run by one operation are those of the map, each key once. */
  ghost predicate Runs<K, V>(tasks: seq<Task<K, V>>, fired: map<K, V>) {
    && (forall i | 0 <= i < |tasks| :: tasks[i].key in fired && fired[tasks[i].key] == tasks[i].value)
    && (forall i, j | 0 <= i < j < |tasks| :: tasks[i].key != tasks[j].key)
    && (forall k | k in fired :: Task(k, fired[k]) in tasks)
  }

  lemma Reput<K, V>(m: map<K, V>, k: K, v: V)
    ensures (m - {k})[k := v] == m[k := v]
  {
  }

  lemma Overwrite<K, V>(m: map<K, V>, k: K, v: V, v': V)
    ensures m[k := v][k := v'] == m[k := v']
  {
  }

  /** What the visit of slot `now` does to the pending timers on behalf of one of them. */
  ghost function Visit<K, V>(numSlots: nat, now: nat, timers: map<K, Timer<V>>, k: K): map<K, Timer<V>>
    requires 0 < numSlots && k in timers
  {
    if FiresAt(timers[k], now) then timers - {k} else timers[k := Advance(numSlots, now, timers[k])]
  }

  /** The pending timers when the scan of slot `now` has dealt with the keys in `done`. */
  ghost function Partial<K, V>(numSlots: nat, now: nat, timers: map<K, Timer<V>>, done: set<K>): map<K, Timer<V>>
    requires 0 < numSlots
  {
    map k | k in timers && !(k in done && FiresAt(timers[k], now)) ::
      if k in done then Advance(numSlots, now, timers[k]) else timers[k]
  }

  ghost function PartialFired<K, V>(now: nat, timers: map<K, Timer<V>>, done: set<K>): map<K, V> {
    map k | k in timers && k in done && FiresAt(timers[k], now) :: timers[k].value
  }

  lemma VisitExtendsPartial<K, V>(numSlots: nat, now: nat, timers: map<K, Timer<V>>, done: set<K>, k: K)
    requires 0 < numSlots && k in timers && k !in done
    ensures k in Partial(numSlots, now, timers, done) && Partial(numSlots, now, timers, done)[k] == timers[k]
    ensures Visit(numSlots, now, Partial(numSlots, now, timers, done), k) == Partial(numSlots, now, timers, done + {k})
    ensures PartialFired(now, timers, done + {k}) ==
            if FiresAt(timers[k], now) then PartialFired(now, timers, done)[k := timers[k].value]
            else PartialFired(now, timers, done)
  {
  }

  lemma PartialDone<K, V>(numSlots: nat, now: nat, timers: map<K, Timer<V>>, done: set<K>)
    requires 0 < numSlots && forall k | k in timers && timers[k].pos == now :: k in done
    ensures Partial(numSlots, now, timers, done) == Kept(numSlots, timers, now)
    ensures PartialFired(now, timers, done) == FiredBy(timers, now)
  {
  }

  lemma RunsPush<K, V>(tasks: seq<Task<K, V>>, fired: map<K, V>, k: K, v: V)
    requires Runs(tasks, fired) && k !in fired
    ensures Runs(tasks + [Task(k, v)], fired[k := v])
  {
    var fired' := fired[k := v];
    forall x | x in fired'
      ensures Task(x, fired'[x]) in tasks + [Task(k, v)]
    {
      if x != k {
        assert Task(x, fired[x]) in tasks;
      }
    }
  }

  lemma ScanStep<K, V>(numSlots: nat, now: nat, timers: map<K, Timer<V>>, done: set<K>, k: K,
                       tasks: seq<Task<K, V>>, run: seq<Task<K, V>>)
    requires 0 < numSlots && k in timers && k !in done
    requires Runs(tasks, PartialFired(now, timers, done))
    requires run == if FiresAt(timers[k], now) then [Task(k, timers[k].value)] else []
    ensures k in Partial(numSlots, now, timers, done) && Partial(numSlots, now, timers, done)[k] == timers[k]
    ensures Visit(numSlots, now, Partial(numSlots, now, timers, done), k) == Partial(numSlots, now, timers, done + {k})
    ensures Runs(tasks + run, PartialFired(now, timers, done + {k}))
  {
    VisitExtendsPartial(numSlots, now, timers, done, k);
    if run != [] {
      RunsPush(tasks, PartialFired(now, timers, done), k, timers[k].value);
    } else {
      assert tasks + run == tasks;
    }
  }

  /** The values of the timers taken so far. */
  ghost function Taken<K, V>(timers: map<K, Timer<V>>, taken: set<K>): map<K, V> {
    map k | k in timers && k in taken :: timers[k].value
  }

  lemma TakeStep<K, V>(timers: map<K, Timer<V>>, taken: set<K>, k: K, tasks: seq<Task<K, V>>)
    requires k in timers && k !in taken && Runs(tasks, Taken(timers, taken))
    ensures timers - taken - {k} == timers - (taken + {k})
    ensures Runs(tasks + [Task(k, timers[k].value)], Taken(timers, taken + {k}))
  {
    RunsPush(tasks, Taken(timers, taken), k, timers[k].value);
    assert Taken(timers, taken + {k}) == Taken(timers, taken)[k := timers[k].value];
  }

  lemma AllTaken<K, V>(timers: map<K, Timer<V>>, taken: set<K>)
    requires timers - taken == map[]
    ensures Taken(timers, taken) == Values(timers)
  {
    assert forall k | k in timers :: k in timers - taken || k in taken;
  }

  // ---------------------------------------------------------------- how the lists and the index agree

  type Slots<!K, !V> = seq<seq<TimingEntry<K, V>>>

  type Index<!K, !V> = map<K, Position<K, V>>

  /** Each indexed key, but those that are being moved, has its live entry in the recorded slot. */
  ghost predicate Indexed<K, V>(slots: Slots<K, V>, timers: Index<K, V>, repr: set<TimingEntry<K, V>>, but: set<K>)
    requires InRepr(timers, repr)
    reads repr
  {
    forall k | k in timers && k !in but ::
      && timers[k].pos < |slots|
      && timers[k].item in slots[timers[k].pos]
      && timers[k].item.key == k
      && !timers[k].item.removed
      && timers[k].item.diff < |slots|
  }

  /** Each live entry of a slot list is the indexed one, and not of a key that is being moved. */
  ghost predicate Listed<K, V>(slots: Slots<K, V>, timers: Index<K, V>, repr: set<TimingEntry<K, V>>, but: set<K>)
    reads repr
  {
    forall p, e {:trigger e in slots[p]} | 0 <= p < |slots| && e in slots[p] ::
      && e in repr
      && (!e.removed ==> e.key !in but && e.key in timers && timers[e.key] == Position(p, e))
  }

  ghost predicate NoDups<T>(slots: seq<seq<T>>) {
    forall p | 0 <= p < |slots| :: NoDup(slots[p])
  }

  ghost predicate InRepr<K, V>(timers: Index<K, V>, repr: set<TimingEntry<K, V>>) {
    forall k | k in timers :: timers[k].item in repr
  }

  ghost predicate Agree<K, V>(slots: Slots<K, V>, timers: Index<K, V>, repr: set<TimingEntry<K, V>>, but: set<K>)
    reads repr
  {
    InRepr(timers, repr) && Indexed(slots, timers, repr, but) && Listed(slots, timers, repr, but) && NoDups(slots)
  }

  /** What the index says of the timers that are not being moved. */
  ghost function Pending<K, V>(timers: Index<K, V>, repr: set<TimingEntry<K, V>>, but: set<K>): map<K, Timer<V>>
    requires InRepr(timers, repr)
    reads repr
  {
    map k | k in timers && k !in but :: Timer(timers[k].item.value, timers[k].pos, timers[k].item.circle, timers[k].item.diff)
  }

  lemma PushIndexed<K, V>(slots: Slots<K, V>, timers: Index<K, V>, repr: set<TimingEntry<K, V>>, pos: nat, task: TimingEntry<K, V>)
    requires InRepr(timers, repr) && Indexed(slots, timers, repr, {task.key}) && pos < |slots| && !task.removed && task.diff < |slots|
    ensures InRepr(timers[task.key := Position(pos, task)], repr + {task})
    ensures Indexed(slots[pos := slots[pos] + [task]], timers[task.key := Position(pos, task)], repr + {task}, {})
  {
  }

  lemma PushListed<K, V>(slots: Slots<K, V>, timers: Index<K, V>, repr: set<TimingEntry<K, V>>, pos: nat, task: TimingEntry<K, V>)
    requires Listed(slots, timers, repr, {task.key}) && pos < |slots| && !task.removed
    ensures task !in slots[pos]
    ensures Listed(slots[pos := slots[pos] + [task]], timers[task.key := Position(pos, task)], repr + {task}, {})
  {
  }

  lemma PushNoDups<T>(slots: seq<seq<T>>, pos: nat, x: T)
    requires NoDups(slots) && pos < |slots| && x !in slots[pos]
    ensures NoDups(slots[pos := slots[pos] + [x]])
  {
    assert NoDup(slots[pos]);
    assert NoDup(slots[pos] + [x]);
  }

  lemma PushPending<K, V>(timers: Index<K, V>, repr: set<TimingEntry<K, V>>, pos: nat, task: TimingEntry<K, V>)
    requires InRepr(timers, repr)
    ensures var timers' := timers[task.key := Position(pos, task)];
            && InRepr(timers', repr + {task})
            && Pending(timers', repr + {task}, {}) ==
               Pending(timers, repr, {task.key})[task.key := Timer(task.value, pos, task.circle, task.diff)]
  {
  }

  lemma PushAgrees<K, V>(slots: Slots<K, V>, timers: Index<K, V>, repr: set<TimingEntry<K, V>>, pos: nat, task: TimingEntry<K, V>)
    requires Agree(slots, timers, repr, {task.key})
    requires pos < |slots| && !task.removed && task.diff < |slots|
    ensures var slots', timers', repr' := slots[pos := slots[pos] + [task]], timers[task.key := Position(pos, task)], repr + {task};
            && Agree(slots', timers', repr', {})
            && Pending(timers', repr', {}) == Pending(timers, repr, {task.key})[task.key := Timer(task.value, pos, task.circle, task.diff)]
  {
    PushIndexed(slots, timers, repr, pos, task);
    PushListed(slots, timers, repr, pos, task);
    PushPending(timers, repr, pos, task);
    PushNoDups(slots, pos, task);
  }

  /** Taking any entry off its list leaves the others where they are. */
  lemma DetachAgrees<K, V>(slots: Slots<K, V>, timers: Index<K, V>, repr: set<TimingEntry<K, V>>, p: nat, i: nat)
    requires Agree(slots, timers, repr, {}) && p < |slots| && i < |slots[p]|
    ensures var slots' := slots[p := RemoveAt(slots[p], i)];
            var but := if slots[p][i].removed then {} else {slots[p][i].key};
            Agree(slots', timers, repr, but)
  {
    RemoveAtFacts(slots[p], i);
    var task := slots[p][i];
    assert task in slots[p];
    var slots' := slots[p := RemoveAt(slots[p], i)];
    forall k | k in timers && (task.removed || k != task.key)
      ensures timers[k].item in slots'[timers[k].pos]
    {
      assert timers[k].item != task;
    }
    forall q, e: TimingEntry<K, V> | 0 <= q < |slots| && e in slots'[q] && !e.removed
      ensures task.removed || e.key != task.key
    {
      assert e in slots[q];
    }
  }

  lemma NothingLeft<K, V>(slots: Slots<K, V>, timers: Index<K, V>, repr: set<TimingEntry<K, V>>)
    requires Agree(slots, timers, repr, {}) && forall p | 0 <= p < |slots| :: slots[p] == []
    ensures timers == map[] && Pending(timers, repr, {}) == map[]
  {
    assert forall k :: k !in timers;
  }

  class TimingWheel<K(==), V> {
    const interval: int
    const numSlots: nat
    var slots: Slots<K, V>
    var timers: Index<K, V>
    var tickedPos: nat
    ghost var Repr: set<TimingEntry<K, V>>     // every entry ever scheduled

    /** Lists and index agree on every key but those that are being moved. */
    ghost predicate ValidBut(but: set<K>)
      reads this, Repr
    {
      && 0 < interval
      && tickedPos < numSlots == |slots|
      && Agree(slots, timers, Repr, but)
    }

    ghost predicate Valid()
      reads this, Repr
    {
      ValidBut({})
    }

    ghost function ViewBut(but: set<K>): Wheel<K, V>
      requires ValidBut(but)
      reads this, Repr
    {
      Wheel(numSlots, interval, tickedPos, Pending(timers, Repr, but))
    }

    ghost function View(): Wheel<K, V>
      requires Valid()
      reads this, Repr
    {
      ViewBut({})
    }

    constructor (interval: int, numSlots: nat)
      requires 0 < interval && 0 < numSlots
      ensures Valid() && fresh(Repr)
      ensures View() == Wheel(numSlots, interval, numSlots - 1, map[])
    {
      this.interval, this.numSlots, this.tickedPos := interval, numSlots, numSlots - 1;
      slots, timers, Repr := seq(numSlots, _ => []), map[], {};
    }

    /** Schedules an entry: at the back of its slot, with the index pointing at it, whether or not it has pointed
        at another entry of this key. */
    method PushBack(pos: nat, task: TimingEntry<K, V>)
      requires ValidBut({task.key}) && pos < numSlots
      requires !task.removed && task.diff < numSlots
      modifies this
      ensures Valid() && Repr == old(Repr) + {task}
      ensures var w := old(ViewBut({task.key}));
              View() == w.(timers := w.timers[task.key := Timer(task.value, pos, task.circle, task.diff)])
      ensures slots == old(slots)[pos := old(slots[pos]) + [task]]
      ensures timers == old(timers)[task.key := Position(pos, task)]
    {
      PushAgrees(slots, timers, Repr, pos, task);
      ghost var pending := Pending(timers[task.key := Position(pos, task)], Repr + {task}, {});
      slots, timers, Repr := slots[pos := slots[pos] + [task]], timers[task.key := Position(pos, task)], Repr + {task};
      assert Pending(timers, Repr, {}) == pending;
    }

    /** Leaves a tombstone in the slot list of a pending key. */
    method Bury(key: K)
      requires Valid() && key in timers
      modifies timers[key].item
      ensures ValidBut({key}) && ViewBut({key}) == WheelSpec.RemoveTask(old(View()), key)
    {
      timers[key].item.removed := true;
    }

    /** Takes a key that is being moved out of the index. */
    method Forget(key: K)
      requires ValidBut({key})
      modifies this`timers
      ensures Valid() && View() == old(ViewBut({key}))
    {
      timers := timers - {key};
    }

    /** Rewrites the fields of a pending entry through the index. */
    method Update(key: K, value: V, circle: nat, diff: nat)
      requires Valid() && key in timers && diff < numSlots
      modifies timers[key].item
      ensures Valid()
      ensures View() == old(View()).(timers := old(View()).timers[key := Timer(value, timers[key].pos, circle, diff)])
    {
      var item := timers[key].item;
      item.value, item.circle, item.diff := value, circle, diff;
    }

    method ClearDiff(key: K)
      requires Valid() && key in timers
      modifies timers[key].item
      ensures Valid()
      ensures var w := old(View()); View() == w.(timers := w.timers[key := w.timers[key].(diff := 0)])
    {
      var item := timers[key].item;
      Update(key, item.value, item.circle, 0);
    }

    method RemoveTask(key: K)
      requires Valid()
      modifies this, Repr
      ensures Valid() && Repr == old(Repr)
      ensures View() == WheelSpec.RemoveTask(old(View()), key)
    {
      if key in timers {
        Bury(key);
        Forget(key);
      }
    }

    function GetPositionAndCircle(delay: int): (r: (nat, nat))
      requires Valid() && interval <= delay
      reads this, Repr
      ensures r == Place(View(), delay)
    {
      DivAtLeastOne(delay, interval);
      var steps := delay / interval;
      ((tickedPos + steps) % numSlots, (steps - 1) / numSlots)
    }

    /** The three ways to reschedule a pending entry, with a possibly new value. */
    method Reposition(key: K, value: V, delay: int)
      requires Valid() && key in timers && interval <= delay
      modifies this, Repr
      ensures Valid() && fresh(Repr - old(Repr))
      ensures View() == old(View()).(timers := old(View()).timers[key := Reschedule(old(View()), old(View()).timers[key].(value := value), delay)])
    {
      var timer := timers[key];
      var (pos, circle) := GetPositionAndCircle(delay);
      if pos >= timer.pos {
        Update(key, value, circle, pos - timer.pos);
      } else if circle > 0 {
        Update(key, value, circle - 1, numSlots + pos - timer.pos);
      } else {
        Replace(key, value, pos);
      }
    }

    /** Leaves a tombstone in the old slot and schedules a new entry in the new one. */
    method Replace(key: K, value: V, pos: nat)
      requires Valid() && key in timers && pos < numSlots
      modifies this, Repr
      ensures Valid() && fresh(Repr - old(Repr))
      ensures View() == old(View()).(timers := old(View()).timers[key := Timer(value, pos, 0, 0)])
    {
      Bury(key);
      var newItem := new TimingEntry(key, value, 0);
      PushBack(pos, newItem);
      Reput(old(View()).timers, key, Timer(value, pos, 0, 0));
    }

    method MoveTask(key: K, delay: int) returns (tasks: seq<Task<K, V>>)
      requires Valid()
      modifies this, Repr
      ensures Valid() && fresh(Repr - old(Repr))
      ensures View() == WheelSpec.MoveTask(old(View()), key, delay).0
      ensures Runs(tasks, WheelSpec.MoveTask(old(View()), key, delay).1)
    {
      tasks := [];
      if key !in timers {
        return;
      }
      if delay < interval {
        tasks := [Task(key, timers[key].item.value)];
        return;
      }
      Reposition(key, timers[key].item.value, delay);
    }

    method SetTask(key: K, value: V, delay: int)
      requires Valid()
      modifies this, Repr
      ensures Valid() && fresh(Repr - old(Repr))
      ensures View() == WheelSpec.SetTask(old(View()), key, value, delay)
    {
      var d := if delay < interval then interval else delay;
      if key in timers {
        Reposition(key, value, d);
      } else {
        Schedule(key, value, d);
      }
    }

    /** A new entry, in the slot the delay asks for. */
    method Schedule(key: K, value: V, delay: int)
      requires Valid() && key !in timers && interval <= delay
      modifies this
      ensures Valid() && fresh(Repr - old(Repr))
      ensures var (pos, circle) := Place(old(View()), delay);
              View() == old(View()).(timers := old(View()).timers[key := Timer(value, pos, circle, 0)])
    {
      var (pos, circle) := GetPositionAndCircle(delay);
      ghost var w := View();
      Ready(key);
      var task := new TimingEntry(key, value, circle);
      assert ValidBut({key}) && ViewBut({key}) == w;
      PushBack(pos, task);
    }

    lemma Ready(key: K)
      requires Valid() && key !in timers
      ensures ValidBut({key}) && ViewBut({key}) == View()
    {
    }

    /** Takes a tombstone off a slot list. */
    method DropAt(p: nat, i: nat)
      requires Valid() && p < numSlots && i < |slots[p]| && slots[p][i].removed
      modifies this`slots
      ensures Valid() && View() == old(View())
      ensures slots == old(slots)[p := RemoveAt(old(slots[p]), i)]
    {
      DetachAgrees(slots, timers, Repr, p, i);
      slots := slots[p := RemoveAt(slots[p], i)];
    }

    /** Takes a live entry off its slot list; the index still points at it. */
    method Detach(p: nat, i: nat)
      requires Valid() && p < numSlots && i < |slots[p]| && !slots[p][i].removed
      modifies this`slots
      ensures var key := old(slots[p][i]).key;
              ValidBut({key}) && ViewBut({key}) == WheelSpec.RemoveTask(old(View()), key)
      ensures slots == old(slots)[p := RemoveAt(old(slots[p]), i)]
    {
      DetachAgrees(slots, timers, Repr, p, i);
      slots := slots[p := RemoveAt(slots[p], i)];
    }

    /** Takes a live entry off its slot list and out of the index. */
    method TakeAt(p: nat, i: nat)
      requires Valid() && p < numSlots && i < |slots[p]| && !slots[p][i].removed
      modifies this`slots, this`timers
      ensures Valid() && View() == WheelSpec.RemoveTask(old(View()), old(slots[p][i]).key)
      ensures slots == old(slots)[p := RemoveAt(old(slots[p]), i)]
    {
      var task := slots[p][i];
      Detach(p, i);
      Forget(task.key);
    }

    /** Moves a live entry from its slot list to the back of another and re-points the index. */
    method Transfer(p: nat, i: nat, pos: nat)
      requires Valid() && p < numSlots && pos < numSlots && p != pos && i < |slots[p]| && !slots[p][i].removed
      modifies this
      ensures Valid() && Repr == old(Repr)
      ensures slots[p] == RemoveAt(old(slots[p]), i)
      ensures var task, w := old(slots[p][i]), old(View());
              && task.key in timers && timers[task.key] == Position(pos, task)
              && task.key in w.timers && View() == w.(timers := w.timers[task.key := w.timers[task.key].(pos := pos)])
    {
      var task := slots[p][i];
      assert task in slots[p];
      ghost var w := View();
      Detach(p, i);
      PushBack(pos, task);
      Reput(w.timers, task.key, w.timers[task.key].(pos := pos));
    }

    /** Sends a live entry whose wait is over to the slot `diff` ahead. */
    method Relocate(p: nat, i: nat)
      requires Valid() && p < numSlots && i < |slots[p]|
      requires !slots[p][i].removed && slots[p][i].diff > 0
      modifies this, slots[p][i]
      ensures Valid() && Repr == old(Repr)
      ensures slots[p] == RemoveAt(old(slots[p]), i)
      ensures var task, w := old(slots[p][i]), old(View());
              && task.key in w.timers
              && View() == w.(timers := w.timers[task.key :=
                                w.timers[task.key].(pos := (p + w.timers[task.key].diff) % numSlots, diff := 0)])
    {
      var task := slots[p][i];
      assert task in slots[p];
      ghost var w, pos := View(), (p + task.diff) % numSlots;
      RingAdd(p, task.diff, numSlots);
      Transfer(p, i, (p + task.diff) % numSlots);
      ClearDiff(task.key);
      Overwrite(w.timers, task.key, w.timers[task.key].(pos := pos), w.timers[task.key].(pos := pos, diff := 0));
    }

    /** One step of the scan of the current slot: returns where to go on and the task to run, if any. */
    method VisitEntry(i: nat) returns (next: nat, tasks: seq<Task<K, V>>)
      requires Valid() && i < |slots[tickedPos]|
      modifies this, slots[tickedPos][i]
      ensures Valid() && Repr == old(Repr) && tickedPos == old(tickedPos)
      ensures next <= |slots[tickedPos]| && slots[tickedPos][next..] == old(slots[tickedPos])[i + 1..]
      ensures var task, w := old(slots[tickedPos][i]), old(View());
              if old(task.removed) then View() == w && tasks == []
              else
                && task.key in w.timers && w.timers[task.key].pos == tickedPos
                && View() == w.(timers := Visit(numSlots, tickedPos, w.timers, task.key))
                && tasks == if FiresAt(w.timers[task.key], tickedPos) then [Task(task.key, w.timers[task.key].value)] else []
    {
      var p, task := tickedPos, slots[tickedPos][i];
      assert task in slots[p];
      next, tasks := i, [];
      if task.removed {
        DropAt(p, i);
      } else if task.circle > 0 {
        Update(task.key, task.value, task.circle - 1, task.diff);
        next := i + 1;
      } else if task.diff > 0 {
        Relocate(p, i);
      } else {
        tasks := [Task(task.key, task.value)];
        TakeAt(p, i);
      }
    }

    /** Live entries of one list have different keys. */
    lemma LiveKeysDiffer(p: nat)
      requires Valid() && p < numSlots
      ensures forall i, j | 0 <= i < j < |slots[p]| && !slots[p][i].removed && !slots[p][j].removed ::
                slots[p][i].key != slots[p][j].key
      ensures forall k | k in timers && timers[k].pos == p ::
                exists i :: 0 <= i < |slots[p]| && !slots[p][i].removed && slots[p][i].key == k
    {
      forall i, j | 0 <= i < j < |slots[p]| && !slots[p][i].removed && !slots[p][j].removed
        ensures slots[p][i].key != slots[p][j].key
      {
        assert slots[p][i] in slots[p] && slots[p][j] in slots[p];
      }
    }

    /** How far the scan of the current slot has come: the first `m` entries of the list `l` it started with are
        dealt with, the others are where `i` points; `live` are the positions in `l` of entries not removed. */
    ghost predicate Scanned(i: nat, l: seq<TimingEntry<K, V>>, m: nat, live: set<nat>, w: Wheel<K, V>, done: set<K>, tasks: seq<Task<K, V>>)
      reads this, Repr, l
    {
      && Valid() && tickedPos == w.tickedPos
      && m <= |l| && i <= |slots[tickedPos]| && slots[tickedPos][i..] == l[m..]
      && NoDup(l)
      && (forall j | m <= j < |l| :: !l[j].removed <==> j in live)
      && (forall j, k | 0 <= j < k < |l| && j in live && k in live :: l[j].key != l[k].key)
      && (forall j | 0 <= j < |l| && j in live :: j < m <==> l[j].key in done)
      && View() == w.(timers := Partial(numSlots, tickedPos, w.timers, done))
      && Runs(tasks, PartialFired(tickedPos, w.timers, done))
    }

    /** One step of the scan. */
    method ScanNext(i: nat, tasks: seq<Task<K, V>>,
                    ghost l: seq<TimingEntry<K, V>>, ghost m: nat, ghost live: set<nat>, ghost w: Wheel<K, V>, ghost done: set<K>)
      returns (next: nat, tasks': seq<Task<K, V>>, ghost done': set<K>)
      requires Scanned(i, l, m, live, w, done, tasks) && i < |slots[tickedPos]|
      modifies this, Repr
      ensures Repr == old(Repr)
      ensures m < |l| && Scanned(next, l, m + 1, live, w, done', tasks')
    {
      ghost var task := l[m];
      assert slots[tickedPos][i] == slots[tickedPos][i..][0] == task;
      assert task in slots[tickedPos];
      var run;
      next, run := VisitEntry(i);
      done' := done;
      if m in live {
        ScanStep(numSlots, tickedPos, w.timers, done, task.key, tasks, run);
        done' := done + {task.key};
      }
      tasks' := tasks + run;
    }

    method ScanAndRunTasks() returns (tasks: seq<Task<K, V>>)
      requires Valid()
      modifies this, Repr
      ensures Valid() && Repr == old(Repr)
      ensures View() == old(View()).(timers := Kept(numSlots, old(View()).timers, tickedPos))
      ensures Runs(tasks, FiredBy(old(View()).timers, tickedPos))
    {
      ghost var p, w, l, done := tickedPos, View(), slots[tickedPos], {};
      ghost var m: nat := 0;
      LiveKeysDiffer(p);
      ghost var live := set j: nat | j < |l| && !l[j].removed;
      tasks := [];
      var i: nat := 0;
      while i < |slots[tickedPos]|
        invariant Scanned(i, l, m, live, w, done, tasks) && Repr == old(Repr)
        decreases |l| - m
      {
        i, tasks, done := ScanNext(i, tasks, l, m, live, w, done);
        m := m + 1;
      }
      PartialDone(numSlots, p, w.timers, done);
    }

    method OnTick() returns (tasks: seq<Task<K, V>>)
      requires Valid()
      modifies this, Repr
      ensures Valid() && Repr == old(Repr)
      ensures View() == WheelSpec.OnTick(old(View())).0
      ensures Runs(tasks, WheelSpec.OnTick(old(View())).1)
    {
      RingAdd(tickedPos, 1, numSlots);
      tickedPos := (tickedPos + 1) % numSlots;
      assert View() == old(View()).(tickedPos := NextPos(old(View())));
      tasks := ScanAndRunTasks();
    }

    /** Takes every entry off one slot list; `taken` says which keys were taken before. */
    method DrainSlot(p: nat, ghost w: Wheel<K, V>, ghost taken: set<K>, before: seq<Task<K, V>>)
      returns (tasks: seq<Task<K, V>>, ghost taken': set<K>)
      requires Valid() && p < numSlots
      requires View() == w.(timers := w.timers - taken) && Runs(before, Taken(w.timers, taken))
      modifies this
      ensures Valid() && Repr == old(Repr)
      ensures slots == old(slots)[p := []]
      ensures View() == w.(timers := w.timers - taken') && Runs(tasks, Taken(w.timers, taken'))
    {
      tasks, taken' := before, taken;
      while |slots[p]| > 0
        invariant Valid() && Repr == old(Repr)
        invariant slots == old(slots)[p := slots[p]]
        invariant View() == w.(timers := w.timers - taken') && Runs(tasks, Taken(w.timers, taken'))
        decreases |slots[p]|
      {
        tasks, taken' := DrainNext(p, w, taken', tasks);
      }
    }

    method DrainNext(p: nat, ghost w: Wheel<K, V>, ghost taken: set<K>, before: seq<Task<K, V>>)
      returns (tasks: seq<Task<K, V>>, ghost taken': set<K>)
      requires Valid() && p < numSlots && |slots[p]| > 0
      requires View() == w.(timers := w.timers - taken) && Runs(before, Taken(w.timers, taken))
      modifies this`slots, this`timers
      ensures Valid() && slots == old(slots)[p := old(slots[p])[1..]]
      ensures View() == w.(timers := w.timers - taken') && Runs(tasks, Taken(w.timers, taken'))
    {
      tasks, taken' := before, taken;
      var task := slots[p][0];
      assert task in slots[p];
      assert RemoveAt(slots[p], 0) == slots[p][1..];
      if task.removed {
        DropAt(p, 0);
      } else {
        assert task.key in View().timers && View().timers[task.key].value == task.value;
        TakeStep(w.timers, taken, task.key, before);
        tasks, taken' := before + [Task(task.key, task.value)], taken + {task.key};
        TakeAt(p, 0);
      }
    }

    method DrainAll() returns (tasks: seq<Task<K, V>>)
      requires Valid()
      modifies this
      ensures Valid() && Repr == old(Repr)
      ensures View() == old(View()).(timers := map[])
      ensures Runs(tasks, Values(old(View()).timers))
    {
      ghost var w, taken := View(), {};
      tasks := [];
      assert w.timers - taken == w.timers;
      for p := 0 to numSlots
        invariant Valid() && Repr == old(Repr)
        invariant forall q | 0 <= q < p :: slots[q] == []
        invariant View() == w.(timers := w.timers - taken) && Runs(tasks, Taken(w.timers, taken))
      {
        tasks, taken := DrainSlot(p, w, taken, tasks);
      }
      NothingLeft(slots, timers, Repr);
      AllTaken(w.timers, taken);
    }

    // The calls that reach the wheel through its channels.  A nil key or a delay that is not positive is refused.
    // `taken` is the outcome of the select between the wheel's channel and the closed one of a stopped wheel.

    method SetTimer(key: Option<K>, value: V, delay: int, taken: bool) returns (r: Status)
      requires Valid()
      modifies this, Repr
      ensures Valid() && fresh(Repr - old(Repr))
      ensures r.ErrArgument? <==> delay <= 0 || key.None?
      ensures r.ErrClosed? <==> delay > 0 && key.Some? && !taken
      ensures View() == if delay > 0 && key.Some? && taken then WheelSpec.SetTask(old(View()), key.value, value, delay) else old(View())
    {
      r := StatusOf(key, delay, taken);
      if r.Accepted? {
        SetTask(key.value, value, delay);
      }
    }

    method RemoveTimer(key: Option<K>, taken: bool) returns (r: Status)
      requires Valid()
      modifies this, Repr
      ensures Valid() && Repr == old(Repr)
      ensures r.ErrArgument? <==> key.None?
      ensures r.ErrClosed? <==> key.Some? && !taken
      ensures View() == if key.Some? && taken then WheelSpec.RemoveTask(old(View()), key.value) else old(View())
    {
      r := if key.None? then ErrArgument else if taken then Accepted else ErrClosed;
      if r.Accepted? {
        RemoveTask(key.value);
      }
    }

    method MoveTimer(key: Option<K>, delay: int, taken: bool) returns (r: Status, tasks: seq<Task<K, V>>)
      requires Valid()
      modifies this, Repr
      ensures Valid() && fresh(Repr - old(Repr))
      ensures r.ErrArgument? <==> delay <= 0 || key.None?
      ensures r.ErrClosed? <==> delay > 0 && key.Some? && !taken
      ensures if delay > 0 && key.Some? && taken
              then View() == WheelSpec.MoveTask(old(View()), key.value, delay).0 && Runs(tasks, WheelSpec.MoveTask(old(View()), key.value, delay).1)
              else View() == old(View()) && tasks == []
    {
      r, tasks := StatusOf(key, delay, taken), [];
      if r.Accepted? {
        tasks := MoveTask(key.value, delay);
      }
    }
  }

  /** What a caller is told: its request has reached the wheel, its argument is bad, or the wheel is stopped. */
  datatype Status = Accepted | ErrArgument | ErrClosed

  function StatusOf<K>(key: Option<K>, delay: int, taken: bool): Status {
    if delay <= 0 || key.None? then ErrArgument else if taken then Accepted else ErrClosed
  }

  /** A new wheel, unless its interval or its number of slots is not positive or it is given no function to run. */
  method NewTimingWheel<K(==), V>(interval: int, numSlots: int, hasExecute: bool) returns (r: Option<TimingWheel<K, V>>)
    ensures r.None? <==> interval <= 0 || numSlots <= 0 || !hasExecute
    ensures r.Some? ==> fresh(r.value) && r.value.Valid() && fresh(r.value.Repr)
                        && r.value.View() == Wheel(numSlots, interval, numSlots - 1, map[])
  {
    if interval <= 0 || numSlots <= 0 || !hasExecute {
      return None;
    }
    var tw := new TimingWheel<K, V>(interval, numSlots);
    return Some(tw);
  }
}
