/**
 The scheduler as a state machine on values: what each operation does to the task table,
 the ready queue, the sleep heap, the zombie list and the buddy allocator behind them.
 */
module SchedulerSpec {
  import opened Bits
  import opened Blocks
  import B = BuddySpec

  datatype Status = Ready | Running | Blocked | Terminated

  /** A task: its stack, its state, and the register in which a result is returned. */
  datatype Task = Task(stackPpn: nat, pages: nat, status: Status, a0: nat)

  datatype SleepEntry = SleepEntry(wake: nat, id: nat)

  /**
   `timers` holds the entries of the sleep heap in the order in which it yields them.
   `deadlines` is history: the time until which the last timed block of a task was to last,
   until the task blocks without one.
   */
  datatype Sched = Sched(
    current: Option<nat>,
    ready: seq<nat>,
    tasks: seq<Option<Task>>,
    zombies: seq<nat>,
    timers: seq<SleepEntry>,
    deadlines: map<nat, nat>,
    buddy: B.BuddyState)

  // ------------------------------------------------------------------- tasks

  predicate Occupied(s: Sched, i: nat) { i < |s.tasks| && s.tasks[i].Some? }

  predicate Has(s: Sched, i: nat, status: Status) { Occupied(s, i) && s.tasks[i].value.status == status }

  /** The block of the buddy allocator that a task's stack occupies. */
  function Stack(t: Task): Block
  {
    if t.pages == 0 then Block(0, 0) else Block(Shift(t.stackPpn, B.PagesToOrder(t.pages)), B.PagesToOrder(t.pages))
  }

  function SetStatus(s: Sched, i: nat, status: Status): Sched
    requires Occupied(s, i)
  {
    s.(tasks := s.tasks[i := Some(s.tasks[i].value.(status := status))])
  }

  // -------------------------------------------------------------- operations

  /** Takes the next task off the ready queue; idle gives way if anything else is ready. */
  function PickNext(ready: seq<nat>): (nat, seq<nat>)
  {
    if ready == [] then (0, [])
    else if ready[0] == 0 && |ready| > 1 then (ready[1], ready[2..] + [0])
    else (ready[0], ready[1..])
  }

  /** Makes the next task current; the table must hold it. */
  function Dispatch(s: Sched): Sched
    requires Occupied(s, PickNext(s.ready).0)
  {
    var (next, rest) := PickNext(s.ready);
    SetStatus(s, next, Running).(current := Some(next), ready := rest)
  }

  /** Frees the slot and the stack of a zombie. */
  function Bury(s: Sched, z: nat): Sched
  {
    var s1 := s.(ready := Without(s.ready, z));
    if !Occupied(s, z) then s1
    else s1.(tasks := s.tasks[z := None], buddy := Release(s.buddy, Stack(s.tasks[z].value)))
  }

  function Release(b: B.BuddyState, stack: Block): B.BuddyState
  {
    B.BuddyState(B.Coalesce(b.free, stack), b.out - {stack})
  }

  function Without(q: seq<nat>, x: nat): seq<nat>
  {
    if q == [] then [] else (if q[0] == x then [] else [q[0]]) + Without(q[1..], x)
  }

  /** Buries zombies from the back of the list until it is empty or its last entry is current. */
  function Reclaim(s: Sched): Sched
    decreases |s.zombies|
  {
    if s.zombies == [] || s.current == Some(s.zombies[|s.zombies| - 1]) then s
    else
      var n := |s.zombies| - 1;
      Reclaim(Bury(s.(zombies := s.zombies[..n]), s.zombies[n]))
  }

  /** A running current task goes to the back of the ready queue. */
  function Requeue(s: Sched): Sched
  {
    if s.current.Some? && Has(s, s.current.value, Running)
    then SetStatus(s, s.current.value, Ready).(ready := s.ready + [s.current.value])
    else s
  }

  /** The current task has a slot, and so has the next one. */
  predicate CanPrepare(s: Sched)
  {
    && (s.current.Some? ==> s.current.value < |s.tasks|)
    && Occupied(Requeue(Reclaim(s)), PickNext(Requeue(Reclaim(s)).ready).0)
  }

  function PrepareNext(s: Sched): Sched
    requires CanPrepare(s)
  {
    Dispatch(Requeue(Reclaim(s)))
  }

  predicate CanBlock(s: Sched)
  {
    && s.current.Some? && Has(s, s.current.value, Running)
    && Occupied(s, PickNext(s.ready).0)
  }

  /** Blocks the current task without a deadline. */
  function BlockCurrent(s: Sched): Sched
    requires CanBlock(s)
  {
    var cur := s.current.value;
    Dispatch(SetStatus(s, cur, Blocked).(deadlines := s.deadlines - {cur}))
  }

  predicate Before(a: SleepEntry, b: SleepEntry) { a.wake < b.wake || (a.wake == b.wake && a.id <= b.id) }

  function Insert(q: seq<SleepEntry>, e: SleepEntry): seq<SleepEntry>
  {
    if q == [] || Before(e, q[0]) then [e] + q else [q[0]] + Insert(q[1..], e)
  }

  /** What a time is on the machine: the word that the sum for it wraps around to. */
  function WakeTime(due: nat): (wake: nat)
    ensures wake <= due && wake < WORD && (wake == due <==> due < WORD) && (due - wake) % WORD == 0
  {
    due % WORD
  }

  /** The current task blocked until `due`, before another one is chosen. */
  function Asleep(s: Sched, due: nat): Sched
    requires CanBlock(s)
  {
    var cur := s.current.value;
    SetStatus(s, cur, Blocked).(timers := Insert(s.timers, SleepEntry(WakeTime(due), cur)),
                                deadlines := s.deadlines[cur := due])
  }

  /** Blocks the current task until `due`. */
  function SleepCurrent(s: Sched, due: nat): Sched
    requires CanBlock(s)
  {
    Dispatch(Asleep(s, due))
  }

  /** Makes a blocked task ready; does nothing to any other. */
  function WakeUp(s: Sched, id: nat): Sched
  {
    if Has(s, id, Blocked) then SetStatus(s, id, Ready).(ready := s.ready + [id]) else s
  }

  function WakeUpWithResult(s: Sched, id: nat, result: nat): Sched
  {
    if Has(s, id, Blocked)
    then s.(tasks := s.tasks[id := Some(s.tasks[id].value.(status := Ready, a0 := result))], ready := s.ready + [id])
    else s
  }

  /** Takes every timer that is due off the heap and wakes its task if it is still blocked. */
  function FinishSleep(s: Sched, now: nat): Sched
    decreases |s.timers|
  {
    if s.timers == [] || s.timers[0].wake > now then s
    else FinishSleep(WakeUp(s.(timers := s.timers[1..]), s.timers[0].id), now)
  }

  /** The current task ends; its slot is kept until its stack is no longer in use. */
  function ExitCurrent(s: Sched): Sched
  {
    if s.current.Some? && Occupied(s, s.current.value)
    then SetStatus(s, s.current.value, Terminated).(zombies := s.zombies + [s.current.value])
    else s
  }

  /** The first empty slot, or the end of the table. */
  function FreeSlot(tasks: seq<Option<Task>>): (i: nat)
    ensures i <= |tasks| && (i < |tasks| ==> tasks[i].None?)
    ensures forall j :: 0 <= j < i ==> tasks[j].Some?
  {
    if tasks == [] || tasks[0].None? then 0 else 1 + FreeSlot(tasks[1..])
  }

  /** Enters a task whose stack is the block at `ppn`. */
  function Enter(s: Sched, ppn: nat, pages: nat, buddy: B.BuddyState): Sched
  {
    var i := FreeSlot(s.tasks);
    var t := Some(Task(ppn, pages, Ready, 0));
    s.(tasks := if i == |s.tasks| then s.tasks + [t] else s.tasks[i := t], ready := s.ready + [i], buddy := buddy)
  }

  // --------------------------------------------------------------- invariant

  ghost predicate Distinct<T(!new)>(q: seq<T>)
  {
    forall i, j :: 0 <= i < j < |q| ==> q[i] != q[j]
  }

  /** The ready queue lists the ready tasks once each; the zombie list, the terminated ones. */
  ghost predicate QueuesOk(s: Sched)
  {
    && Distinct(s.ready) && (forall i: nat :: i in s.ready <==> Has(s, i, Ready))
    && Distinct(s.zombies) && (forall i: nat :: i in s.zombies <==> Has(s, i, Terminated))
  }

  /** Only the current task runs. Idle is ready or running. */
  ghost predicate TasksOk(s: Sched)
  {
    && (forall i: nat :: Has(s, i, Running) ==> s.current == Some(i))
    && (s.current.Some? ==> Occupied(s, s.current.value))
    && (Has(s, 0, Ready) || Has(s, 0, Running))
  }

  /** The heap yields entries in order, and holds the deadline of every task in a timed block. */
  ghost predicate TimersOk(s: Sched)
  {
    && Sorted(s.timers)
    && (forall e :: e in s.timers ==> e.id < |s.tasks|)
    && (forall i: nat :: Has(s, i, Blocked) && i in s.deadlines ==> SleepEntry(WakeTime(s.deadlines[i]), i) in s.timers)
  }

  /** A task's stack starts at its page number and is an outstanding block. */
  ghost predicate StackOk(t: Task, b: B.BuddyState)
  {
    t.pages > 0 && Stack(t) in b.out && FirstPage(Stack(t)) == t.stackPpn
  }

  /** Stacks of occupied slots are outstanding blocks, no two the same. */
  ghost predicate StacksOk(s: Sched)
  {
    && B.Inv(s.buddy)
    && (forall i: nat :: Occupied(s, i) ==> StackOk(s.tasks[i].value, s.buddy))
    && (forall i: nat, j: nat :: Occupied(s, i) && Occupied(s, j) && i != j ==>
          Stack(s.tasks[i].value) != Stack(s.tasks[j].value))
  }

  /** Holds in the middle of a trap too, when the current task may have just terminated. */
  ghost predicate Consistent(s: Sched)
  {
    QueuesOk(s) && TasksOk(s) && StacksOk(s) && TimersOk(s)
  }

  /** Holds between traps: exactly the current task runs. */
  ghost predicate Inv(s: Sched)
  {
    Consistent(s) && s.current.Some? && Has(s, s.current.value, Running)
  }

  // ------------------------------------------------- what operations preserve

  /** First in, first out, except that idle waits until nobody else does. */
  lemma PickIsFifo(ready: seq<nat>)
    requires Distinct(ready)
    ensures var (n, q) := PickNext(ready); var w := Without(ready, 0);
      if w == [] then n == 0 && q == [] else n == w[0] && Without(q, 0) == w[1..]
  {
    if ready != [] && ready[0] == 0 && |ready| > 1 {
      var rest := ready[1..];
      assert rest[0] == ready[1] && rest[1..] == ready[2..] && Without(ready, 0) == Without(rest, 0);
      WithoutConcat(ready[2..], [0], 0);
      assert Without([0], 0) == Without([], 0);
    }
  }

  lemma PickNextFacts(ready: seq<nat>)
    requires Distinct(ready) && ready != []
    ensures var (n, q) := PickNext(ready);
      && n in ready && n !in q && Distinct(q) && (forall i :: i in ready <==> i == n || i in q)
      && (n == 0 ==> ready == [0])
  {
    var (n, q) := PickNext(ready);
    if ready[0] == 0 && |ready| > 1 {
      assert ready == [0, n] + ready[2..];
    } else {
      assert ready == [n] + q;
    }
  }

  lemma DispatchKeeps(s: Sched)
    requires Consistent(s) && s.ready != []
    requires forall i: nat :: !Has(s, i, Running)
    ensures Occupied(s, PickNext(s.ready).0) && Inv(Dispatch(s))
    ensures Dispatch(s).zombies == s.zombies && Dispatch(s).buddy == s.buddy
  {
    hide Stack, B.Inv;
    PickNextFacts(s.ready);
    var (n, q) := PickNext(s.ready);
    assert Has(s, n, Ready);
    var t := Dispatch(s);
    assert forall i: nat, st: Status :: Has(t, i, st) <==> (if i == n then st == Running else Has(s, i, st));
    SameStacks(s, t);
  }

  /** Status and result changes do not touch the stacks. */
  lemma SameStacks(s: Sched, t: Sched)
    requires StacksOk(s) && t.buddy == s.buddy && |t.tasks| == |s.tasks|
    requires forall i: nat :: Occupied(t, i) ==> Occupied(s, i)
    requires forall i: nat :: Occupied(t, i) ==>
               t.tasks[i].value.stackPpn == s.tasks[i].value.stackPpn &&
               t.tasks[i].value.pages == s.tasks[i].value.pages
    ensures StacksOk(t)
  {
    hide B.Inv;
    forall i: nat | Occupied(t, i)
      ensures Stack(t.tasks[i].value) == Stack(s.tasks[i].value)
    {
    }
  }

  /** The entries kept of one more. */
  lemma WithoutNext(q: seq<nat>, i: nat, x: nat)
    requires i <= |q|
    ensures i == 0 ==> Without(q[..i], x) == []
    ensures i < |q| ==> Without(q[..i + 1], x) == Without(q[..i], x) + if q[i] == x then [] else [q[i]]
  {
    if i < |q| {
      assert q[..i + 1] == q[..i] + [q[i]];
      WithoutConcat(q[..i], [q[i]], x);
    }
  }

  lemma {:induction false} WithoutConcat(q: seq<nat>, r: seq<nat>, x: nat)
    ensures Without(q + r, x) == Without(q, x) + Without(r, x)
  {
    if q == [] {
      assert q + r == r;
    } else {
      assert (q + r)[1..] == q[1..] + r;
      WithoutConcat(q[1..], r, x);
    }
  }

  lemma {:induction false} WithoutAbsent(q: seq<nat>, x: nat)
    requires x !in q
    ensures Without(q, x) == q
  {
    if q != [] {
      WithoutAbsent(q[1..], x);
      assert q == [q[0]] + q[1..];
    }
  }

  function BuryLast(s: Sched): Sched
    requires s.zombies != []
  {
    Bury(s.(zombies := s.zombies[..|s.zombies| - 1]), s.zombies[|s.zombies| - 1])
  }

  /** Burying a zombie frees exactly its slot and returns exactly its stack. */
  lemma BuryKeeps(s: Sched)
    requires Consistent(s) && s.zombies != [] && s.current != Some(s.zombies[|s.zombies| - 1])
    ensures var z := s.zombies[|s.zombies| - 1]; var t := BuryLast(s);
      && Consistent(t) && Occupied(s, z)
      && t == s.(zombies := s.zombies[..|s.zombies| - 1], tasks := s.tasks[z := None], buddy := t.buddy)
      && B.Step(s.buddy, B.Dealloc(Stack(s.tasks[z].value)), t.buddy)
  {
    hide Stack, StacksOk, B.Coalesce, Sorted;
    var n := |s.zombies| - 1;
    var z := s.zombies[n];
    assert Has(s, z, Terminated);
    WithoutAbsent(s.ready, z);
    var t := BuryLast(s);
    assert s.zombies == s.zombies[..n] + [z];
    assert forall i: nat, st: Status :: Has(t, i, st) <==> (i != z && Has(s, i, st));
    BuryStacks(s, t, z);
  }

  lemma BuryStacks(s: Sched, t: Sched, z: nat)
    requires StacksOk(s) && Occupied(s, z)
    requires t.tasks == s.tasks[z := None] && t.buddy == Release(s.buddy, Stack(s.tasks[z].value))
    ensures StacksOk(t) && B.Step(s.buddy, B.Dealloc(Stack(s.tasks[z].value)), t.buddy)
  {
    hide Stack, B.Inv, B.Coalesce;
    assert StackOk(s.tasks[z].value, s.buddy);
    B.DeallocKeeps(s.buddy, Stack(s.tasks[z].value), t.buddy);
    assert forall i: nat :: Occupied(t, i) ==> i != z && Occupied(s, i) && t.tasks[i] == s.tasks[i];
  }

  /** Reclaiming spares the current task; unless the last zombie is current it leaves no zombie. */
  lemma {:induction false} ReclaimKeeps(s: Sched)
    requires Consistent(s)
    ensures Consistent(Reclaim(s))
    ensures Reclaim(s) == s.(zombies := Reclaim(s).zombies, tasks := Reclaim(s).tasks, buddy := Reclaim(s).buddy)
    ensures |Reclaim(s).tasks| == |s.tasks|
    ensures forall i: nat :: Occupied(s, i) && (s.current == Some(i) || !Has(s, i, Terminated)) ==>
          Reclaim(s).tasks[i] == s.tasks[i]
    ensures forall i: nat, st: Status :: Has(Reclaim(s), i, st) ==> Has(s, i, st)
    ensures (forall z :: z in s.zombies ==> s.current != Some(z)) ==> Reclaim(s).zombies == []
    decreases |s.zombies|
  {
    if s.zombies != [] && s.current != Some(s.zombies[|s.zombies| - 1]) {
      hide Consistent, Bury, B.Step;
      BuryKeeps(s);
      assert Has(s, s.zombies[|s.zombies| - 1], Terminated) by { ZombieIsTerminated(s); }
      ReclaimKeeps(BuryLast(s));
    }
  }

  lemma ZombieIsTerminated(s: Sched)
    requires Consistent(s) && s.zombies != []
    ensures Has(s, s.zombies[|s.zombies| - 1], Terminated)
  {
  }

  lemma Appended(q: seq<nat>, x: nat)
    requires Distinct(q) && x !in q
    ensures Distinct(q + [x]) && forall i :: i in q + [x] <==> i in q || i == x
  {
  }

  lemma RequeueKeeps(s: Sched)
    requires Consistent(s)
    ensures Consistent(Requeue(s)) && Requeue(s).ready != []
    ensures forall i: nat :: !Has(Requeue(s), i, Running)
  {
    hide Stack, B.Inv;
    var t := Requeue(s);
    if s.current.Some? && Has(s, s.current.value, Running) {
      var c := s.current.value;
      assert forall i: nat, st: Status :: Has(t, i, st) <==> (if i == c then st == Ready else Has(s, i, st));
      Appended(s.ready, c);
      SameStacks(s, t);
    }
    assert 0 in t.ready;
  }

  lemma CurrentHasSlot(s: Sched)
    requires Consistent(s)
    ensures s.current.Some? ==> Occupied(s, s.current.value)
  {
  }

  /** Choosing the next task succeeds whatever the current task is doing, and leaves exactly it running. */
  lemma PrepareKeeps(s: Sched)
    requires Consistent(s)
    ensures CanPrepare(s) && Inv(PrepareNext(s))
  {
    hide Consistent, Inv, Reclaim, Requeue;
    CurrentHasSlot(s);
    ReclaimKeeps(s);
    RequeueKeeps(Reclaim(s));
    DispatchKeeps(Requeue(Reclaim(s)));
  }

  lemma {:induction false} InsertMembers(q: seq<SleepEntry>, e: SleepEntry)
    ensures multiset(Insert(q, e)) == multiset(q) + multiset{e}
    ensures forall x :: x in Insert(q, e) <==> x in q || x == e
  {
    if q != [] && !Before(e, q[0]) {
      InsertMembers(q[1..], e);
      assert q == [q[0]] + q[1..];
    }
  }

  ghost predicate Sorted(q: seq<SleepEntry>)
  {
    forall i, j :: 0 <= i < j < |q| ==> Before(q[i], q[j])
  }

  lemma {:induction false} InsertSorted(q: seq<SleepEntry>, e: SleepEntry)
    requires Sorted(q)
    ensures Sorted(Insert(q, e))
  {
    if q != [] && !Before(e, q[0]) {
      InsertSorted(q[1..], e);
      InsertMembers(q[1..], e);
      var r := Insert(q[1..], e);
      forall j | 0 <= j < |r|
        ensures Before(q[0], r[j])
      {
        assert r[j] in r;
      }
    }
  }

  /** A task other than idle can always block, and another one runs then. */
  lemma BlockKeeps(s: Sched)
    requires Inv(s) && s.current != Some(0)
    ensures CanBlock(s) && Inv(BlockCurrent(s))
  {
    hide Stack, B.Inv;
    var c := s.current.value;
    var t := SetStatus(s, c, Blocked).(deadlines := s.deadlines - {c});
    assert forall i: nat, st: Status :: Has(t, i, st) <==> (if i == c then st == Blocked else Has(s, i, st));
    SameStacks(s, t);
    assert 0 in s.ready;
    DispatchKeeps(t);
    PickNextFacts(s.ready);
  }

  lemma SleepKeeps(s: Sched, wake: nat)
    requires Inv(s) && s.current != Some(0)
    ensures CanBlock(s) && Inv(SleepCurrent(s, wake))
  {
    hide Stack, B.Inv, WakeTime;
    BlockKeeps(s);
    var c := s.current.value;
    var t := Asleep(s, wake);
    assert forall i: nat, st: Status :: Has(t, i, st) <==> (if i == c then st == Blocked else Has(s, i, st));
    InsertMembers(s.timers, SleepEntry(WakeTime(wake), c));
    InsertSorted(s.timers, SleepEntry(WakeTime(wake), c));
    hide Insert, Sorted;
    SameStacks(s, t);
    assert 0 in s.ready;
    DispatchKeeps(t);
    PickNextFacts(s.ready);
  }

  lemma WakeKeeps(s: Sched, id: nat, result: nat)
    requires Inv(s)
    ensures Inv(WakeUp(s, id)) && Inv(WakeUpWithResult(s, id, result))
  {
    hide Stack, B.Inv;
    if Has(s, id, Blocked) {
      var t, u := WakeUp(s, id), WakeUpWithResult(s, id, result);
      assert forall i: nat, st: Status :: Has(t, i, st) <==> (if i == id then st == Ready else Has(s, i, st));
      assert forall i: nat, st: Status :: Has(u, i, st) <==> (if i == id then st == Ready else Has(s, i, st));
      Appended(s.ready, id);
      SameStacks(s, t);
      SameStacks(s, u);
    }
  }

  lemma ExitKeeps(s: Sched)
    requires Inv(s) && s.current != Some(0)
    ensures Consistent(ExitCurrent(s))
  {
    hide Stack, B.Inv;
    var c := s.current.value;
    var t := ExitCurrent(s);
    assert forall i: nat, st: Status :: Has(t, i, st) <==> (if i == c then st == Terminated else Has(s, i, st));
    Appended(s.zombies, c);
    SameStacks(s, t);
  }

  /** Taking the first timer off the heap and waking its task. */
  function PopTimer(s: Sched): Sched
    requires s.timers != []
  {
    WakeUp(s.(timers := s.timers[1..]), s.timers[0].id)
  }

  lemma PopTimerKeeps(s: Sched)
    requires Inv(s) && s.timers != []
    ensures Inv(PopTimer(s))
    ensures var id := s.timers[0].id;
      forall i: nat, st: Status :: Has(PopTimer(s), i, st) <==>
        if i == id && Has(s, id, Blocked) then st == Ready else Has(s, i, st)
  {
    hide Stack, B.Inv;
    var id := s.timers[0].id;
    var t := PopTimer(s);
    assert s.timers == [s.timers[0]] + s.timers[1..];
    if Has(s, id, Blocked) { Appended(s.ready, id); }
    assert forall i: nat, st: Status :: Has(t, i, st) <==>
          if i == id && Has(s, id, Blocked) then st == Ready else Has(s, i, st);
    SameStacks(s, t);
    assert Sorted(t.timers);
    hide Sorted, Distinct;
  }

  /** Some timer of task `i` is due. */
  ghost predicate Due(s: Sched, i: nat, now: nat)
  {
    exists e :: e in s.timers && e.id == i && e.wake <= now
  }

  /**
   Finishing sleeps wakes exactly the blocked tasks that have a timer due, stale timers
   included, and leaves no timer that is due.
   */
  lemma {:induction false} FinishSleepMeans(s: Sched, now: nat)
    requires Inv(s)
    ensures Inv(FinishSleep(s, now))
    ensures forall e :: e in FinishSleep(s, now).timers ==> e in s.timers && e.wake > now
    ensures forall e :: e in s.timers && e.wake > now ==> e in FinishSleep(s, now).timers
    ensures forall i: nat, st: Status :: Has(FinishSleep(s, now), i, st) <==>
              if Has(s, i, Blocked) && Due(s, i, now) then st == Ready else Has(s, i, st)
    ensures FinishSleep(s, now).deadlines == s.deadlines && FinishSleep(s, now).current == s.current
    decreases |s.timers|
  {
    if s.timers == [] || s.timers[0].wake > now {
      assert forall j :: 0 <= j < |s.timers| ==> s.timers[j].wake > now;
    } else {
      PopTimerKeeps(s);
      FinishSleepMeans(PopTimer(s), now);
      DueAfterPop(s, now);
      hide Inv, Due;
    }
  }

  lemma DueAfterPop(s: Sched, now: nat)
    requires s.timers != [] && s.timers[0].wake <= now
    ensures forall i: nat :: Due(s, i, now) <==> i == s.timers[0].id || Due(PopTimer(s), i, now)
    ensures forall e :: e in s.timers <==> e == s.timers[0] || e in PopTimer(s).timers
  {
    assert s.timers == [s.timers[0]] + s.timers[1..];
    assert s.timers[0] in s.timers;
  }

  /** After the timer interrupt no task in a timed block is still blocked past its deadline. */
  lemma DeadlinesAreMet(s: Sched, now: nat, i: nat)
    requires Inv(s)
    ensures var t := FinishSleep(s, now); Has(t, i, Blocked) && i in t.deadlines ==> t.deadlines[i] > now
  {
    FinishSleepMeans(s, now);
  }

  /** A new task takes a free slot, is ready last, and has a stack of its own. */
  lemma EnterKeeps(s: Sched, ppn: nat, pages: nat, b: B.BuddyState)
    requires Consistent(s) && pages > 0 && FirstPage(Stack(Task(ppn, pages, Ready, 0))) == ppn
    requires B.Step(s.buddy, B.Alloc(pages, Some(Stack(Task(ppn, pages, Ready, 0)))), b)
    ensures Consistent(Enter(s, ppn, pages, b)) && (Inv(s) ==> Inv(Enter(s, ppn, pages, b)))
    ensures forall i: nat :: Occupied(s, i) ==> Enter(s, ppn, pages, b).tasks[i] == s.tasks[i]
  {
    hide Stack, B.Inv, B.Step, StacksOk, FreeSlot, Distinct, Sorted;
    EnterStacks(s, ppn, pages, b);
    var t := Enter(s, ppn, pages, b);
    var n := FreeSlot(s.tasks);
    assert forall i: nat, st: Status :: Has(t, i, st) <==> if i == n then st == Ready else Has(s, i, st);
    Appended(s.ready, n);
  }

  lemma FreshStack(b0: B.BuddyState, pages: nat, stack: Block, b: B.BuddyState)
    requires B.Inv(b0) && B.Step(b0, B.Alloc(pages, Some(stack)), b)
    ensures B.Inv(b) && stack !in b0.out && b.out == b0.out + {stack}
  {
    B.StepKeeps(b0, B.Alloc(pages, Some(stack)), b);
    B.AllocResult(b0, pages, stack, b);
    WithinSelf(stack);
  }

  lemma EnterStacks(s: Sched, ppn: nat, pages: nat, b: B.BuddyState)
    requires StacksOk(s) && pages > 0 && FirstPage(Stack(Task(ppn, pages, Ready, 0))) == ppn
    requires B.Step(s.buddy, B.Alloc(pages, Some(Stack(Task(ppn, pages, Ready, 0)))), b)
    ensures StacksOk(Enter(s, ppn, pages, b))
  {
    hide Stack, B.Inv, B.Step, FreeSlot;
    var stack := Stack(Task(ppn, pages, Ready, 0));
    FreshStack(s.buddy, pages, stack, b);
    var t := Enter(s, ppn, pages, b);
    var n := FreeSlot(s.tasks);
    assert forall i: nat :: Occupied(t, i) <==> i == n || Occupied(s, i);
    assert forall i: nat :: Occupied(s, i) ==> t.tasks[i] == s.tasks[i];
    assert Stack(t.tasks[n].value) == stack;
  }

  /** What other users of the allocator do leaves the stacks alone, as long as they return only what is theirs. */
  lemma OtherUseKeeps(s: Sched, call: B.Call, b: B.BuddyState)
    requires Consistent(s) && B.Step(s.buddy, call, b)
    requires call.Dealloc? ==> forall i: nat :: Occupied(s, i) ==> Stack(s.tasks[i].value) != call.block
    ensures Consistent(s.(buddy := b)) && (Inv(s) ==> Inv(s.(buddy := b)))
  {
    hide Stack, B.Inv, Distinct, Sorted;
    B.StepKeeps(s.buddy, call, b);
    var t := s.(buddy := b);
    assert forall i: nat, st: Status :: Has(t, i, st) <==> Has(s, i, st);
    assert forall x :: x in s.buddy.out && call != B.Dealloc(x) ==> x in b.out;
  }

  // ------------------------------------------ what operations leave unchanged

  lemma DispatchFrame(s: Sched)
    requires Consistent(s) && s.ready != []
    ensures Occupied(s, PickNext(s.ready).0)
    ensures var t := Dispatch(s);
      && t == s.(current := t.current, ready := t.ready, tasks := t.tasks) && |t.tasks| == |s.tasks|
      && (forall i: nat :: Has(t, i, Blocked) <==> Has(s, i, Blocked))
      && (forall i: nat :: Occupied(s, i) ==> Occupied(t, i) && Stack(t.tasks[i].value) == Stack(s.tasks[i].value))
  {
    PickNextFacts(s.ready);
    var (n, q) := PickNext(s.ready);
    assert Has(s, n, Ready);
  }

  /** Choosing the next task changes who runs and which zombies are left, not who is blocked. */
  lemma PrepareFrame(s: Sched)
    requires Consistent(s)
    ensures CanPrepare(s)
    ensures var t := PrepareNext(s);
      && t.timers == s.timers && t.deadlines == s.deadlines && |t.tasks| == |s.tasks|
      && (forall i: nat :: Has(t, i, Blocked) <==> Has(s, i, Blocked))
      && t.zombies == Reclaim(s).zombies && t.buddy == Reclaim(s).buddy
      && (forall i: nat :: Occupied(s, i) && (s.current == Some(i) || !Has(s, i, Terminated)) ==>
            Occupied(t, i) && Stack(t.tasks[i].value) == Stack(s.tasks[i].value))
  {
    hide Stack, Reclaim;
    PrepareKeeps(s);
    ReclaimKeeps(s);
    RequeueKeeps(Reclaim(s));
    hide Consistent;
    var r := Reclaim(s);
    RequeueStacks(r);
    DispatchFrame(Requeue(r));
    assert forall i: nat :: Has(Requeue(r), i, Blocked) <==> Has(r, i, Blocked);
    assert forall i: nat :: Has(s, i, Blocked) ==> r.tasks[i] == s.tasks[i];
  }

  lemma RequeueStacks(s: Sched)
    ensures |Requeue(s).tasks| == |s.tasks|
    ensures forall i: nat :: Occupied(s, i) ==>
          Occupied(Requeue(s), i) && Stack(Requeue(s).tasks[i].value) == Stack(s.tasks[i].value)
  {
  }

  /** The slot and the stack of the current task survive the choice of the next one. */
  lemma CurrentSurvives(s: Sched)
    requires Consistent(s) && s.current.Some?
    ensures CanPrepare(s)
    ensures var t := PrepareNext(s); var c := s.current.value;
      && Occupied(s, c) && Occupied(t, c) && Stack(t.tasks[c].value) == Stack(s.tasks[c].value)
      && Stack(s.tasks[c].value) in t.buddy.out
  {
    hide Stack, Reclaim, B.Inv;
    PrepareFrame(s);
    PrepareKeeps(s);
    var t := PrepareNext(s);
    var c := s.current.value;
    assert Occupied(t, c) && StackOk(t.tasks[c].value, t.buddy);
  }

  /** Entered with a live current task, it buries every zombie; entered just after an exit, none. */
  lemma ZombiesAfterPrepare(s: Sched)
    requires Consistent(s)
    ensures CanPrepare(s)
    ensures (s.current.Some? ==> !Has(s, s.current.value, Terminated)) ==> PrepareNext(s).zombies == []
    ensures s.zombies != [] && s.current == Some(s.zombies[|s.zombies| - 1]) ==>
              PrepareNext(s).zombies == s.zombies && PrepareNext(s).buddy == s.buddy
  {
    PrepareFrame(s);
    ReclaimKeeps(s);
  }

  lemma BlockFrame(s: Sched, wake: nat)
    requires Inv(s) && s.current != Some(0)
    ensures CanBlock(s)
    ensures var c := s.current.value; var t, u := BlockCurrent(s), SleepCurrent(s, wake);
      && (forall i: nat :: Has(t, i, Blocked) <==> i == c || Has(s, i, Blocked))
      && (forall i: nat :: Has(u, i, Blocked) <==> i == c || Has(s, i, Blocked))
      && t.timers == s.timers && t.deadlines == s.deadlines - {c} && |t.tasks| == |s.tasks|
      && u.timers == Insert(s.timers, SleepEntry(WakeTime(wake), c)) && u.deadlines == s.deadlines[c := wake]
      && |u.tasks| == |s.tasks|
      && (forall i: nat :: Occupied(s, i) ==>
            && Occupied(t, i) && Stack(t.tasks[i].value) == Stack(s.tasks[i].value)
            && Occupied(u, i) && Stack(u.tasks[i].value) == Stack(s.tasks[i].value))
  {
    hide Insert, WakeTime;
    BlockKeeps(s);
    SleepKeeps(s, wake);
    assert 0 in s.ready;
    PickNextFacts(s.ready);
    var (n, q) := PickNext(s.ready);
    assert Has(s, n, Ready);
  }

  // --------------------------------------------------------------- waiting

  /** Task `t` waits at position `p` of the ready queue. */
  ghost predicate WaitsAt(s: Sched, t: nat, p: nat) { p < |s.ready| && s.ready[p] == t }

  /** A choice of the next task brings a waiting task other than idle forward, or runs it. */
  lemma DispatchAdvances(s: Sched, t: nat, p: nat) returns (q: nat)
    requires t != 0 && WaitsAt(s, t, p) && Occupied(s, PickNext(s.ready).0)
    ensures Dispatch(s).current == Some(t) || (q < p && WaitsAt(Dispatch(s), t, q))
  {
    if s.ready[0] == 0 && |s.ready| > 1 {
      q := if p >= 2 then p - 2 else 0;
    } else {
      q := if p >= 1 then p - 1 else 0;
    }
  }

  lemma PrepareAdvances(s: Sched, t: nat, p: nat) returns (q: nat)
    requires Consistent(s) && t != 0 && WaitsAt(s, t, p)
    ensures CanPrepare(s)
    ensures PrepareNext(s).current == Some(t) || (q < p && WaitsAt(PrepareNext(s), t, q))
  {
    hide Consistent, Reclaim;
    PrepareKeeps(s);
    ReclaimKeeps(s);
    q := DispatchAdvances(Requeue(Reclaim(s)), t, p);
  }

  lemma {:induction false} FinishSleepAppends(s: Sched, now: nat)
    ensures s.ready <= FinishSleep(s, now).ready
    decreases |s.timers|
  {
    if s.timers != [] && s.timers[0].wake <= now {
      FinishSleepAppends(PopTimer(s), now);
    }
  }
}
