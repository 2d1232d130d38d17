/**
 What each trap does to the tasks: who joins the line of waiting tasks and who runs next,
 which result registers change, and what a system call means for the task that made it.
 */
module Traps {
  import opened Bits
  import opened SchedulerSpec
  import opened Kernel
  import B = BuddySpec
  import Syscalls

  // ------------------------------------------------------ the line of waiting

  /** The ready tasks other than idle, in the order in which they are to run. */
  function Line(s: Sched): seq<nat> { Without(s.ready, 0) }

  lemma {:induction false} WithoutFacts(q: seq<nat>, x: nat)
    requires Distinct(q)
    ensures Distinct(Without(q, x)) && forall i :: i in Without(q, x) <==> i in q && i != x
  {
    if q != [] {
      assert q == [q[0]] + q[1..];
      WithoutFacts(q[1..], x);
      var w := Without(q[1..], x);
      assert q[0] !in w;
      assert Distinct([q[0]] + w);
    }
  }

  /** The next task is the first in line, and idle only if nobody is. */
  lemma DispatchLine(s: Sched)
    requires Distinct(s.ready) && Occupied(s, PickNext(s.ready).0)
    ensures var t := Dispatch(s);
      if Line(s) == [] then t.current == Some(0) && Line(t) == []
      else t.current == Some(Line(s)[0]) && Line(t) == Line(s)[1..]
  {
    hide Without;
    PickIsFifo(s.ready);
    assert Without([], 0) == [] by { WithoutNext([], 0, 0); }
  }

  /** A task other than idle. */
  function NotIdle(i: nat): seq<nat> { if i == 0 then [] else [i] }

  lemma LineGrows(s: Sched, t: Sched, more: seq<nat>)
    requires t.ready == s.ready + more
    ensures Line(t) == Line(s) + Without(more, 0)
  {
    WithoutConcat(s.ready, more, 0);
  }

  lemma LineGrowsByOne(s: Sched, t: Sched, i: nat)
    requires t.ready == s.ready + [i]
    ensures Line(t) == Line(s) + NotIdle(i)
  {
    LineGrows(s, t, [i]);
    assert [i][1..] == [];
  }

  lemma PrepareLine(s: Sched)
    requires Consistent(s)
    ensures CanPrepare(s)
    ensures var t := PrepareNext(s);
      var runs := s.current.Some? && Has(s, s.current.value, Running);
      var line := Line(s) + if runs then NotIdle(s.current.value) else [];
      if line == [] then t.current == Some(0) && Line(t) == []
      else t.current == Some(line[0]) && Line(t) == line[1..]
  {
    hide Consistent, Without;
    PrepareKeeps(s);
    ReclaimKeeps(s);
    var r := Reclaim(s);
    hide Reclaim;
    if s.current.Some? {
      SameCurrent(s, r);
      if Has(s, s.current.value, Running) {
        LineGrowsByOne(r, Requeue(r), s.current.value);
      }
    }
    RequeueDistinct(r);
    DispatchLine(Requeue(r));
  }

  lemma SameCurrent(s: Sched, r: Sched)
    requires Consistent(s) && r == Reclaim(s) && s.current.Some?
    ensures Has(r, s.current.value, Running) <==> Has(s, s.current.value, Running)
  {
    ReclaimKeeps(s);
  }

  lemma RequeueDistinct(s: Sched)
    requires Consistent(s)
    ensures Distinct(Requeue(s).ready)
  {
    if s.current.Some? && Has(s, s.current.value, Running) {
      hide Distinct, StacksOk, TasksOk, TimersOk;
      assert s.current.value !in s.ready;
      Appended(s.ready, s.current.value);
    }
  }

  /** The tasks that a timer interrupt wakes, in the order in which they join the line. */
  function Woken(s: Sched, now: nat): seq<nat>
  {
    FinishSleepAppends(s, now);
    FinishSleep(s, now).ready[|s.ready|..]
  }

  /** They are the blocked tasks with a timer that is due, once each. */
  lemma WokenAreDue(s: Sched, now: nat, i: nat)
    requires Inv(s)
    ensures Distinct(Woken(s, now)) && (i in Woken(s, now) <==> Has(s, i, Blocked) && Due(s, i, now))
  {
    hide Due, FinishSleep, StacksOk, TasksOk, TimersOk;
    FinishSleepMeans(s, now);
    FinishSleepAppends(s, now);
    var t := FinishSleep(s, now);
    assert t.ready == s.ready + Woken(s, now);
    assert i in t.ready <==> Has(t, i, Ready);
    assert i in s.ready <==> Has(s, i, Ready);
    assert i in s.ready ==> i !in Woken(s, now);
  }

  /** The tasks that join the line at an event, in order. */
  function Joins(s: Sys, e: Event): seq<nat>
    requires s.sched.current.Some?
  {
    match e
    case Timer(now) => Woken(s.sched, now) + NotIdle(s.sched.current.value)
    case Yield => NotIdle(s.sched.current.value)
    case Receive(byte) =>
      if byte < 0x80 && s.uart.waiting != [] && Has(s.sched, s.uart.waiting[|s.uart.waiting| - 1], Blocked)
      then [s.uart.waiting[|s.uart.waiting| - 1]] else []
    case Spawn(_, Some(_), _) => [FreeSlot(s.sched.tasks)]
    case _ => []
  }

  /**
   The line is first in, first out: whoever joins goes to its end, and an event that chooses
   a task takes the first one, or idle if the line is empty.
   */
  lemma StepLine(s: Sys, e: Event)
    requires SysInv(s) && Legal(s, e)
    ensures Safe(s, e) && s.sched.current.Some?
    ensures var t := Next(s, e).sched; var line := Line(s.sched) + Joins(s, e);
      if !IsDispatch(s, e) then t.current == s.sched.current && Line(t) == line
      else if line == [] then t.current == Some(0) && Line(t) == []
      else t.current == Some(line[0]) && Line(t) == line[1..]
  {
    hide Inv, Consistent, B.Step, FinishSleep, PrepareNext, CanPrepare, CanBlock, Reclaim, Without, Stack, FreeSlot;
    StepKeeps(s, e);
    CurrentIsOccupied(s.sched);
    InvIsConsistent(s.sched);
    IdleIsAwake(s.sched);
    match e
    case Timer(now) => TimerLine(s, now);
    case Yield => PrepareLine(s.sched);
    case Exit => ExitLine(s.sched);
    case Sleep(ms, at) => BlockLine(s.sched, DueAt(at, ms));
    case Read(ms, at) =>
      if WillBlock(s, e) {
        A0Keeps(s.sched, FOREVER);
        BlockLine(SetA0(s.sched, FOREVER), DueAt(at, ms));
      }
    case Receive(byte) =>
      if Joins(s, e) != [] {
        LineGrowsByOne(s.sched, Next(s, e).sched, Joins(s, e)[0]);
      }
    case Spawn(size, Some(ppn), b) =>
      LineGrowsByOne(s.sched, Next(s, e).sched, FreeSlot(s.sched.tasks));
    case _ =>
  }

  /** Idle is in the table, runs or is ready, and so is the current task. */
  lemma IdleIsAwake(s: Sched)
    requires Inv(s)
    ensures Occupied(s, 0) && !Has(s, 0, Blocked) && s.current.Some? && Has(s, s.current.value, Running)
    ensures FreeSlot(s.tasks) != 0
  {
  }

  lemma TimerLine(s: Sys, now: nat)
    requires SysInv(s) && Safe(s, Timer(now)) && s.sched.current.Some?
    ensures var t := Next(s, Timer(now)).sched; var line := Line(s.sched) + Joins(s, Timer(now));
      if line == [] then t.current == Some(0) && Line(t) == []
      else t.current == Some(line[0]) && Line(t) == line[1..]
  {
    hide Inv, Consistent, FinishSleep, PrepareNext, CanPrepare, Without, Due;
    var f, woken := FinishSleep(s.sched, now), Woken(s.sched, now);
    FinishSleepMeans(s.sched, now);
    FinishSleepAppends(s.sched, now);
    InvIsConsistent(f);
    IdleIsAwake(f);
    IdleIsAwake(s.sched);
    assert f.ready == s.sched.ready + woken;
    LineGrows(s.sched, f, woken);
    WokenAreDue(s.sched, now, 0);
    WithoutAbsent(woken, 0);
    PrepareLine(f);
    assert Line(s.sched) + Joins(s, Timer(now)) == Line(f) + NotIdle(f.current.value);
  }

  lemma ExitLine(s: Sched)
    requires Inv(s) && s.current != Some(0)
    ensures CanPrepare(ExitCurrent(s))
    ensures var t := PrepareNext(ExitCurrent(s));
      if Line(s) == [] then t.current == Some(0) && Line(t) == []
      else t.current == Some(Line(s)[0]) && Line(t) == Line(s)[1..]
  {
    hide Consistent, PrepareNext, CanPrepare, Without;
    CurrentIsOccupied(s);
    ExitKeeps(s);
    PrepareLine(ExitCurrent(s));
  }

  lemma BlockLine(s: Sched, due: nat)
    requires Inv(s) && s.current != Some(0)
    ensures CanBlock(s)
    ensures forall t :: t in {BlockCurrent(s), SleepCurrent(s, due)} ==>
              if Line(s) == [] then t.current == Some(0) && Line(t) == []
              else t.current == Some(Line(s)[0]) && Line(t) == Line(s)[1..]
  {
    BlockStep(s, due);
    hide Without, Insert, StacksOk, TimersOk;
    var c := s.current.value;
    DispatchLine(Asleep(s, due));
    DispatchLine(SetStatus(s, c, Blocked).(deadlines := s.deadlines - {c}));
  }

  // --------------------------------------------------------- first come, first served

  ghost predicate Ahead(q: seq<nat>, i: nat, j: nat)
  {
    exists a, b :: 0 <= a < b < |q| && q[a] == i && q[b] == j
  }

  lemma AheadStep(s: Sys, e: Event, i: nat, j: nat)
    requires SysInv(s) && Legal(s, e) && Ahead(Line(s.sched), i, j)
    ensures Safe(s, e)
    ensures Next(s, e).sched.current == Some(i) || Ahead(Line(Next(s, e).sched), i, j)
  {
    hide Legal, Safe, Next, Without, IsDispatch;
    StepLine(s, e);
    WithoutFacts(s.sched.ready, 0);
    var line, t := Line(s.sched) + Joins(s, e), Next(s, e).sched;
    var a, b :| 0 <= a < b < |Line(s.sched)| && Line(s.sched)[a] == i && Line(s.sched)[b] == j;
    assert line[a] == i && line[b] == j && line[0] == Line(s.sched)[0];
    if IsDispatch(s, e) && a > 0 {
      assert line[1..][a - 1] == i && line[1..][b - 1] == j;
    }
  }

  /** Of two tasks in line the one ahead runs first: until it does, the other one is never chosen. */
  lemma {:induction false} RunsInOrder(ss: seq<Sys>, es: seq<Event>, n: nat, m: nat, i: nat, j: nat)
    requires Run(ss, es) && n <= m < |ss| && Ahead(Line(ss[n].sched), i, j)
    requires forall k :: n < k <= m ==> ss[k].sched.current != Some(i)
    ensures Ahead(Line(ss[m].sched), i, j) && (n < m ==> ss[m].sched.current != Some(j))
    decreases m
  {
    hide SysInv, Legal, Safe, Next, Ahead, Without, IsDispatch;
    if n < m {
      RunsInOrder(ss, es, n, m - 1, i, j);
      RunKeeps(ss, es, m - 1);
      AheadStep(ss[m - 1], es[m - 1], i, j);
      RunKeeps(ss, es, m);
      InLineIsNotCurrent(ss[m], i, j);
    }
  }

  lemma InLineIsNotCurrent(s: Sys, i: nat, j: nat)
    requires SysInv(s) && Ahead(Line(s.sched), i, j)
    ensures s.sched.current != Some(j)
  {
    WithoutFacts(s.sched.ready, 0);
    assert j in Line(s.sched);
    assert Has(s.sched, j, Ready);
  }

  /** Of two tasks that a tick wakes, the one whose timer is due first goes ahead. */
  lemma {:induction false} WokenInOrder(s: Sched, now: nat, i: nat, j: nat, p: nat)
    requires Inv(s) && p < |s.timers| && s.timers[p].id == i && s.timers[p].wake <= now
    requires i != j && forall q :: 0 <= q <= p ==> s.timers[q].id != j
    requires Has(s, i, Blocked) && Has(s, j, Blocked) && Due(s, j, now)
    ensures Ahead(FinishSleep(s, now).ready, i, j)
    decreases p
  {
    hide QueuesOk, TasksOk, StacksOk, Due;
    var x, t := s.timers[0], PopTimer(s);
    assert x.wake <= now by { assert p > 0 ==> Before(x, s.timers[p]); }
    DueLater(s, now, j);
    PopTimerKeeps(s);
    hide Inv;
    if x.id == i {
      WokenLater(t, now, i, j);
    } else {
      WokenInOrder(t, now, i, j, p - 1);
    }
  }

  lemma DueLater(s: Sched, now: nat, j: nat)
    requires s.timers != [] && s.timers[0].id != j && Due(s, j, now)
    ensures PopTimer(s).timers == s.timers[1..] && Due(PopTimer(s), j, now)
  {
    var e :| e in s.timers && e.id == j && e.wake <= now;
    assert s.timers == [s.timers[0]] + s.timers[1..];
    assert e in PopTimer(s).timers;
  }

  lemma WokenLater(s: Sched, now: nat, i: nat, j: nat)
    requires Inv(s) && Has(s, i, Ready) && Has(s, j, Blocked) && Due(s, j, now)
    ensures Ahead(FinishSleep(s, now).ready, i, j)
  {
    hide Due, FinishSleep, StacksOk, TasksOk, TimersOk;
    WokenAreDue(s, now, j);
    FinishSleepAppends(s, now);
    var t := FinishSleep(s, now);
    assert t.ready == s.ready + Woken(s, now);
    assert i in s.ready;
    var a :| 0 <= a < |s.ready| && s.ready[a] == i;
    var b :| 0 <= b < |Woken(s, now)| && Woken(s, now)[b] == j;
    assert t.ready[a] == i && t.ready[|s.ready| + b] == j;
  }
}
