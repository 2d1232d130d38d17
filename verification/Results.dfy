/**
 Result registers and system calls: what a call returns to the task that made it, what it
 leaves that task as, and that no other task's result changes.
 */
module Results {
  import opened Bits
  import opened SchedulerSpec
  import opened Kernel
  import opened Traps
  import B = BuddySpec
  import Syscalls

  /** The register in which task `i` finds its result. */
  function A0(s: Sched, i: nat): nat
    requires Occupied(s, i)
  {
    s.tasks[i].value.a0
  }

  // ------------------------------------------------- what leaves results alone

  /** Every task that is still there is as it was, but for its status. */
  ghost predicate OnlyStatus(s: Sched, t: Sched)
  {
    forall i: nat :: Occupied(t, i) ==>
      Occupied(s, i) && t.tasks[i].value == s.tasks[i].value.(status := t.tasks[i].value.status)
  }

  lemma {:induction false} ReclaimOnly(s: Sched)
    ensures OnlyStatus(s, Reclaim(s))
    decreases |s.zombies|
  {
    if s.zombies != [] && s.current != Some(s.zombies[|s.zombies| - 1]) {
      hide Without, Stack;
      ReclaimOnly(BuryLast(s));
    }
  }

  lemma {:induction false} FinishSleepOnly(s: Sched, now: nat)
    ensures OnlyStatus(s, FinishSleep(s, now))
    decreases |s.timers|
  {
    if s.timers != [] && s.timers[0].wake <= now {
      FinishSleepOnly(PopTimer(s), now);
    }
  }

  lemma PrepareOnly(s: Sched)
    requires CanPrepare(s)
    ensures OnlyStatus(s, PrepareNext(s))
  {
    ReclaimOnly(s);
    hide Reclaim, PickNext;
  }

  lemma BlockOnly(s: Sched, due: nat)
    requires CanBlock(s)
    ensures OnlyStatus(s, BlockCurrent(s)) && OnlyStatus(s, SleepCurrent(s, due))
  {
    hide PickNext, Insert;
  }

  lemma TimerOnly(s: Sched, now: nat)
    requires CanPrepare(FinishSleep(s, now))
    ensures OnlyStatus(s, PrepareNext(FinishSleep(s, now)))
  {
    hide FinishSleep, PrepareNext, CanPrepare;
    FinishSleepOnly(s, now);
    PrepareOnly(FinishSleep(s, now));
  }

  /** The only task whose result register an event may write. */
  function Writes(s: Sys, e: Event): set<nat>
    requires s.sched.current.Some?
  {
    if e.Read? || e.Write? then {s.sched.current.value}
    else if e.Receive? && e.byte < 0x80 && s.uart.waiting != [] then {s.uart.waiting[|s.uart.waiting| - 1]}
    else {}
  }

  /**
   A write returns 0; a read returns the oldest byte of the ring, or is left with the largest
   word if there is none; a byte that arrives becomes the result of the last task to wait, if
   it is still blocked. No event changes the result of any other task.
   */
  lemma StepResults(s: Sys, e: Event)
    requires SysInv(s) && Legal(s, e)
    ensures Safe(s, e) && s.sched.current.Some?
    ensures var c, t := s.sched.current.value, Next(s, e).sched;
      && Occupied(s.sched, c) && Occupied(t, c)
      && (forall i: nat :: Occupied(s.sched, i) && Occupied(t, i) && i !in Writes(s, e) ==> A0(t, i) == A0(s.sched, i))
      && (e.Write? ==> A0(t, c) == 0)
      && (e.Read? ==> A0(t, c) == if s.uart.ring != [] then s.uart.ring[0] else 0xFFFF_FFFF_FFFF_FFFF)
      && (e.Receive? ==>
            forall w: nat :: w in Writes(s, e) && Occupied(s.sched, w) ==>
              Occupied(t, w) && A0(t, w) == if Has(s.sched, w, Blocked) then e.byte else A0(s.sched, w))
  {
    hide Inv, Consistent, B.Step, FinishSleep, PrepareNext, CanPrepare, BlockCurrent, SleepCurrent, CanBlock, Reclaim,
         Stack;
    StepKeeps(s, e);
    CurrentIsOccupied(s.sched);
    SlotIsKept(s, e);
    match e
    case Timer(now) => TimerOnly(s.sched, now);
    case Yield => PrepareOnly(s.sched);
    case Exit => ExitOnly(s.sched);
    case Sleep(ms, at) => BlockOnly(s.sched, DueAt(at, ms));
    case Read(ms, at) =>
      if s.uart.ring != [] {
        RingPops(s.uart, |s.sched.tasks|);
      } else if ms > 0 {
        BlockOnly(SetA0(s.sched, FOREVER), DueAt(at, ms));
      }
    case _ =>
  }

  lemma ExitOnly(s: Sched)
    requires s.current.Some? && Occupied(s, s.current.value) && CanPrepare(ExitCurrent(s))
    ensures OnlyStatus(s, PrepareNext(ExitCurrent(s)))
  {
    hide PrepareNext, CanPrepare;
    PrepareOnly(ExitCurrent(s));
  }

  // ----------------------------------------------------------- what reads return

  /** A byte is counted as delivered exactly when it becomes the result of a read. */
  lemma DeliveredIsResult(s: Sys, e: Event)
    requires SysInv(s) && Legal(s, e)
    ensures Safe(s, e) && s.sched.current.Some?
    ensures var u, t := s.uart, Next(s, e);
      if e.Read? && u.ring != [] then
        t.uart.delivered == u.delivered + [u.ring[0]] && Occupied(t.sched, s.sched.current.value) &&
        A0(t.sched, s.sched.current.value) == u.ring[0]
      else if e.Receive? && e.byte < 0x80 && u.waiting != [] && InRead(s, u.waiting[|u.waiting| - 1]) then
        t.uart.delivered == u.delivered + [e.byte] && Has(t.sched, u.waiting[|u.waiting| - 1], Ready) &&
        A0(t.sched, u.waiting[|u.waiting| - 1]) == e.byte
      else t.uart.delivered == u.delivered
  {
    hide Inv, Legal, FinishSleep, PrepareNext, CanPrepare, BlockCurrent, SleepCurrent, CanBlock;
    StepResults(s, e);
    if e.Read? && s.uart.ring != [] {
      RingPops(s.uart, |s.sched.tasks|);
    }
  }

  /** Whoever is blocked in a read has the result of a read that got nothing. */
  ghost predicate Pending(s: Sys)
  {
    forall i: nat :: InRead(s, i) ==> A0(s.sched, i) == FOREVER
  }

  /** Nobody becomes blocked but the current task, by a call that blocks. */
  lemma BlockedBefore(s: Sys, e: Event, i: nat)
    requires SysInv(s) && Legal(s, e) && Safe(s, e) && Has(Next(s, e).sched, i, Blocked)
    ensures Has(s.sched, i, Blocked) || (WillBlock(s, e) && s.sched.current == Some(i))
  {
    hide Stack, B.Step, B.Inv, FinishSleep, PrepareNext, BlockCurrent, SleepCurrent, CanPrepare, CanBlock, Reclaim,
         Distinct;
    match e
    case Timer(now) =>
      FinishSleepMeans(s.sched, now);
      PrepareFrame(FinishSleep(s.sched, now));
    case Yield => PrepareFrame(s.sched);
    case Exit =>
      ExitKeeps(s.sched);
      PrepareFrame(ExitCurrent(s.sched));
    case Sleep(ms, at) => BlockFrame(s.sched, DueAt(at, ms));
    case Read(ms, at) =>
      A0Keeps(s.sched, FOREVER);
      if s.uart.ring != [] {
        A0Keeps(s.sched, s.uart.ring[0]);
      } else if ms > 0 {
        BlockFrame(SetA0(s.sched, FOREVER), DueAt(at, ms));
      }
    case Spawn(size, Some(ppn), b) => EnterBlocked(s.sched, ppn, PagesFor(size), b);
    case _ =>
  }

  lemma StepPending(s: Sys, e: Event)
    requires SysInv(s) && Legal(s, e) && Pending(s)
    ensures Safe(s, e) && Pending(Next(s, e))
  {
    hide SysInv, Legal, Safe, Next;
    StepResults(s, e);
    var t := Next(s, e);
    forall i: nat | InRead(t, i)
      ensures A0(t.sched, i) == FOREVER
    {
      BlockedBefore(s, e, i);
      ReadingBefore(s, e, i);
      if Has(s.sched, i, Blocked) {
        WokenIff(s, e, i);
        CurrentRuns(s);
      }
    }
  }

  lemma CurrentRuns(s: Sys)
    requires SysInv(s)
    ensures s.sched.current.Some? && Has(s.sched, s.sched.current.value, Running)
  {
  }

  /** Only a read that blocks starts one, and a sleep ends it. */
  lemma ReadingBefore(s: Sys, e: Event, i: nat)
    requires SysInv(s) && Safe(s, e) && i in Next(s, e).uart.reading
    ensures i in s.uart.reading || (e.Read? && WillBlock(s, e) && s.sched.current == Some(i))
    ensures e.Sleep? ==> s.sched.current != Some(i)
  {
    hide Inv, Legal, FinishSleep, PrepareNext, CanPrepare, BlockCurrent, SleepCurrent, CanBlock;
  }

  lemma {:induction false} RunPending(ss: seq<Sys>, es: seq<Event>, n: nat)
    requires Run(ss, es) && n < |ss| && Pending(ss[0])
    ensures Pending(ss[n])
    decreases n
  {
    hide SysInv, Legal, Safe, Next, Pending;
    if n > 0 {
      RunPending(ss, es, n - 1);
      RunKeeps(ss, es, n - 1);
      StepPending(ss[n - 1], es[n - 1]);
    }
  }

  /**
   In every run, a task that was blocked in a read and no longer is has either the byte for
   which it was the last to wait, which is the next one delivered, or, after a timer
   interrupt, the largest word, and nothing was delivered.
   */
  lemma ReadReturns(ss: seq<Sys>, es: seq<Event>, n: nat, i: nat)
    requires Run(ss, es) && n < |es| && Pending(ss[0])
    requires InRead(ss[n], i) && !Has(ss[n + 1].sched, i, Blocked)
    ensures Has(ss[n + 1].sched, i, Ready) || ss[n + 1].sched.current == Some(i)
    ensures Occupied(ss[n + 1].sched, i)
    ensures
      || (es[n].Receive? && es[n].byte < 0x80 && A0(ss[n + 1].sched, i) == es[n].byte &&
          ss[n].uart.waiting != [] && ss[n].uart.waiting[|ss[n].uart.waiting| - 1] == i &&
          ss[n + 1].uart.delivered == ss[n].uart.delivered + [es[n].byte])
      || (es[n].Timer? && Due(ss[n].sched, i, es[n].now) && A0(ss[n + 1].sched, i) == 0xFFFF_FFFF_FFFF_FFFF &&
          ss[n + 1].uart.delivered == ss[n].uart.delivered)
  {
    hide SysInv, Legal, Safe, Next, Due;
    RunPending(ss, es, n);
    RunKeeps(ss, es, n);
    RunKeeps(ss, es, n + 1);
    var s, e := ss[n], es[n];
    assert ss[n + 1] == Next(s, e);
    WokenIff(s, e, i);
    StepResults(s, e);
    DeliveredIsResult(s, e);
    WokenStays(s, e, i);
  }

  /** A task that was blocked is still in the table, and ready unless it runs already. */
  lemma WokenStays(s: Sys, e: Event, i: nat)
    requires SysInv(s) && Legal(s, e) && Safe(s, e) && SysInv(Next(s, e))
    requires Has(s.sched, i, Blocked) && Wakes(s, e, i)
    ensures Occupied(Next(s, e).sched, i)
    ensures Has(Next(s, e).sched, i, Ready) || Next(s, e).sched.current == Some(i)
  {
    hide Stack, B.Step, B.Inv, FinishSleep, PrepareNext, CanPrepare, Reclaim, Distinct, Due;
    if e.Timer? {
      FinishSleepMeans(s.sched, e.now);
      StaysInLine(FinishSleep(s.sched, e.now), i);
    }
  }

  lemma StaysInLine(s: Sched, i: nat)
    requires Inv(s) && Has(s, i, Ready) && CanPrepare(s)
    ensures Occupied(PrepareNext(s), i) && (Has(PrepareNext(s), i, Ready) || PrepareNext(s).current == Some(i))
  {
    hide Stack, B.Inv, Distinct, StacksOk, TimersOk;
    ReclaimKeeps(s);
    hide Reclaim, PickNext;
  }

  // ------------------------------------------------------------ what calls mean

  /** The interrupted task goes on running, with a result. */
  ghost predicate Returned(s: Sys, t: Sys, c: nat, result: nat)
  {
    && t.sched.current == Some(c) && Has(t.sched, c, Running) && A0(t.sched, c) == result
    && t.sched.ready == s.sched.ready && t.sched.timers == s.sched.timers && t.uart.waiting == s.uart.waiting
  }

  /** It is blocked until `due`. */
  ghost predicate BlockedUntil(t: Sys, c: nat, due: nat)
  {
    && Has(t.sched, c, Blocked) && c in t.sched.deadlines && t.sched.deadlines[c] == due
    && SleepEntry(due % 0x1_0000_0000_0000_0000, c) in t.sched.timers
  }

  /**
   What each system call does to the task that makes it. Call 1 returns 0; 7 gives way; 9
   ends the task; 17 puts it to sleep; 27 returns a byte, or that there is none, or waits for
   one at the end of the waiting list. Other numbers do nothing.
   */
  lemma CallMeans(s: Sys, a7: nat, a0: nat, now: nat)
    requires SysInv(s)
    requires var d := Syscalls.Decode(8, a7, a0, now, None); d.Some? ==> Legal(s, d.value)
    ensures s.sched.current.Some?
    ensures var d := Syscalls.Decode(8, a7, a0, now, None);
      if a7 !in {1, 7, 9, 17, 27} then d == None
      else
        d.Some? && Safe(s, d.value) &&
        var c, t := s.sched.current.value, Next(s, d.value);
        if a7 == 1 then Returned(s, t, c, 0) && t.uart == s.uart
        else if a7 == 7 then (t.sched.current == Some(c) || Has(t.sched, c, Ready)) && t.uart == s.uart
        else if a7 == 9 then
          Has(t.sched, c, Terminated) && c in t.sched.zombies && t.sched.current != Some(c) && t.uart == s.uart
        else if a7 == 17 then
          BlockedUntil(t, c, now + a0 * 10_000) && t.uart.waiting == s.uart.waiting && !InRead(t, c)
        else if s.uart.ring != [] then
          Returned(s, t, c, s.uart.ring[0]) && t.uart.ring == s.uart.ring[1..]
        else if a0 == 0 then Returned(s, t, c, 0xFFFF_FFFF_FFFF_FFFF) && t.uart == s.uart
        else
          && InRead(t, c) && t.uart.waiting == s.uart.waiting + [c] && t.uart.ring == []
          && if a0 < 0xFFFF_FFFF_FFFF_FFFF then BlockedUntil(t, c, now + a0 * 10_000) else c !in t.sched.deadlines
  {
    hide Inv, Consistent, FinishSleep, PrepareNext, CanPrepare, BlockCurrent, SleepCurrent, CanBlock, Reclaim, Stack;
    CurrentRuns(s);
    var d := Syscalls.Decode(8, a7, a0, now, None);
    if d.Some? {
      StepKeeps(s, d.value);
      StepResults(s, d.value);
      match d.value
      case Yield => YieldMeans(s.sched);
      case Exit => ExitMeans(s.sched);
      case Sleep(ms, at) => SleepMeans(s.sched, DueAt(at, ms));
      case Read(ms, at) =>
        A0Keeps(s.sched, FOREVER);
        if s.uart.ring != [] {
          A0Keeps(s.sched, s.uart.ring[0]);
          RingPops(s.uart, |s.sched.tasks|);
        } else if ms > 0 {
          SleepMeans(SetA0(s.sched, FOREVER), DueAt(at, ms));
        }
      case _ =>
    }
  }

  lemma YieldMeans(s: Sched)
    requires Inv(s) && CanPrepare(s)
    ensures s.current.Some?
    ensures PrepareNext(s).current == s.current || Has(PrepareNext(s), s.current.value, Ready)
  {
    hide Stack, B.Inv, Distinct, StacksOk, TimersOk;
    ReclaimKeeps(s);
    hide Reclaim, PickNext;
  }

  lemma ExitMeans(s: Sched)
    requires Inv(s) && s.current != Some(0) && CanPrepare(ExitCurrent(s))
    ensures s.current.Some?
    ensures var c, t := s.current.value, PrepareNext(ExitCurrent(s));
      Has(t, c, Terminated) && c in t.zombies && t.current != Some(c)
  {
    hide Stack, B.Inv, Distinct, StacksOk, TimersOk, PrepareNext, CanPrepare;
    CurrentIsOccupied(s);
    ExitStep(s);
    ExitKeeps(s);
    ZombiesAfterPrepare(ExitCurrent(s));
  }

  lemma SleepMeans(s: Sched, due: nat)
    requires Inv(s) && s.current != Some(0)
    ensures CanBlock(s)
    ensures var c, t, u := s.current.value, SleepCurrent(s, due), BlockCurrent(s);
      && Has(t, c, Blocked) && c in t.deadlines && t.deadlines[c] == due
      && SleepEntry(due % 0x1_0000_0000_0000_0000, c) in t.timers
      && Has(u, c, Blocked) && c !in u.deadlines
  {
    hide Stack, B.Inv, Distinct, StacksOk, BlockCurrent, SleepCurrent, CanBlock;
    BlockStep(s, due);
    BlockFrame(s, due);
  }

  /** Which traps are a tick and a received byte. */
  lemma InterruptMeans(a7: nat, a0: nat, now: nat, byte: nat)
    ensures Syscalls.Decode(0x8000_0000_0000_0005, a7, a0, now, None) == Some(Timer(now))
    ensures Syscalls.Decode(0x8000_0000_0000_0009, a7, a0, now, Some(byte)) == Some(Receive(byte))
  {
  }

  /** A spawn that gets a stack puts a ready task with all the pages it asked for into the first free slot. */
  lemma SpawnMeans(s: Sys, size: nat, ppn: nat, b: B.BuddyState)
    requires SysInv(s) && Legal(s, Spawn(size, Some(ppn), b))
    ensures var t, i := Next(s, Spawn(size, Some(ppn), b)), FreeSlot(s.sched.tasks);
      && !Occupied(s.sched, i) && Has(t.sched, i, Ready) && t.sched.tasks[i].value.stackPpn == ppn
      && t.sched.tasks[i].value.pages * 4096 - 4096 < size <= t.sched.tasks[i].value.pages * 4096
      && (forall j: nat :: Occupied(s.sched, j) ==> Occupied(t.sched, j) && t.sched.tasks[j] == s.sched.tasks[j])
      && t.uart == s.uart && t.sched.buddy == b
  {
    hide Stack, B.Step, Inv;
  }
}
