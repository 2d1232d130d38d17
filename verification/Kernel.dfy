/**
 The kernel between traps: each trap is one atomic step on the scheduler and the serial
 port's receive side. Safety, bounded waiting, deadlines and the read protocol over every
 sequence of steps.
 */
module Kernel {
  import opened Bits
  import opened Blocks
  import B = BuddySpec
  import opened SchedulerSpec

  const RING_CAPACITY: nat := 4096
  const ONE_MS_CYCLES: nat := 10_000

  /** `usize::MAX`: wait for ever, and the result of a read without a byte. */
  const FOREVER: nat := WORD - 1

  /**
   The receive ring, oldest byte first, and the tasks that wait for a byte. The rest is
   history: the bytes given to tasks that read, the bytes taken from the device and not
   dropped on a full ring, and the tasks whose last block was in a read.
   */
  datatype Uart = Uart(ring: seq<nat>, waiting: seq<nat>, delivered: seq<nat>, accepted: seq<nat>, reading: set<nat>)

  datatype Sys = Sys(sched: Sched, uart: Uart)

  datatype Event =
    | Timer(now: nat)
    | Yield
    | Exit
    | Sleep(ms: nat, at: nat)
    | Read(timeoutMs: nat, at: nat)
    | Write
    | Receive(byte: nat)
    | Spawn(stackSize: nat, ppn: Option<nat>, buddy: B.BuddyState)
    | OtherUse(call: B.Call, buddy: B.BuddyState)

  function PagesFor(stackSize: nat): nat { (stackSize + 4095) / 4096 }

  /** A read that finds no byte and does not give up at once blocks. */
  predicate WillBlock(s: Sys, e: Event) { e.Sleep? || (e.Read? && s.uart.ring == [] && e.timeoutMs > 0) }

  /** The event chooses a next task. */
  predicate IsDispatch(s: Sys, e: Event) { e.Timer? || e.Yield? || e.Exit? || WillBlock(s, e) }

  /**
   What the environment promises: idle neither ends nor blocks; the allocator answers as
   it does; others return only blocks that are theirs.
   */
  ghost predicate Legal(s: Sys, e: Event)
  {
    match e
    case Exit => s.sched.current != Some(0)
    case Sleep(_, _) => s.sched.current != Some(0)
    case Read(_, _) => WillBlock(s, e) ==> s.sched.current != Some(0)
    case Spawn(size, Some(ppn), b) =>
      var stack := Stack(Task(ppn, PagesFor(size), Ready, 0));
      size > 0 && FirstPage(stack) == ppn && B.Step(s.sched.buddy, B.Alloc(PagesFor(size), Some(stack)), b)
    case Spawn(size, None, b) => size > 0 ==> B.Step(s.sched.buddy, B.Alloc(PagesFor(size), None), b)
    case OtherUse(call, b) =>
      && B.Step(s.sched.buddy, call, b)
      && (call.Dealloc? ==> forall i: nat :: Occupied(s.sched, i) ==> Stack(s.sched.tasks[i].value) != call.block)
    case _ => true
  }

  /**
   No lookup in the task table, `unwrap`, `expect` or `unreachable!` on the way of the event
   fails. What its arithmetic does where overflow is checked is in module CheckedKernel; the
   storage of the queues is not modelled.
   */
  predicate Safe(s: Sys, e: Event)
  {
    match e
    case Timer(now) =>
      && (forall x :: x in s.sched.timers && x.wake <= now ==> x.id < |s.sched.tasks|)
      && CanPrepare(FinishSleep(s.sched, now))
    case Yield => CanPrepare(s.sched)
    case Exit =>
      s.sched.current.Some? && s.sched.current.value < |s.sched.tasks| && CanPrepare(ExitCurrent(s.sched))
    case Sleep(_, _) => CanBlock(s.sched)
    case Read(_, _) =>
      && s.sched.current.Some? && Occupied(s.sched, s.sched.current.value)
      && (WillBlock(s, e) ==> CanBlock(SetA0(s.sched, FOREVER)))
    case Write => s.sched.current.Some? && Occupied(s.sched, s.sched.current.value)
    case Receive(byte) =>
      byte < 0x80 && s.uart.waiting != [] ==> s.uart.waiting[|s.uart.waiting| - 1] < |s.sched.tasks|
    case _ => true
  }

  /** The time until which a request for `ms` milliseconds at time `at` is to last. */
  function DueAt(at: nat, ms: nat): nat { at + ms * ONE_MS_CYCLES }

  /** Task `i` is blocked in a read. */
  predicate InRead(s: Sys, i: nat) { Has(s.sched, i, Blocked) && i in s.uart.reading }

  /** Writes the result register of the current task. */
  function SetA0(s: Sched, v: nat): Sched
    requires s.current.Some? && Occupied(s, s.current.value)
  {
    var c := s.current.value;
    s.(tasks := s.tasks[c := Some(s.tasks[c].value.(a0 := v))])
  }

  function ReadNext(s: Sys, timeoutMs: nat, at: nat): Sys
    requires Safe(s, Read(timeoutMs, at))
  {
    if s.uart.ring != [] then
      var c := s.uart.ring[0];
      if c >= 0x80 then Sys(SetA0(s.sched, FOREVER), s.uart.(ring := s.uart.ring[1..]))
      else Sys(SetA0(s.sched, c), s.uart.(ring := s.uart.ring[1..], delivered := s.uart.delivered + [c]))
    else if timeoutMs == 0 then Sys(SetA0(s.sched, FOREVER), s.uart)
    else
      var c := s.sched.current.value;
      var waiting := s.uart.(waiting := s.uart.waiting + [c], reading := s.uart.reading + {c});
      if timeoutMs < FOREVER
      then Sys(SleepCurrent(SetA0(s.sched, FOREVER), DueAt(at, timeoutMs)), waiting)
      else Sys(BlockCurrent(SetA0(s.sched, FOREVER)), waiting)
  }

  function ReceiveNext(s: Sys, byte: nat): Sys
  {
    var u := s.uart;
    if byte >= 0x80 then s
    else if u.waiting != [] then
      var n := |u.waiting| - 1;
      var taken := u.(waiting := u.waiting[..n], accepted := u.accepted + [byte]);
      Sys(WakeUpWithResult(s.sched, u.waiting[n], byte),
          if InRead(s, u.waiting[n]) then taken.(delivered := u.delivered + [byte]) else taken)
    else if |u.ring| < RING_CAPACITY then s.(uart := u.(ring := u.ring + [byte], accepted := u.accepted + [byte]))
    else s
  }

  /** The state after an event. */
  function Next(s: Sys, e: Event): Sys
    requires Safe(s, e)
  {
    match e
    case Timer(now) => s.(sched := PrepareNext(FinishSleep(s.sched, now)))
    case Yield => s.(sched := PrepareNext(s.sched))
    case Exit => s.(sched := PrepareNext(ExitCurrent(s.sched)))
    case Sleep(ms, at) =>
      Sys(SleepCurrent(s.sched, DueAt(at, ms)), s.uart.(reading := s.uart.reading - {s.sched.current.value}))
    case Read(timeoutMs, at) => ReadNext(s, timeoutMs, at)
    case Write => s.(sched := SetA0(s.sched, 0))
    case Receive(byte) => ReceiveNext(s, byte)
    case Spawn(size, Some(ppn), b) => s.(sched := Enter(s.sched, ppn, PagesFor(size), b))
    case Spawn(size, None, b) => s
    case OtherUse(_, b) => s.(sched := s.sched.(buddy := b))
  }

  // --------------------------------------------------------------- invariants

  /** Nobody waits while a byte is in the ring. */
  ghost predicate UartOk(u: Uart, tasks: nat)
  {
    && (u.waiting != [] ==> u.ring == [])
    && |u.ring| <= RING_CAPACITY && (forall c :: c in u.ring ==> c < 0x80)
    && (forall w :: w in u.waiting ==> w < tasks)
  }

  ghost predicate SysInv(s: Sys)
  {
    Inv(s.sched) && UartOk(s.uart, |s.sched.tasks|)
  }

  lemma A0Keeps(s: Sched, v: nat)
    requires Inv(s)
    ensures Inv(SetA0(s, v)) && forall i: nat, st: Status :: Has(SetA0(s, v), i, st) <==> Has(s, i, st)
    ensures forall i: nat :: Occupied(s, i) ==> Stack(SetA0(s, v).tasks[i].value) == Stack(s.tasks[i].value)
  {
    hide B.Inv, Distinct, Sorted;
    var t := SetA0(s, v);
    assert forall i: nat, st: Status :: Has(t, i, st) <==> Has(s, i, st);
    SameStacks(s, t);
  }

  /** Every legal event finds the kernel in a state in which its lookups succeed, and keeps the invariant. */
  lemma StepKeeps(s: Sys, e: Event)
    requires SysInv(s) && Legal(s, e)
    ensures Safe(s, e) && SysInv(Next(s, e))
  {
    hide Inv, Consistent, Stack, B.Step, FinishSleep, PrepareNext, BlockCurrent, SleepCurrent, CanPrepare, CanBlock,
          Reclaim;
    match e
    case Timer(now) =>
      FinishSleepMeans(s.sched, now);
      TimerTableSize(s.sched, now);
      TimersInTable(s.sched);
      PrepareStep(FinishSleep(s.sched, now));
    case Yield => PrepareStep(s.sched);
    case Exit =>
      CurrentIsOccupied(s.sched);
      ExitStep(s.sched);
    case Sleep(ms, at) => BlockStep(s.sched, DueAt(at, ms));
    case Read(timeoutMs, at) =>
      CurrentIsOccupied(s.sched);
      A0Keeps(s.sched, FOREVER);
      if s.uart.ring != [] {
        A0Keeps(s.sched, s.uart.ring[0]);
        RingPops(s.uart, |s.sched.tasks|);
      } else if timeoutMs > 0 {
        BlockStep(SetA0(s.sched, FOREVER), DueAt(at, timeoutMs));
      }
    case Write =>
      CurrentIsOccupied(s.sched);
      A0Keeps(s.sched, 0);
    case Receive(byte) =>
      ReceiveKeepsUart(s, byte);
      if byte < 0x80 && s.uart.waiting != [] {
        assert s.uart.waiting[|s.uart.waiting| - 1] in s.uart.waiting;
        WakeKeeps(s.sched, s.uart.waiting[|s.uart.waiting| - 1], byte);
      }
    case Spawn(size, Some(ppn), b) =>
      InvIsConsistent(s.sched);
      EnterKeeps(s.sched, ppn, PagesFor(size), b);
    case Spawn(size, None, b) =>
    case OtherUse(call, b) =>
      InvIsConsistent(s.sched);
      OtherUseKeeps(s.sched, call, b);
  }

  lemma TimersInTable(s: Sched)
    requires Inv(s)
    ensures forall x :: x in s.timers ==> x.id < |s.tasks|
  {
  }

  lemma RingPops(u: Uart, n: nat)
    requires UartOk(u, n) && u.ring != []
    ensures u.ring[0] < 0x80 && UartOk(u.(ring := u.ring[1..]), n)
    ensures UartOk(u.(ring := u.ring[1..], delivered := u.delivered + [u.ring[0]]), n)
  {
    var t := u.ring[1..];
    assert u.ring[0] in u.ring;
    assert forall c :: c in t ==> c in u.ring;
  }

  lemma ReceiveKeepsUart(s: Sys, byte: nat)
    requires UartOk(s.uart, |s.sched.tasks|)
    ensures UartOk(ReceiveNext(s, byte).uart, |s.sched.tasks|) && |ReceiveNext(s, byte).sched.tasks| == |s.sched.tasks|
  {
    if s.uart.waiting != [] {
      var w := s.uart.waiting[..|s.uart.waiting| - 1];
      assert forall i :: i in w ==> i in s.uart.waiting;
    }
  }

  lemma PrepareStep(s: Sched)
    requires Inv(s)
    ensures CanPrepare(s) && Inv(PrepareNext(s)) && |PrepareNext(s).tasks| == |s.tasks|
  {
    PrepareKeeps(s);
    PrepareFrame(s);
  }

  lemma ExitStep(s: Sched)
    requires Inv(s) && s.current != Some(0)
    ensures s.current.Some? && CanPrepare(ExitCurrent(s)) && Inv(PrepareNext(ExitCurrent(s)))
    ensures |PrepareNext(ExitCurrent(s)).tasks| == |s.tasks|
  {
    ExitKeeps(s);
    PrepareKeeps(ExitCurrent(s));
    PrepareFrame(ExitCurrent(s));
  }

  lemma BlockStep(s: Sched, wake: nat)
    requires Inv(s) && s.current != Some(0)
    ensures CanBlock(s) && Inv(BlockCurrent(s)) && Inv(SleepCurrent(s, wake)) && s.current.value < |s.tasks|
    ensures |BlockCurrent(s).tasks| == |s.tasks| == |SleepCurrent(s, wake).tasks|
  {
    BlockKeeps(s);
    SleepKeeps(s, wake);
    BlockFrame(s, wake);
  }

  lemma CurrentIsOccupied(s: Sched)
    requires Inv(s)
    ensures s.current.Some? && Occupied(s, s.current.value)
  {
  }

  lemma {:induction false} TimerTableSize(s: Sched, now: nat)
    ensures |FinishSleep(s, now).tasks| == |s.tasks|
    decreases |s.timers|
  {
    if s.timers != [] && s.timers[0].wake <= now {
      TimerTableSize(PopTimer(s), now);
    }
  }

  // --------------------------------------------------------------------- runs

  ghost predicate Run(ss: seq<Sys>, es: seq<Event>)
  {
    && |ss| == |es| + 1 && SysInv(ss[0])
    && forall i :: 0 <= i < |es| ==> Legal(ss[i], es[i]) && Safe(ss[i], es[i]) && ss[i + 1] == Next(ss[i], es[i])
  }

  /** Over every run the invariant holds after every step. */
  lemma {:induction false} RunKeeps(ss: seq<Sys>, es: seq<Event>, n: nat)
    requires Run(ss, es) && n < |ss|
    ensures SysInv(ss[n])
    decreases n
  {
    hide SysInv, Legal, Safe, Next;
    if n > 0 {
      RunKeeps(ss, es, n - 1);
      StepKeeps(ss[n - 1], es[n - 1]);
    }
  }

  /** After every step of every run exactly one task runs, and it is the current one. */
  lemma ExactlyOneRuns(ss: seq<Sys>, es: seq<Event>, n: nat, i: nat)
    requires Run(ss, es) && n < |ss|
    ensures Has(ss[n].sched, i, Running) <==> ss[n].sched.current == Some(i)
    ensures i in ss[n].sched.ready <==> Has(ss[n].sched, i, Ready)
    ensures ss[n].sched.current == Some(0) || 0 in ss[n].sched.ready
  {
    RunKeeps(ss, es, n);
  }

  /** The stacks of any two occupied slots share no page, at every point of every run. */
  lemma StacksAreDisjoint(ss: seq<Sys>, es: seq<Event>, n: nat, i: nat, j: nat)
    requires Run(ss, es) && n < |ss| && Occupied(ss[n].sched, i) && Occupied(ss[n].sched, j) && i != j
    ensures Disjoint(Stack(ss[n].sched.tasks[i].value), Stack(ss[n].sched.tasks[j].value))
  {
    RunKeeps(ss, es, n);
  }

  /** The stack of the task that a trap interrupts is still allocated, and still its own, when the trap ends. */
  lemma CurrentStackIsKept(s: Sys, e: Event)
    requires SysInv(s) && Legal(s, e)
    ensures Safe(s, e)
    ensures var c := s.sched.current.value; var t := Next(s, e).sched;
      Occupied(s.sched, c) && Occupied(t, c) && Stack(t.tasks[c].value) == Stack(s.sched.tasks[c].value) &&
      Stack(s.sched.tasks[c].value) in t.buddy.out
  {
    StepKeeps(s, e);
    CurrentIsOccupied(s.sched);
    SlotIsKept(s, e);
    OccupiedIsOut(Next(s, e).sched, s.sched.current.value);
  }

  lemma OccupiedIsOut(s: Sched, i: nat)
    requires Inv(s) && Occupied(s, i)
    ensures Stack(s.tasks[i].value) in s.buddy.out
  {
    assert StackOk(s.tasks[i].value, s.buddy);
  }

  lemma SlotIsKept(s: Sys, e: Event)
    requires SysInv(s) && Legal(s, e) && Safe(s, e)
    ensures s.sched.current.Some?
    ensures var c := s.sched.current.value; var t := Next(s, e).sched;
      Occupied(s.sched, c) && Occupied(t, c) && Stack(t.tasks[c].value) == Stack(s.sched.tasks[c].value)
  {
    hide Stack, B.Step, FinishSleep, PrepareNext, BlockCurrent, SleepCurrent, CanPrepare, CanBlock, Reclaim;
    CurrentIsOccupied(s.sched);
    match e
    case Timer(now) =>
      FinishSleepMeans(s.sched, now);
      FinishSleepStacks(s.sched, now);
      CurrentSurvives(FinishSleep(s.sched, now));
    case Yield => CurrentSurvives(s.sched);
    case Exit =>
      ExitKeeps(s.sched);
      ExitStacks(s.sched);
      CurrentSurvives(ExitCurrent(s.sched));
    case Sleep(ms, at) => BlockFrame(s.sched, DueAt(at, ms));
    case Read(timeoutMs, at) =>
      A0Keeps(s.sched, FOREVER);
      if s.uart.ring != [] {
        A0Keeps(s.sched, s.uart.ring[0]);
      } else if timeoutMs > 0 {
        BlockFrame(SetA0(s.sched, FOREVER), DueAt(at, timeoutMs));
      }
    case Write => A0Keeps(s.sched, 0);
    case Receive(byte) => ReceiveStacks(s, byte);
    case Spawn(size, Some(ppn), b) => EnterKeeps(s.sched, ppn, PagesFor(size), b);
    case Spawn(size, None, b) =>
    case OtherUse(call, b) =>
  }

  lemma {:induction false} FinishSleepStacks(s: Sched, now: nat)
    ensures FinishSleep(s, now).current == s.current && |FinishSleep(s, now).tasks| == |s.tasks|
    ensures forall i: nat :: Occupied(s, i) ==>
              Occupied(FinishSleep(s, now), i) && Stack(FinishSleep(s, now).tasks[i].value) == Stack(s.tasks[i].value)
    decreases |s.timers|
  {
    if s.timers != [] && s.timers[0].wake <= now {
      FinishSleepStacks(PopTimer(s), now);
    }
  }

  lemma ExitStacks(s: Sched)
    ensures ExitCurrent(s).current == s.current && |ExitCurrent(s).tasks| == |s.tasks|
    ensures forall i: nat :: Occupied(s, i) ==>
              Occupied(ExitCurrent(s), i) && Stack(ExitCurrent(s).tasks[i].value) == Stack(s.tasks[i].value)
  {
  }

  lemma ReceiveStacks(s: Sys, byte: nat)
    ensures forall i: nat :: Occupied(s.sched, i) ==>
              Occupied(ReceiveNext(s, byte).sched, i) &&
              Stack(ReceiveNext(s, byte).sched.tasks[i].value) == Stack(s.sched.tasks[i].value)
  {
  }

  /** The first timer tick or yield after exits buries every zombie; an exit buries none. */
  lemma ZombiesAreBuried(s: Sys, e: Event)
    requires SysInv(s) && Legal(s, e)
    ensures Safe(s, e)
    ensures e.Timer? || e.Yield? ==> Next(s, e).sched.zombies == []
    ensures e.Exit? ==>
              Next(s, e).sched.zombies == s.sched.zombies + [s.sched.current.value] &&
              Next(s, e).sched.buddy == s.sched.buddy
  {
    hide PrepareNext, CanPrepare, Reclaim, FinishSleep;
    StepKeeps(s, e);
    if e.Timer? {
      FinishSleepMeans(s.sched, e.now);
      ZombiesAfterPrepare(FinishSleep(s.sched, e.now));
    } else if e.Yield? {
      ZombiesAfterPrepare(s.sched);
    } else if e.Exit? {
      ExitKeeps(s.sched);
      ZombiesAfterPrepare(ExitCurrent(s.sched));
    }
  }

  // ---------------------------------------------------------- bounded waiting

  lemma StepAdvances(s: Sys, e: Event, t: nat, p: nat) returns (q: nat)
    requires SysInv(s) && Legal(s, e) && t != 0 && WaitsAt(s.sched, t, p)
    ensures Safe(s, e)
    ensures Next(s, e).sched.current == Some(t) ||
            (q <= p && (IsDispatch(s, e) ==> q < p) && WaitsAt(Next(s, e).sched, t, q))
  {
    hide Inv, Consistent, B.Step, FinishSleep, PrepareNext, CanPrepare, Reclaim;
    StepKeeps(s, e);
    q := p;
    match e
    case Timer(now) =>
      FinishSleepAppends(s.sched, now);
      FinishSleepMeans(s.sched, now);
      InvIsConsistent(FinishSleep(s.sched, now));
      q := PrepareAdvances(FinishSleep(s.sched, now), t, p);
    case Yield =>
      InvIsConsistent(s.sched);
      q := PrepareAdvances(s.sched, t, p);
    case Exit =>
      ExitKeeps(s.sched);
      q := PrepareAdvances(ExitCurrent(s.sched), t, p);
    case Sleep(ms, at) =>
      q := DispatchAdvances(Asleep(s.sched, DueAt(at, ms)), t, p);
    case Read(timeoutMs, at) =>
      if WillBlock(s, e) {
        var r := SetA0(s.sched, FOREVER);
        var c := r.current.value;
        if timeoutMs < FOREVER {
          q := DispatchAdvances(Asleep(r, DueAt(at, timeoutMs)), t, p);
        } else {
          q := DispatchAdvances(SetStatus(r, c, Blocked).(deadlines := r.deadlines - {c}), t, p);
        }
      }
    case Write =>
    case Receive(byte) =>
    case Spawn(size, _, b) =>
    case OtherUse(call, b) =>
  }

  lemma InvIsConsistent(s: Sched)
    requires Inv(s)
    ensures Consistent(s)
  {
  }

  /** The number of choices of a next task in a run. */
  ghost function Dispatches(ss: seq<Sys>, es: seq<Event>): nat
    requires |ss| == |es| + 1
  {
    if es == [] then 0 else (if IsDispatch(ss[0], es[0]) then 1 else 0) + Dispatches(ss[1..], es[1..])
  }

  /**
   A ready task other than idle at position `p` of the queue runs after at most `p + 1`
   choices of a next task, whatever wakes, spawns, exits and bytes come in between.
   */
  lemma {:induction false} BoundedWaiting(ss: seq<Sys>, es: seq<Event>, t: nat, p: nat) returns (j: nat)
    requires Run(ss, es) && t != 0 && WaitsAt(ss[0].sched, t, p)
    requires Dispatches(ss, es) >= p + 1
    ensures 1 <= j < |ss| && ss[j].sched.current == Some(t) && Dispatches(ss[..j + 1], es[..j]) <= p + 1
    decreases |es|
  {
    hide SysInv, Legal, Safe, Next, IsDispatch;
    var q := StepAdvances(ss[0], es[0], t, p);
    RunKeeps(ss, es, 1);
    assert ss[1] == Next(ss[0], es[0]);
    if ss[1].sched.current == Some(t) {
      j := 1;
      assert es[..1] == [es[0]] && ss[..2] == [ss[0], ss[1]];
      OneDispatch(ss[0], ss[1], es[0]);
    } else {
      assert Run(ss[1..], es[1..]);
      var k := BoundedWaiting(ss[1..], es[1..], t, q);
      j := k + 1;
      assert ss[..j + 1][1..] == ss[1..][..k + 1] && es[..j][1..] == es[1..][..k];
    }
  }

  lemma OneDispatch(s: Sys, t: Sys, e: Event)
    ensures Dispatches([s, t], [e]) == if IsDispatch(s, e) then 1 else 0
  {
    assert [s, t][1..] == [t] && [e][1..] == [];
  }

  // --------------------------------------------------------------- deadlines

  /** At every timer interrupt of every run: no task in a timed block is still blocked past its deadline. */
  lemma DeadlinesHold(ss: seq<Sys>, es: seq<Event>, n: nat, i: nat)
    requires Run(ss, es) && n < |es| && es[n].Timer?
    ensures var t := ss[n + 1].sched; Has(t, i, Blocked) && i in t.deadlines ==> t.deadlines[i] > es[n].now
  {
    RunKeeps(ss, es, n);
    hide Stack, FinishSleep, PrepareNext, Reclaim;
    var f := FinishSleep(ss[n].sched, es[n].now);
    FinishSleepMeans(ss[n].sched, es[n].now);
    DeadlinesAreMet(ss[n].sched, es[n].now, i);
    PrepareFrame(f);
  }

  // ----------------------------------------- runs without finite read timeouts

  ghost predicate Once(q: seq<SleepEntry>)
  {
    forall x :: x in q ==> multiset(q)[x] == 1
  }

  /** A blocked task either sleeps, and has exactly one timer, or waits for a byte, and is listed once. */
  ghost predicate Exact(s: Sys)
  {
    && Distinct(s.uart.waiting) && Once(s.sched.timers)
    && (forall i: nat :: i in s.uart.waiting <==> Has(s.sched, i, Blocked) && i !in s.sched.deadlines)
    && (forall i: nat :: i in s.uart.waiting ==> i in s.uart.reading)
    && (forall e :: e in s.sched.timers ==>
          Has(s.sched, e.id, Blocked) && e.id in s.sched.deadlines && e.wake == WakeTime(s.sched.deadlines[e.id]))
  }

  /** Every accepted byte is delivered or in the ring, in order of arrival. */
  ghost predicate Conserved(u: Uart) { u.delivered + u.ring == u.accepted }

  /** A read gives up at once or waits for ever. */
  predicate NoFiniteTimeout(e: Event) { e.Read? ==> e.timeoutMs == 0 || e.timeoutMs >= FOREVER }

  /** Timers and waiting lists depend only on who is blocked. */
  lemma ExactFrame(s: Sys, t: Sys)
    requires Exact(s) && t.uart.waiting == s.uart.waiting && t.uart.reading == s.uart.reading
    requires t.sched.timers == s.sched.timers && t.sched.deadlines == s.sched.deadlines
    requires forall i: nat :: Has(t.sched, i, Blocked) <==> Has(s.sched, i, Blocked)
    ensures Exact(t)
  {
  }

  lemma OnceTail(q: seq<SleepEntry>)
    requires Once(q) && q != []
    ensures Once(q[1..])
  {
    var t := q[1..];
    assert q == [q[0]] + t;
    forall x | x in t
      ensures multiset(t)[x] == 1
    {
      assert x in multiset(t) && x in q;
      assert multiset(q)[x] == multiset([q[0]])[x] + multiset(t)[x];
    }
  }

  lemma OnceInsert(q: seq<SleepEntry>, e: SleepEntry)
    requires Once(q) && e !in q
    ensures Once(Insert(q, e))
  {
    hide Insert;
    InsertMembers(q, e);
    forall x | x in Insert(q, e)
      ensures multiset(Insert(q, e))[x] == 1
    {
      assert e !in multiset(q);
    }
  }

  lemma {:induction false} FinishSleepOnce(s: Sched, now: nat)
    requires Once(s.timers)
    ensures Once(FinishSleep(s, now).timers)
    decreases |s.timers|
  {
    if s.timers != [] && s.timers[0].wake <= now {
      OnceTail(s.timers);
      FinishSleepOnce(PopTimer(s), now);
    }
  }

  lemma TimerExact(s: Sys, now: nat)
    requires SysInv(s) && Exact(s) && CanPrepare(FinishSleep(s.sched, now))
    ensures Exact(Next(s, Timer(now)))
  {
    hide Stack, FinishSleep, PrepareNext, Reclaim, CanPrepare, B.Inv;
    var f := FinishSleep(s.sched, now);
    FinishSleepMeans(s.sched, now);
    FinishSleepOnce(s.sched, now);
    PrepareFrame(f);
    hide Inv, Once, Distinct, WakeTime;
    forall i: nat
      ensures Due(s.sched, i, now) ==> i in s.sched.deadlines && WakeTime(s.sched.deadlines[i]) <= now
    {
    }
    assert Exact(s.(sched := f));
    ExactFrame(s.(sched := f), Next(s, Timer(now)));
  }

  lemma SleepExact(s: Sys, wake: nat)
    requires SysInv(s) && Exact(s) && s.sched.current != Some(0) && CanBlock(s.sched)
    ensures Exact(Sys(SleepCurrent(s.sched, wake), s.uart.(reading := s.uart.reading - {s.sched.current.value})))
  {
    hide Stack, SleepCurrent, BlockCurrent, Insert, B.Inv, Once, Distinct, Sorted, WakeTime;
    var c := s.sched.current.value;
    BlockFrame(s.sched, wake);
    InsertMembers(s.sched.timers, SleepEntry(WakeTime(wake), c));
    assert forall e :: e in s.sched.timers ==> e.id != c;
    OnceInsert(s.sched.timers, SleepEntry(WakeTime(wake), c));
  }

  lemma BlockExact(s: Sys)
    requires SysInv(s) && Exact(s) && s.sched.current != Some(0) && CanBlock(s.sched)
    ensures var c := s.sched.current.value;
      Exact(Sys(BlockCurrent(s.sched), s.uart.(waiting := s.uart.waiting + [c], reading := s.uart.reading + {c})))
  {
    hide Stack, SleepCurrent, BlockCurrent, B.Inv, Once;
    var c := s.sched.current.value;
    BlockFrame(s.sched, 0);
    assert c !in s.uart.waiting;
    Appended(s.uart.waiting, c);
  }

  lemma ReceiveExact(s: Sys, byte: nat)
    requires Exact(s)
    ensures Exact(ReceiveNext(s, byte))
  {
    if byte < 0x80 && s.uart.waiting != [] {
      var n := |s.uart.waiting| - 1;
      var w := s.uart.waiting[n];
      assert s.uart.waiting == s.uart.waiting[..n] + [w];
      var t := ReceiveNext(s, byte);
      assert Has(s.sched, w, Blocked);
      assert forall i: nat :: Has(t.sched, i, Blocked) <==> Has(s.sched, i, Blocked) && i != w;
    }
  }

  lemma StepExact(s: Sys, e: Event)
    requires SysInv(s) && Legal(s, e) && Safe(s, e) && Exact(s) && NoFiniteTimeout(e)
    ensures Exact(Next(s, e))
  {
    hide Exact, Stack, B.Step, FinishSleep, PrepareNext, BlockCurrent, SleepCurrent, CanPrepare, CanBlock, Reclaim,
          Consistent;
    match e
    case Timer(now) => TimerExact(s, now);
    case Yield =>
      InvIsConsistent(s.sched);
      PrepareFrame(s.sched);
      ExactFrame(s, Next(s, e));
    case Exit =>
      ExitKeeps(s.sched);
      PrepareFrame(ExitCurrent(s.sched));
      CurrentIsOccupied(s.sched);
      ExactFrame(s, Next(s, e));
    case Sleep(ms, at) => SleepExact(s, DueAt(at, ms));
    case Read(timeoutMs, at) =>
      A0Keeps(s.sched, FOREVER);
      ExactFrame(s, Sys(SetA0(s.sched, FOREVER), s.uart));
      if s.uart.ring != [] {
        A0Keeps(s.sched, s.uart.ring[0]);
        ExactFrame(s, Next(s, e));
      } else if timeoutMs > 0 {
        BlockExact(Sys(SetA0(s.sched, FOREVER), s.uart));
      }
    case Write =>
      A0Keeps(s.sched, 0);
      ExactFrame(s, Next(s, e));
    case Receive(byte) => ReceiveExact(s, byte);
    case Spawn(size, Some(ppn), b) =>
      EnterBlocked(s.sched, ppn, PagesFor(size), b);
      ExactFrame(s, Next(s, e));
    case Spawn(size, None, b) =>
    case OtherUse(call, b) => ExactFrame(s, Next(s, e));
  }

  lemma EnterBlocked(s: Sched, ppn: nat, pages: nat, b: B.BuddyState)
    ensures forall i: nat :: Has(Enter(s, ppn, pages, b), i, Blocked) <==> Has(s, i, Blocked)
  {
  }

  /** In runs without finite read timeouts, timers and sleeping tasks match one to one throughout. */
  lemma {:induction false} RunExact(ss: seq<Sys>, es: seq<Event>, n: nat)
    requires Run(ss, es) && n < |ss| && Exact(ss[0]) && forall e :: e in es ==> NoFiniteTimeout(e)
    ensures SysInv(ss[n]) && Exact(ss[n])
    decreases n
  {
    hide SysInv, Legal, Safe, Next, Exact;
    RunKeeps(ss, es, n);
    if n > 0 {
      RunExact(ss, es, n - 1);
      StepExact(ss[n - 1], es[n - 1]);
    }
  }

  /**
   In such runs a sleeping task stops being blocked only at a timer interrupt at or after its
   deadline, provided the deadline fits a word; else at or after what it wraps around to.
   */
  lemma NeverWokenEarly(ss: seq<Sys>, es: seq<Event>, n: nat, i: nat)
    requires Run(ss, es) && n < |es| && Exact(ss[0]) && forall e :: e in es ==> NoFiniteTimeout(e)
    requires Has(ss[n].sched, i, Blocked) && i in ss[n].sched.deadlines
    requires !Has(ss[n + 1].sched, i, Blocked)
    ensures es[n].Timer? && WakeTime(ss[n].sched.deadlines[i]) <= es[n].now
    ensures ss[n].sched.deadlines[i] < WORD ==> ss[n].sched.deadlines[i] <= es[n].now
  {
    hide SysInv, Legal, Safe, Next, Exact, Has, Wakes;
    RunExact(ss, es, n);
    assert es[n] in es && ss[n + 1] == Next(ss[n], es[n]);
    WokenIff(ss[n], es[n], i);
    ExactWakes(ss[n], es[n], i);
  }

  /** The event wakes task `i`: a timer of it is due, or it is the last to wait for a byte. */
  ghost predicate Wakes(s: Sys, e: Event, i: nat)
  {
    match e
    case Timer(now) => Due(s.sched, i, now)
    case Receive(byte) => byte < 0x80 && s.uart.waiting != [] && s.uart.waiting[|s.uart.waiting| - 1] == i
    case _ => false
  }

  /**
   In every state, a blocked task stops being blocked exactly when one of its timers is due
   or a byte arrives while it is listed last, whether or not the entry is stale.
   */
  lemma WokenIff(s: Sys, e: Event, i: nat)
    requires SysInv(s) && Legal(s, e) && Safe(s, e) && Has(s.sched, i, Blocked)
    ensures !Has(Next(s, e).sched, i, Blocked) <==> Wakes(s, e, i)
  {
    hide Stack, B.Step, B.Inv, FinishSleep, PrepareNext, BlockCurrent, SleepCurrent, CanPrepare, CanBlock, Reclaim,
          Distinct;
    match e
    case Timer(now) =>
      FinishSleepMeans(s.sched, now);
      PrepareFrame(FinishSleep(s.sched, now));
    case Yield => PrepareFrame(s.sched);
    case Exit =>
      ExitKeeps(s.sched);
      PrepareFrame(ExitCurrent(s.sched));
    case Sleep(ms, at) => BlockFrame(s.sched, DueAt(at, ms));
    case Read(timeoutMs, at) =>
      A0Keeps(s.sched, FOREVER);
      if s.uart.ring == [] && timeoutMs > 0 {
        BlockFrame(SetA0(s.sched, FOREVER), DueAt(at, timeoutMs));
      }
    case Write => A0Keeps(s.sched, 0);
    case Receive(byte) =>
    case Spawn(size, Some(ppn), b) => EnterBlocked(s.sched, ppn, PagesFor(size), b);
    case Spawn(size, None, b) =>
    case OtherUse(call, b) =>
  }

  lemma ExactWakes(s: Sys, e: Event, i: nat)
    requires Exact(s) && Has(s.sched, i, Blocked) && i in s.sched.deadlines && Wakes(s, e, i)
    ensures e.Timer? && WakeTime(s.sched.deadlines[i]) <= e.now
  {
    assert s.uart.waiting != [] ==> s.uart.waiting[|s.uart.waiting| - 1] in s.uart.waiting;
  }

  /**
   A task in a timed block stops being blocked before its deadline exactly if one of its
   timers is due early, be it stale or wrapped around, or it is listed last when a byte
   arrives.
   */
  lemma WokenEarlyIff(s: Sys, e: Event, i: nat)
    requires SysInv(s) && Legal(s, e) && Safe(s, e) && Has(s.sched, i, Blocked) && i in s.sched.deadlines
    ensures !Has(Next(s, e).sched, i, Blocked) && !(e.Timer? && s.sched.deadlines[i] <= e.now) <==>
              || (e.Timer? && e.now < s.sched.deadlines[i] && Due(s.sched, i, e.now))
              || (e.Receive? && e.byte < 0x80 && s.uart.waiting != [] &&
                  s.uart.waiting[|s.uart.waiting| - 1] == i)
  {
    hide SysInv, Legal, Safe, Next, Due;
    WokenIff(s, e, i);
  }

  // ------------------------------------------------------------- long sleeps

  /**
   A sleep whose deadline is in the future is kept, whatever the time of the next timer
   interrupts, if and only if the deadline fits a word.
   */
  lemma SleepIsKeptIff(s: Sys, i: nat)
    requires SysInv(s) && Exact(s) && Has(s.sched, i, Blocked) && i in s.sched.deadlines
    ensures (forall now: nat :: now < WORD && Wakes(s, Timer(now), i) ==> s.sched.deadlines[i] <= now) <==>
              s.sched.deadlines[i] < WORD
  {
    hide Inv, Stack, Distinct, Once;
    var due := s.sched.deadlines[i];
    TimerInHeap(s.sched, i);
    hide WakeTime;
    assert Wakes(s, Timer(WakeTime(due)), i);
    forall now: nat | now < WORD && Wakes(s, Timer(now), i)
      ensures WakeTime(due) <= now
    {
      ExactWakes(s, Timer(now), i);
    }
  }

  lemma TimerInHeap(s: Sched, i: nat)
    requires Inv(s) && Has(s, i, Blocked) && i in s.deadlines
    ensures SleepEntry(WakeTime(s.deadlines[i]), i) in s.timers
  {
  }

  /** The longest sleep there is to ask for ends at the next timer interrupt. */
  lemma LongSleepIsCut() returns (ss: seq<Sys>, es: seq<Event>)
    ensures |ss| == 3 && es == [Sleep(FOREVER, 20_000), Timer(20_000)]
    ensures Has(ss[1].sched, 1, Blocked) && ss[1].sched.deadlines == map[1 := 20_000 + FOREVER * ONE_MS_CYCLES]
    ensures !Has(ss[2].sched, 1, Blocked)
    ensures Run(ss, es) && Exact(ss[0])
  {
    hide SysInv, Next, Exact, Safe, TwoTasks, Legal;
    var s0, e0, e1 := TwoTasks(), Sleep(FOREVER, 20_000), Timer(20_000);
    TwoTasksOk();
    LongSleep();
    StepKeeps(s0, e0);
    var s1 := Next(s0, e0);
    StepKeeps(s1, e1);
    WokenIff(s1, e1, 1);
    es := [e0, e1];
    ss := [s0, s1, Next(s1, e1)];
  }

  lemma LongSleep()
    ensures var s, e := TwoTasks(), Sleep(FOREVER, 20_000);
      && Legal(s, e) && Safe(s, e) && Has(Next(s, e).sched, 1, Blocked)
      && Next(s, e).sched.deadlines == map[1 := 20_000 + FOREVER * ONE_MS_CYCLES]
      && Wakes(Next(s, e), Timer(20_000), 1) && Legal(Next(s, e), Timer(20_000))
  {
    TwoTasksOk();
    var s, e := TwoTasks(), Sleep(FOREVER, 20_000);
    StepKeeps(s, e);
    WrapsAround();
    hide WakeTime, SleepCurrent, B.Inv, Stack;
    BlockFrame(s.sched, DueAt(20_000, FOREVER));
    assert Insert([], SleepEntry(10_000, 1)) == [SleepEntry(10_000, 1)];
    assert Next(s, e).sched.timers[0] == SleepEntry(10_000, 1);
  }

  lemma WrapsAround()
    ensures WakeTime(DueAt(20_000, FOREVER)) == 10_000
  {
    QuotientUnique(DueAt(20_000, FOREVER), 10_000, WORD);
  }

  // ------------------------------------------------------------ the read protocol

  /** The byte that an event brings in, unless it finds the ring full and nobody waiting. */
  function Arrival(s: Sys, e: Event): seq<nat>
  {
    if e.Receive? && e.byte < 0x80 && (s.uart.waiting != [] || |s.uart.ring| < 4096) then [e.byte] else []
  }

  /** The bytes that the first `n` events brought in, in order. */
  function Arrivals(ss: seq<Sys>, es: seq<Event>, n: nat): seq<nat>
    requires n <= |es| && n < |ss|
  {
    if n == 0 then [] else Arrivals(ss, es, n - 1) + Arrival(ss[n - 1], es[n - 1])
  }

  /** A byte arrives for a waiting entry whose task is no longer blocked in a read. */
  predicate LosesByte(s: Sys, e: Event)
  {
    e.Receive? && e.byte < 0x80 && s.uart.waiting != [] && !InRead(s, s.uart.waiting[|s.uart.waiting| - 1])
  }

  /** How many accepted bytes are neither delivered nor queued. */
  function Missing(u: Uart): int { |u.accepted| - |u.delivered| - |u.ring| }

  /**
   A step keeps every accepted byte delivered to a reader or queued, in order of arrival,
   exactly unless it loses a byte: then there is one more that is neither.
   */
  lemma StepConservesIff(s: Sys, e: Event)
    requires SysInv(s) && Legal(s, e) && Safe(s, e)
    ensures Conserved(s.uart) ==> (Conserved(Next(s, e).uart) <==> !LosesByte(s, e))
    ensures Missing(Next(s, e).uart) == Missing(s.uart) + if LosesByte(s, e) then 1 else 0
    ensures Next(s, e).uart.accepted == s.uart.accepted + Arrival(s, e)
  {
    hide Inv, Legal, PrepareNext, FinishSleep, BlockCurrent, SleepCurrent, InRead, Safe;
    match e
    case Receive(byte) =>
      var u := s.uart;
      if byte < 0x80 && u.waiting != [] {
        assert u.delivered + u.ring == u.delivered;
        assert |u.delivered + [byte]| == |u.delivered| + 1 && |u.accepted + [byte]| == |u.accepted| + 1;
      } else if byte < 0x80 && |u.ring| < RING_CAPACITY {
        assert u.delivered + (u.ring + [byte]) == u.delivered + u.ring + [byte];
      }
    case Read(timeoutMs, at) =>
      var u := s.uart;
      if u.ring != [] {
        RingPops(u, |s.sched.tasks|);
        assert u.ring == [u.ring[0]] + u.ring[1..];
        assert u.delivered + [u.ring[0]] + u.ring[1..] == u.delivered + u.ring;
      }
    case _ =>
  }

  function Losses(ss: seq<Sys>, es: seq<Event>, n: nat): nat
    requires n <= |es| && n < |ss|
  {
    if n == 0 then 0 else Losses(ss, es, n - 1) + if LosesByte(ss[n - 1], es[n - 1]) then 1 else 0
  }

  /**
   Over every run, as many of the bytes that arrived are missing as events lost one; what was
   delivered followed by the ring is what arrived, in order, if and only if no event did.
   */
  lemma {:induction false} RunConservesIff(ss: seq<Sys>, es: seq<Event>, n: nat)
    requires Run(ss, es) && n < |ss| && Conserved(ss[0].uart)
    ensures ss[n].uart.accepted == ss[0].uart.accepted + Arrivals(ss, es, n)
    ensures Missing(ss[n].uart) == Losses(ss, es, n)
    ensures Conserved(ss[n].uart) <==> forall i :: 0 <= i < n ==> !LosesByte(ss[i], es[i])
    ensures var before, now := ss[0].uart.delivered + ss[0].uart.ring, ss[n].uart.delivered + ss[n].uart.ring;
      && |before + Arrivals(ss, es, n)| == |now| + Losses(ss, es, n)
      && (now == before + Arrivals(ss, es, n) <==> forall i :: 0 <= i < n ==> !LosesByte(ss[i], es[i]))
    decreases n
  {
    hide SysInv, Legal, Safe, Next, LosesByte, Arrival;
    if n > 0 {
      RunConservesIff(ss, es, n - 1);
      RunKeeps(ss, es, n - 1);
      StepConservesIff(ss[n - 1], es[n - 1]);
    }
    NoLosses(ss, es, n);
  }

  lemma {:induction false} NoLosses(ss: seq<Sys>, es: seq<Event>, n: nat)
    requires n <= |es| && n < |ss|
    ensures Losses(ss, es, n) == 0 <==> forall i :: 0 <= i < n ==> !LosesByte(ss[i], es[i])
    decreases n
  {
    hide LosesByte;
    if n > 0 {
      NoLosses(ss, es, n - 1);
    }
  }

  /**
   In runs where reads give up at once or wait for ever, no byte is lost, doubled or
   reordered: what was delivered followed by the ring is what arrived.
   */
  lemma RunConserves(ss: seq<Sys>, es: seq<Event>, n: nat)
    requires Run(ss, es) && n < |ss| && Exact(ss[0]) && Conserved(ss[0].uart)
    requires forall e :: e in es ==> NoFiniteTimeout(e)
    ensures ss[n].uart.delivered + ss[n].uart.ring == ss[0].uart.delivered + ss[0].uart.ring + Arrivals(ss, es, n)
  {
    hide SysInv, Legal, Safe, Next, Conserved, Exact, InRead;
    forall i | 0 <= i < n
      ensures !LosesByte(ss[i], es[i])
    {
      RunExact(ss, es, i);
      WaitersRead(ss[i]);
    }
    RunConservesIff(ss, es, n);
  }

  lemma WaitersRead(s: Sys)
    requires Exact(s)
    ensures s.uart.waiting != [] ==> InRead(s, s.uart.waiting[|s.uart.waiting| - 1])
  {
    assert s.uart.waiting != [] ==> s.uart.waiting[|s.uart.waiting| - 1] in s.uart.waiting;
  }

  /** In every run: nobody waits while a byte is there to be read. */
  lemma WaitersMeanEmptyRing(ss: seq<Sys>, es: seq<Event>, n: nat)
    requires Run(ss, es) && n < |ss|
    ensures ss[n].uart.waiting != [] ==> ss[n].uart.ring == []
  {
    RunKeeps(ss, es, n);
  }

  // ------------------------------------------------- what finite timeouts break

  /** Idle and one other task, which runs; their stacks are pages 1 and 2. */
  function TwoTasks(): Sys
  {
    var tasks := [Some(Task(1, 1, Ready, 0)), Some(Task(2, 1, Running, 0))];
    Sys(Sched(Some(1), [0], tasks, [], [], map[], B.BuddyState({}, {Block(1, 0), Block(2, 0)})),
        Uart([], [], [], [], {}))
  }

  lemma TwoTasksOk()
    ensures SysInv(TwoTasks()) && Exact(TwoTasks()) && Conserved(TwoTasks().uart)
  {
    var s := TwoTasks().sched;
    assert B.PagesToOrder(1) == 0;
    assert Stack(s.tasks[0].value) == Block(1, 0) && Stack(s.tasks[1].value) == Block(2, 0);
    assert B.Inv(s.buddy);
    assert StackOk(s.tasks[0].value, s.buddy) && StackOk(s.tasks[1].value, s.buddy);
    assert forall i: nat :: Occupied(s, i) ==> i == 0 || i == 1;
  }

  /** The second task waits for a byte, for one millisecond. */
  function OneWaits(): Sys
  {
    var tasks := [Some(Task(1, 1, Running, 0)), Some(Task(2, 1, Blocked, FOREVER))];
    Sys(Sched(Some(0), [], tasks, [], [SleepEntry(10_000, 1)], map[1 := 10_000], TwoTasks().sched.buddy),
          Uart([], [1], [], [], {1}))
  }

  lemma TimedRead()
    ensures Legal(TwoTasks(), Read(1, 0)) && Safe(TwoTasks(), Read(1, 0)) && Next(TwoTasks(), Read(1, 0)) == OneWaits()
  {
    TwoTasksOk();
    StepKeeps(TwoTasks(), Read(1, 0));
    var r := SetA0(TwoTasks().sched, FOREVER);
    assert Insert(r.timers, SleepEntry(10_000, 1)) == [SleepEntry(10_000, 1)];
    assert PickNext(r.ready) == (0, []);
  }

  lemma OneWaitsFacts()
    ensures SysInv(OneWaits()) && Has(OneWaits().sched, 1, Blocked) && Wakes(OneWaits(), Timer(10_000), 1)
  {
    TwoTasksOk();
    TimedRead();
    StepKeeps(TwoTasks(), Read(1, 0));
    hide SysInv, Next, Safe, Legal;
    assert OneWaits().sched.timers[0] in OneWaits().sched.timers;
  }

  /** After the read timed out its waiting entry is still there, and the next byte is lost to it. */
  lemma ByteIsLost() returns (ss: seq<Sys>, es: seq<Event>)
    ensures Run(ss, es) && Exact(ss[0]) && Conserved(ss[0].uart) && !Conserved(ss[|es|].uart)
  {
    hide SysInv, Next, Has, Exact, Safe, Wakes, TwoTasks, Conserved, Legal;
    TwoTasksOk();
    TimedRead();
    OneWaitsFacts();
    var s1 := OneWaits();
    TimerLosesNothing(s1, 10_000);
    WokenIff(s1, Timer(10_000), 1);
    var s2 := Next(s1, Timer(10_000));
    ReceiveIsLegal(s2, 65);
    StepKeeps(s2, Receive(65));
    StepConservesIff(s2, Receive(65));
    es := [Read(1, 0), Timer(10_000), Receive(65)];
    ss := [TwoTasks(), s1, s2, Next(s2, Receive(65))];
  }

  lemma TimerLosesNothing(s: Sys, now: nat)
    requires SysInv(s) && s.uart == Uart([], [1], [], [], {1})
    ensures Legal(s, Timer(now)) && Safe(s, Timer(now)) && SysInv(Next(s, Timer(now)))
    ensures Next(s, Timer(now)).uart == s.uart && Conserved(s.uart)
  {
    StepKeeps(s, Timer(now));
  }

  lemma ReceiveIsLegal(s: Sys, byte: nat)
    ensures Legal(s, Receive(byte))
  {
  }

  /** The byte arrives in time: the timer of the read is stale from now on. */
  function GotByte(): Sys
  {
    var tasks := [Some(Task(1, 1, Running, 0)), Some(Task(2, 1, Ready, 65))];
    OneWaits().(sched := OneWaits().sched.(tasks := tasks, ready := [1]), uart := Uart([], [], [65], [65], {1}))
  }

  function Resumed(): Sys
  {
    var tasks := [Some(Task(1, 1, Ready, 0)), Some(Task(2, 1, Running, 65))];
    GotByte().(sched := GotByte().sched.(tasks := tasks, ready := [0], current := Some(1)))
  }

  /** The second task sleeps until 110 000, and the stale timer is still in the heap. */
  function Sleeping(): Sys
  {
    var tasks := [Some(Task(1, 1, Running, 0)), Some(Task(2, 1, Blocked, 65))];
    var timers := [SleepEntry(10_000, 1), SleepEntry(110_000, 1)];
    Sys(Resumed().sched.(tasks := tasks, ready := [], current := Some(0), timers := timers,
                         deadlines := map[1 := 110_000]),
        Resumed().uart.(reading := {}))
  }

  lemma ToGotByte()
    ensures Legal(OneWaits(), Receive(65)) && Next(OneWaits(), Receive(65)) == GotByte()
  {
  }

  lemma ToResumed()
    requires SysInv(GotByte())
    ensures Legal(GotByte(), Yield) && Safe(GotByte(), Yield) && Next(GotByte(), Yield) == Resumed()
  {
    var s := GotByte().sched;
    assert Reclaim(s) == s && Requeue(s).ready == [1, 0] && PickNext([1, 0]) == (1, [0]);
  }

  lemma ToSleeping()
    requires SysInv(Resumed())
    ensures Legal(Resumed(), Sleep(10, 10_000)) && Safe(Resumed(), Sleep(10, 10_000)) &&
          Next(Resumed(), Sleep(10, 10_000)) == Sleeping()
  {
    var s := Resumed().sched;
    assert Insert([SleepEntry(10_000, 1)], SleepEntry(110_000, 1)) ==
           [SleepEntry(10_000, 1)] + Insert([], SleepEntry(110_000, 1));
    assert s.ready == [0] && s.ready[1..] == [];
  }

  /** A stale timer of an earlier read wakes a sleeping task before its deadline. */
  lemma SleeperIsWokenEarly() returns (ss: seq<Sys>, es: seq<Event>)
    ensures Run(ss, es) && Exact(ss[0]) && |es| > 0 && es[|es| - 1] == Timer(10_000)
    ensures Has(ss[|es| - 1].sched, 1, Blocked) && ss[|es| - 1].sched.deadlines == map[1 := 110_000]
    ensures !Has(ss[|es|].sched, 1, Blocked)
  {
    hide SysInv, Next, Exact, Safe, Wakes, TwoTasks, Conserved, Legal;
    TwoTasksOk();
    TimedRead();
    OneWaitsFacts();
    ToGotByte();
    StepKeeps(OneWaits(), Receive(65));
    ToResumed();
    StepKeeps(GotByte(), Yield);
    ToSleeping();
    StepKeeps(Resumed(), Sleep(10, 10_000));
    var s := Sleeping();
    SleepingIsDue();
    StepKeeps(s, Timer(10_000));
    WokenIff(s, Timer(10_000), 1);
    es := [Read(1, 0), Receive(65), Yield, Sleep(10, 10_000), Timer(10_000)];
    ss := [TwoTasks(), OneWaits(), GotByte(), Resumed(), s, Next(s, Timer(10_000))];
  }

  lemma SleepingIsDue()
    ensures Wakes(Sleeping(), Timer(10_000), 1) && Legal(Sleeping(), Timer(10_000))
  {
    assert Sleeping().sched.timers[0] in Sleeping().sched.timers;
  }

  /** The read has timed out; the second task runs again, and is still listed. */
  function TimedOut(): Sys
  {
    var tasks := [Some(Task(1, 1, Ready, 0)), Some(Task(2, 1, Running, FOREVER))];
    OneWaits().(sched := OneWaits().sched.(tasks := tasks, ready := [0], current := Some(1), timers := []))
  }

  /** It sleeps until 110 000. */
  function AsleepAndListed(): Sys
  {
    var tasks := [Some(Task(1, 1, Running, 0)), Some(Task(2, 1, Blocked, FOREVER))];
    Sys(TimedOut().sched.(tasks := tasks, ready := [], current := Some(0), timers := [SleepEntry(110_000, 1)],
                          deadlines := map[1 := 110_000]),
        TimedOut().uart.(reading := {}))
  }

  lemma ToTimedOut()
    requires SysInv(OneWaits())
    ensures Legal(OneWaits(), Timer(10_000)) && Safe(OneWaits(), Timer(10_000))
    ensures Next(OneWaits(), Timer(10_000)) == TimedOut()
  {
    StepKeeps(OneWaits(), Timer(10_000));
    var s := OneWaits().sched;
    var t := WakeUp(s.(timers := []), 1);
    assert s.timers[1..] == [];
    assert FinishSleep(s, 10_000) == t && t.ready == [1];
    assert Reclaim(t) == t && Requeue(t).ready == [1, 0] && PickNext([1, 0]) == (1, [0]);
  }

  lemma ToAsleepAndListed()
    requires SysInv(TimedOut())
    ensures Legal(TimedOut(), Sleep(10, 10_000)) && Safe(TimedOut(), Sleep(10, 10_000))
    ensures Next(TimedOut(), Sleep(10, 10_000)) == AsleepAndListed()
  {
    var s := TimedOut().sched;
    assert Insert([], SleepEntry(110_000, 1)) == [SleepEntry(110_000, 1)];
    assert s.ready == [0] && s.ready[1..] == [];
    assert {1} - {1} == {};
  }

  /** A byte that arrives for a timed-out read goes to the task's later sleep: it is lost, and the sleep ends early. */
  lemma ByteGoesToSleeper() returns (ss: seq<Sys>, es: seq<Event>)
    ensures |ss| == 5 && es == [Read(1, 0), Timer(10_000), Sleep(10, 10_000), Receive(65)]
    ensures Conserved(ss[3].uart) && !Conserved(ss[4].uart)
    ensures Has(ss[3].sched, 1, Blocked) && ss[3].sched.deadlines == map[1 := 110_000]
    ensures !Has(ss[4].sched, 1, Blocked)
    ensures Run(ss, es) && Exact(ss[0])
  {
    hide SysInv, Next, Exact, Safe, TwoTasks, Legal;
    TwoTasksOk();
    TimedRead();
    OneWaitsFacts();
    ToTimedOut();
    StepKeeps(OneWaits(), Timer(10_000));
    ToAsleepAndListed();
    StepKeeps(TimedOut(), Sleep(10, 10_000));
    var s := AsleepAndListed();
    ReceiveIsLegal(s, 65);
    StepKeeps(s, Receive(65));
    StepConservesIff(s, Receive(65));
    WokenIff(s, Receive(65), 1);
    es := [Read(1, 0), Timer(10_000), Sleep(10, 10_000), Receive(65)];
    ss := [TwoTasks(), OneWaits(), TimedOut(), s, Next(s, Receive(65))];
  }

  // ------------------------------------------------------------------- booting

  /** A task is spawned, or something else takes pages from the allocator or returns them. */
  datatype BootStep =
    | BootSpawn(ppn: nat, pages: nat, buddy: B.BuddyState)
    | BootOther(call: B.Call, buddy: B.BuddyState)

  function NoTasks(b: B.BuddyState): Sched
  {
    Sched(None, [], [], [], [], map[], b)
  }

  /** The scheduler after the first `n` steps at boot. The first task is idle. */
  function Booted(b: B.BuddyState, steps: seq<BootStep>, n: nat): Sched
    requires n <= |steps|
  {
    if n == 0 then NoTasks(b)
    else
      var s := Booted(b, steps, n - 1);
      match steps[n - 1]
      case BootSpawn(ppn, pages, b') => Enter(s, ppn, pages, b')
      case BootOther(_, b') => s.(buddy := b')
  }

  ghost predicate BootStepLegal(s: Sched, x: BootStep)
  {
    match x
    case BootSpawn(ppn, pages, b) =>
      var stack := Stack(Task(ppn, pages, Ready, 0));
      pages > 0 && FirstPage(stack) == ppn && B.Step(s.buddy, B.Alloc(pages, Some(stack)), b)
    case BootOther(call, b) =>
      && B.Step(s.buddy, call, b)
      && (call.Dealloc? ==> forall i: nat :: Occupied(s, i) ==> Stack(s.tasks[i].value) != call.block)
  }

  ghost predicate BootLegal(b: B.BuddyState, steps: seq<BootStep>)
  {
    forall i :: 0 <= i < |steps| ==> BootStepLegal(Booted(b, steps, i), steps[i])
  }

  predicate SomeSpawned(steps: seq<BootStep>, n: nat)
    requires n <= |steps|
  {
    exists i :: 0 <= i < n && steps[i].BootSpawn?
  }

  lemma StepIsLegal(b: B.BuddyState, steps: seq<BootStep>, i: nat)
    requires BootLegal(b, steps) && i < |steps|
    ensures BootStepLegal(Booted(b, steps, i), steps[i])
  {
  }

  /** Whatever happens at boot, once idle is there the first choice of a task starts a run. */
  lemma {:induction false} BootKeeps(b: B.BuddyState, steps: seq<BootStep>, n: nat)
    requires B.Inv(b) && BootLegal(b, steps) && n <= |steps|
    ensures var s := Booted(b, steps, n);
      && B.Inv(s.buddy) && s.zombies == [] && s.timers == [] && (forall i: nat :: !Has(s, i, Blocked))
      && if SomeSpawned(steps, n) then Consistent(s) else s == NoTasks(s.buddy)
    decreases n
  {
    hide Stack, B.Step, B.Inv, BootLegal, Consistent;
    if n > 0 {
      var s, x := Booted(b, steps, n - 1), steps[n - 1];
      BootKeeps(b, steps, n - 1);
      StepIsLegal(b, steps, n - 1);
      BootBuddy(s, x);
      if x.BootSpawn? {
        if SomeSpawned(steps, n - 1) {
          EnterKeeps(s, x.ppn, x.pages, x.buddy);
          EnterBlocked(s, x.ppn, x.pages, x.buddy);
        } else {
          FirstTask(s.buddy, x.ppn, x.pages, x.buddy);
        }
      } else {
        assert forall i: nat :: Has(s.(buddy := x.buddy), i, Blocked) <==> Has(s, i, Blocked);
        if SomeSpawned(steps, n - 1) {
          OtherUseKeeps(s, x.call, x.buddy);
        }
      }
    }
  }

  /** The call that a step makes to the allocator. */
  function BootCall(x: BootStep): B.Call
  {
    match x
    case BootSpawn(ppn, pages, _) => B.Alloc(pages, Some(Stack(Task(ppn, pages, Ready, 0))))
    case BootOther(call, _) => call
  }

  lemma BootBuddy(s: Sched, x: BootStep)
    requires B.Inv(s.buddy) && BootStepLegal(s, x)
    ensures B.Step(s.buddy, BootCall(x), x.buddy) && B.Inv(x.buddy)
  {
    hide Stack, B.Step, B.Inv;
    B.StepKeeps(s.buddy, BootCall(x), x.buddy);
  }

  lemma FirstTask(b: B.BuddyState, ppn: nat, pages: nat, b': B.BuddyState)
    requires B.Inv(b) && pages > 0 && FirstPage(Stack(Task(ppn, pages, Ready, 0))) == ppn
    requires B.Step(b, B.Alloc(pages, Some(Stack(Task(ppn, pages, Ready, 0)))), b')
    ensures Consistent(Enter(NoTasks(b), ppn, pages, b'))
    ensures forall i: nat :: !Has(Enter(NoTasks(b), ppn, pages, b'), i, Blocked)
  {
    hide Stack, B.Step, B.Inv, Consistent;
    var t := Enter(NoTasks(b), ppn, pages, b');
    EnterStacks(NoTasks(b), ppn, pages, b');
    assert t == Sched(None, [0], [Some(Task(ppn, pages, Ready, 0))], [], [], map[], b');
    OnlyIdle(t, Task(ppn, pages, Ready, 0));
  }

  lemma OnlyIdle(s: Sched, idle: Task)
    requires s == Sched(None, [0], [Some(idle)], [], [], map[], s.buddy) && idle.status == Ready && StacksOk(s)
    ensures Consistent(s) && forall i: nat :: !Has(s, i, Blocked)
  {
    hide StacksOk;
    assert forall i: nat, st: Status :: Has(s, i, st) <==> i == 0 && st == Ready;
  }

  lemma BootStartsRun(b: B.BuddyState, steps: seq<BootStep>)
    requires B.Inv(b) && BootLegal(b, steps) && SomeSpawned(steps, |steps|)
    ensures CanPrepare(Booted(b, steps, |steps|))
    ensures var s := Sys(PrepareNext(Booted(b, steps, |steps|)), Uart([], [], [], [], {}));
      SysInv(s) && Exact(s) && Conserved(s.uart)
  {
    hide Stack, B.Step, B.Inv, BootLegal, PrepareNext, CanPrepare, Reclaim, Booted;
    BootKeeps(b, steps, |steps|);
    PrepareKeeps(Booted(b, steps, |steps|));
    PrepareFrame(Booted(b, steps, |steps|));
  }
}
