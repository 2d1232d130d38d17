/**
 System calls, the receive interrupt and the trap dispatcher, as operations on the
 scheduler and the serial port service. Each does exactly one step of the kernel's state
 machine.
 */
module Syscalls {
  import opened Bits
  import opened SchedulerSpec
  import opened Kernel
  import opened RingBuffers
  import opened Schedulers
  import B = BuddySpec

  class UartService {
    const receiveBuffer: RingBuffer
    var waitQueue: seq<nat>
    ghost var delivered: seq<nat>
    ghost var accepted: seq<nat>
    ghost var reading: set<nat>

    ghost predicate Valid()
      reads this, receiveBuffer, receiveBuffer.buffer
    {
      receiveBuffer.Valid() && receiveBuffer.buffer.Length == RING_CAPACITY
    }

    ghost function View(): Uart
      requires Valid()
      reads this, receiveBuffer, receiveBuffer.buffer
    {
      Uart(receiveBuffer.Contents(), waitQueue, delivered, accepted, reading)
    }

    constructor ()
      ensures Valid() && View() == Uart([], [], [], [], {}) && fresh(receiveBuffer) && fresh(receiveBuffer.buffer)
    {
      receiveBuffer := new RingBuffer(RING_CAPACITY);
      waitQueue, delivered, accepted, reading := [], [], [], {};
    }
  }

  ghost predicate Ready(sch: Scheduler, uart: UartService)
    reads sch, sch.frames, sch.frames.heads, uart, uart.receiveBuffer, uart.receiveBuffer.buffer
  {
    && sch.frames.heads != uart.receiveBuffer.buffer
    && sch.frames.Ready() && uart.Valid() && SysInv(Sys(sch.View(), uart.View()))
  }

  ghost function System(sch: Scheduler, uart: UartService): Sys
    requires uart.Valid()
    reads sch, sch.frames, uart, uart.receiveBuffer, uart.receiveBuffer.buffer
  {
    Sys(sch.View(), uart.View())
  }

  /** Writes the result register of the current task. */
  method SetResult(sch: Scheduler, v: nat)
    requires sch.currentTaskId.Some? && Occupied(sch.View(), sch.currentTaskId.value)
    modifies sch
    ensures sch.View() == SetA0(old(sch.View()), v)
  {
    var c := sch.currentTaskId.value;
    sch.taskList := sch.taskList[c := Some(sch.taskList[c].value.(a0 := v))];
  }

  /** Reads a byte, or waits for one: not at all, for a time, or for ever. */
  method UartRead(sch: Scheduler, uart: UartService, timeoutMs: nat, now: nat)
    requires Ready(sch, uart) && Legal(System(sch, uart), Read(timeoutMs, now))
    modifies sch, uart, uart.receiveBuffer
    ensures Ready(sch, uart)
    ensures Safe(old(System(sch, uart)), Read(timeoutMs, now))
    ensures System(sch, uart) == Next(old(System(sch, uart)), Read(timeoutMs, now))
  {
    hide SysInv, Legal, Stack, SleepCurrent, BlockCurrent, B.Inv, Scheduler.Valid;
    StepKeeps(System(sch, uart), Read(timeoutMs, now));
    var c := uart.receiveBuffer.Pop();
    if c.Some? {
      if c.value >= 0x80 {
        SetResult(sch, FOREVER);
      } else {
        SetResult(sch, c.value);
        uart.delivered := uart.delivered + [c.value];
      }
      return;
    }
    if timeoutMs == 0 {
      SetResult(sch, FOREVER);
      return;
    }
    uart.waitQueue := uart.waitQueue + [sch.currentTaskId.value];
    uart.reading := uart.reading + {sch.currentTaskId.value};
    SetResult(sch, FOREVER);
    if timeoutMs < FOREVER {
      sch.SetCurrentTaskSleep((now + timeoutMs * ONE_MS_CYCLES) % WORD, DueAt(now, timeoutMs));
    } else {
      sch.BlockCurrentTask();
    }
  }

  /** A byte has arrived. */
  method ReceiveByte(sch: Scheduler, uart: UartService, byte: nat)
    requires Ready(sch, uart)
    modifies sch, uart, uart.receiveBuffer, uart.receiveBuffer.buffer
    ensures Ready(sch, uart) && Safe(old(System(sch, uart)), Receive(byte))
    ensures System(sch, uart) == Next(old(System(sch, uart)), Receive(byte))
  {
    hide SysInv, Stack;
    StepKeeps(System(sch, uart), Receive(byte));
    if byte >= 0x80 {
      return;
    }
    WaiterInTable(System(sch, uart));
    if uart.waitQueue != [] {
      var n := |uart.waitQueue| - 1;
      var taskId := uart.waitQueue[n];
      uart.waitQueue := uart.waitQueue[..n];
      uart.accepted := uart.accepted + [byte];
      if InRead(old(System(sch, uart)), taskId) {
        uart.delivered := uart.delivered + [byte];
      }
      sch.WakeUpTaskWithResult(taskId, byte);
    } else {
      var ok := uart.receiveBuffer.Push(byte);
      if ok {
        uart.accepted := uart.accepted + [byte];
      }
    }
  }

  lemma WaiterInTable(s: Sys)
    requires SysInv(s)
    ensures s.uart.waiting != [] ==> s.uart.waiting[|s.uart.waiting| - 1] < |s.sched.tasks|
  {
    if s.uart.waiting != [] {
      assert s.uart.waiting[|s.uart.waiting| - 1] in s.uart.waiting;
    }
  }

  const INTERRUPT_BIT: nat := 0x8000_0000_0000_0000

  /**
   The step that a trap stands for: `scause` tells interrupts from calls, `a7` and `a0` are
   registers of the interrupted task, and `rx` is the byte that the serial port received, if
   that is why it interrupted. Nothing else touches this state.
   */
  function Decode(scause: nat, a7: nat, a0: nat, now: nat, rx: Option<nat>): Option<Event>
  {
    if scause >= INTERRUPT_BIT then
      if scause - INTERRUPT_BIT == 5 then Some(Timer(now))
      else if scause - INTERRUPT_BIT == 9 && rx.Some? then Some(Receive(rx.value))
      else None
    else if scause != 8 then None
    else
      match a7
      case 1 => Some(Write)
      case 7 => Some(Yield)
      case 9 => Some(Exit)
      case 17 => Some(Sleep(a0, now))
      case 27 => Some(Read(a0, now))
      case _ => None
  }

  /** Handles one trap: the step it stands for, or nothing. */
  method TrapHandler(sch: Scheduler, uart: UartService, scause: nat, a7: nat, a0: nat, now: nat, rx: Option<nat>)
    requires Ready(sch, uart)
    requires var e := Decode(scause, a7, a0, now, rx); e.Some? ==> Legal(System(sch, uart), e.value)
    modifies sch, sch.frames, sch.frames.heads, uart, uart.receiveBuffer, uart.receiveBuffer.buffer
    ensures Ready(sch, uart)
    ensures var e := Decode(scause, a7, a0, now, rx);
      if e.None? then System(sch, uart) == old(System(sch, uart))
      else Safe(old(System(sch, uart)), e.value) && System(sch, uart) == Next(old(System(sch, uart)), e.value)
  {
    hide SysInv, Legal, Next, Safe;
    if scause >= INTERRUPT_BIT {
      var code := scause - INTERRUPT_BIT;
      if code == 5 {
        TimerInterrupt(sch, uart, now);
      } else if code == 9 {
        if rx.Some? {
          ReceiveByte(sch, uart, rx.value);
        }
      }
    } else if scause == 8 {
      if a7 == 1 {
        WriteByte(sch, uart);
      } else if a7 == 7 {
        Schedule(sch, uart);
      } else if a7 == 9 {
        ExitTask(sch, uart);
      } else if a7 == 17 {
        SleepFor(sch, uart, a0, now);
      } else if a7 == 27 {
        UartRead(sch, uart, a0, now);
      }
    }
  }

  method TimerInterrupt(sch: Scheduler, uart: UartService, now: nat)
    requires Ready(sch, uart)
    modifies sch, sch.frames, sch.frames.heads
    ensures Ready(sch, uart) && Safe(old(System(sch, uart)), Timer(now))
    ensures System(sch, uart) == Next(old(System(sch, uart)), Timer(now))
  {
    hide Stack, FinishSleep, CanPrepare, PrepareNext, Reclaim, QueuesOk, StacksOk;
    StepKeeps(System(sch, uart), Timer(now));
    FinishSleepMeans(sch.View(), now);
    sch.FinishSleeping(now);
    sch.PrepareNextTask();
  }

  method Schedule(sch: Scheduler, uart: UartService)
    requires Ready(sch, uart)
    modifies sch, sch.frames, sch.frames.heads
    ensures Ready(sch, uart) && Safe(old(System(sch, uart)), Yield)
    ensures System(sch, uart) == Next(old(System(sch, uart)), Yield)
  {
    hide Stack, CanPrepare, PrepareNext, Reclaim, Consistent;
    StepKeeps(System(sch, uart), Yield);
    InvIsConsistent(sch.View());
    sch.PrepareNextTask();
  }

  method ExitTask(sch: Scheduler, uart: UartService)
    requires Ready(sch, uart) && Legal(System(sch, uart), Exit)
    modifies sch, sch.frames, sch.frames.heads
    ensures Ready(sch, uart) && Safe(old(System(sch, uart)), Exit)
    ensures System(sch, uart) == Next(old(System(sch, uart)), Exit)
  {
    hide Stack, CanPrepare, PrepareNext, Reclaim, Consistent, ExitCurrent;
    StepKeeps(System(sch, uart), Exit);
    CurrentIsOccupied(sch.View());
    ExitKeeps(sch.View());
    sch.ExitCurrentTask();
    sch.PrepareNextTask();
  }

  method SleepFor(sch: Scheduler, uart: UartService, ms: nat, now: nat)
    requires Ready(sch, uart) && Legal(System(sch, uart), Sleep(ms, now))
    modifies sch, uart`reading
    ensures Ready(sch, uart) && Safe(old(System(sch, uart)), Sleep(ms, now))
    ensures System(sch, uart) == Next(old(System(sch, uart)), Sleep(ms, now))
  {
    hide Stack, SysInv, SleepCurrent;
    StepKeeps(System(sch, uart), Sleep(ms, now));
    uart.reading := uart.reading - {sch.currentTaskId.value};
    sch.SetCurrentTaskSleep((now + ms * ONE_MS_CYCLES) % WORD, DueAt(now, ms));
  }

  method WriteByte(sch: Scheduler, uart: UartService)
    requires Ready(sch, uart)
    modifies sch
    ensures Ready(sch, uart) && Safe(old(System(sch, uart)), Write)
    ensures System(sch, uart) == Next(old(System(sch, uart)), Write)
  {
    hide Stack, SysInv;
    StepKeeps(System(sch, uart), Write);
    SetResult(sch, 0);
  }
}
