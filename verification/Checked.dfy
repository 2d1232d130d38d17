/**
 The kernel in a build that checks arithmetic: a sum, difference or product that does not fit
 a word panics inside the trap. Exactly which events panic, and what such a build promises
 over every run.
 */
module CheckedKernel {
  import opened Bits
  import B = BuddySpec
  import opened SchedulerSpec
  import opened Kernel

  const TEN_MS_CYCLES: nat := 100_000

  // ------------------------------------------------------------ the operators

  /** No result where an operand has none or the sum does not fit. */
  function Add(a: Option<nat>, b: Option<nat>): Option<nat>
  {
    if a.Some? && b.Some? && a.value + b.value < WORD then Some(a.value + b.value) else None
  }

  function Sub(a: Option<nat>, b: Option<nat>): Option<nat>
  {
    if a.Some? && b.Some? && a.value >= b.value then Some(a.value - b.value) else None
  }

  function Mul(a: Option<nat>, b: Option<nat>): Option<nat>
  {
    if a.Some? && b.Some? && a.value * b.value < WORD then Some(a.value * b.value) else None
  }

  /** A shift to the left drops bits without a check. */
  function ShiftLeft12(x: nat): nat { x * 4096 % WORD }

  // ----------------------------------------------------------------- the step

  /** The wake time of a request for `ms` milliseconds. */
  function CheckedDueAt(at: nat, ms: nat): Option<nat>
  {
    Add(Some(at), Mul(Some(ms), Some(ONE_MS_CYCLES)))
  }

  function CheckedTimer(s: Sys, now: nat): Option<Sys>
    requires Safe(s, Timer(now))
  {
    var woken := FinishSleep(s.sched, now);
    var tick := Add(Some(now), Some(TEN_MS_CYCLES));
    if tick.None? then None else Some(s.(sched := PrepareNext(woken)))
  }

  function CheckedSleep(s: Sys, ms: nat, at: nat): Option<Sys>
    requires Safe(s, Sleep(ms, at))
  {
    var wake := CheckedDueAt(at, ms);
    if wake.None? then None
    else Some(Sys(SleepCurrent(s.sched, wake.value), s.uart.(reading := s.uart.reading - {s.sched.current.value})))
  }

  /** Only a read that blocks for a limited time computes a wake time. */
  function CheckedRead(s: Sys, ms: nat, at: nat): Option<Sys>
    requires Safe(s, Read(ms, at))
  {
    if s.uart.ring == [] && 0 < ms < FOREVER then
      var c := s.sched.current.value;
      var waiting := s.uart.(waiting := s.uart.waiting + [c], reading := s.uart.reading + {c});
      var wake := CheckedDueAt(at, ms);
      if wake.None? then None else Some(Sys(SleepCurrent(SetA0(s.sched, FOREVER), wake.value), waiting))
    else Some(ReadNext(s, ms, at))
  }

  /** The size is rounded up to pages; a stack that was found is moved to the linear window. */
  function CheckedSpawn(s: Sys, size: nat, ppn: Option<nat>, b: B.BuddyState): Option<Sys>
  {
    var rounded := Sub(Add(Some(size), Some(4096)), Some(1));
    if rounded.None? then None
    else
      var pages := rounded.value / 4096;
      if pages == 0 || ppn.None? then Some(s)
      else
        var base := Add(Some(ShiftLeft12(ppn.value)), Some(PHYS_VIRT_OFFSET));
        var top := Add(base, Mul(Some(pages), Some(4096)));
        if top.None? then None else Some(s.(sched := Enter(s.sched, ppn.value, pages, b)))
  }

  /** The state after an event, if it does not panic. The other events compute nothing that could overflow. */
  function CheckedNext(s: Sys, e: Event): Option<Sys>
    requires Safe(s, e)
  {
    match e
    case Timer(now) => CheckedTimer(s, now)
    case Sleep(ms, at) => CheckedSleep(s, ms, at)
    case Read(ms, at) => CheckedRead(s, ms, at)
    case Spawn(size, ppn, b) => CheckedSpawn(s, size, ppn, b)
    case _ => Some(Next(s, e))
  }

  // ------------------------------------------------------- exactly what panics

  /**
   The next tick or the wake time does not fit a word, the size is within a page of the
   largest word, or the stack does not end below the last byte of the window.
   */
  predicate Overflows(s: Sys, e: Event)
  {
    match e
    case Timer(now) => now >= WORD - 100_000
    case Sleep(ms, at) => at + ms * 10_000 >= WORD
    case Read(ms, at) => WillBlock(s, e) && ms < WORD - 1 && at + ms * 10_000 >= WORD
    case Spawn(size, ppn, _) =>
      || size >= WORD - 4096
      || (ppn.Some? && ShiftLeft12(ppn.value) + (size + 4095) / 4096 * 4096 >= 0x1_0000_0000)
    case _ => false
  }

  lemma DueFits(at: nat, ms: nat)
    ensures CheckedDueAt(at, ms) == if DueAt(at, ms) < WORD then Some(DueAt(at, ms)) else None
  {
  }

  lemma SpawnFits(s: Sys, size: nat, ppn: Option<nat>, b: B.BuddyState)
    requires ppn.Some? ==> size > 0
    ensures var e := Spawn(size, ppn, b);
      CheckedSpawn(s, size, ppn, b) == if Overflows(s, e) then None else Some(Next(s, e))
  {
    hide Enter, ShiftLeft12;
    var pages := PagesFor(size);
    if size < WORD - 4096 {
      assert Sub(Add(Some(size), Some(4096)), Some(1)) == Some(size + 4095);
      assert pages * 4096 <= size + 4095 < WORD;
    }
  }

  /** With overflow checks a legal event panics exactly if it overflows, and else does what it does without them. */
  lemma CheckedStepIff(s: Sys, e: Event)
    requires SysInv(s) && Legal(s, e)
    ensures Safe(s, e) && CheckedNext(s, e) == if Overflows(s, e) then None else Some(Next(s, e))
  {
    hide SysInv, CheckedDueAt, CheckedSpawn, SleepCurrent, PrepareNext, FinishSleep;
    StepKeeps(s, e);
    match e
    case Sleep(ms, at) => DueFits(at, ms);
    case Read(ms, at) => DueFits(at, ms);
    case Spawn(size, ppn, b) => SpawnFits(s, size, ppn, b);
    case _ =>
  }

  /** The last ticks of the clock, the largest stack and the longest sleep panic. */
  lemma LargestInputsPanic()
    ensures var s := TwoTasks();
      forall e :: e in {Timer(WORD - 1), Spawn(WORD - 1, None, s.sched.buddy), Sleep(FOREVER, 0)} ==>
        SysInv(s) && Legal(s, e) && Safe(s, e) && CheckedNext(s, e) == None
  {
    var s := TwoTasks();
    TwoTasksOk();
    forall e | e in {Timer(WORD - 1), Spawn(WORD - 1, None, s.sched.buddy), Sleep(FOREVER, 0)}
      ensures Safe(s, e) && CheckedNext(s, e) == None
    {
      CheckedStepIff(s, e);
    }
  }

  // --------------------------------------------------------------------- runs

  ghost predicate CheckedRun(ss: seq<Sys>, es: seq<Event>)
  {
    && |ss| == |es| + 1 && SysInv(ss[0])
    && forall i :: 0 <= i < |es| ==>
         Legal(ss[i], es[i]) && Safe(ss[i], es[i]) && CheckedNext(ss[i], es[i]) == Some(ss[i + 1])
  }

  /** The runs of such a build are the runs without overflow. */
  lemma CheckedRunIff(ss: seq<Sys>, es: seq<Event>)
    requires |ss| == |es| + 1
    ensures CheckedRun(ss, es) <==> Run(ss, es) && forall i :: 0 <= i < |es| ==> !Overflows(ss[i], es[i])
  {
    hide SysInv, Legal, Safe, Next, CheckedNext, Overflows;
    if CheckedRun(ss, es) {
      CheckedIsRun(ss, es, |es|);
    }
    if Run(ss, es) {
      forall i | 0 <= i < |es|
        ensures CheckedNext(ss[i], es[i]) == if Overflows(ss[i], es[i]) then None else Some(ss[i + 1])
      {
        RunKeeps(ss, es, i);
        CheckedStepIff(ss[i], es[i]);
      }
    }
  }

  lemma {:induction false} CheckedIsRun(ss: seq<Sys>, es: seq<Event>, n: nat)
    requires CheckedRun(ss, es) && n <= |es|
    ensures SysInv(ss[n]) && forall i :: 0 <= i < n ==> ss[i + 1] == Next(ss[i], es[i]) && !Overflows(ss[i], es[i])
    decreases n
  {
    hide SysInv, Legal, Safe, Next, CheckedNext, Overflows;
    if n > 0 {
      CheckedIsRun(ss, es, n - 1);
      CheckedStepIff(ss[n - 1], es[n - 1]);
      StepKeeps(ss[n - 1], es[n - 1]);
    }
  }

  ghost predicate DeadlinesFit(s: Sched) { forall i :: i in s.deadlines ==> s.deadlines[i] < WORD }

  lemma StepDeadlines(s: Sys, e: Event)
    requires SysInv(s) && Legal(s, e) && Safe(s, e) && DeadlinesFit(s.sched) && !Overflows(s, e)
    ensures DeadlinesFit(Next(s, e).sched)
  {
    hide Stack, B.Step, FinishSleep, PrepareNext, BlockCurrent, SleepCurrent, CanPrepare, CanBlock, Reclaim, Inv,
         Consistent;
    match e
    case Timer(now) =>
      FinishSleepMeans(s.sched, now);
      InvIsConsistent(FinishSleep(s.sched, now));
      PrepareFrame(FinishSleep(s.sched, now));
    case Yield =>
      InvIsConsistent(s.sched);
      PrepareFrame(s.sched);
    case Exit =>
      ExitKeeps(s.sched);
      PrepareFrame(ExitCurrent(s.sched));
    case Sleep(ms, at) =>
      BlockStep(s.sched, DueAt(at, ms));
      BlockFrame(s.sched, DueAt(at, ms));
    case Read(ms, at) =>
      A0Keeps(s.sched, FOREVER);
      if s.uart.ring == [] && ms > 0 {
        BlockStep(SetA0(s.sched, FOREVER), DueAt(at, ms));
        BlockFrame(SetA0(s.sched, FOREVER), DueAt(at, ms));
      }
    case _ =>
  }

  /** Where overflow is checked no deadline is ever too late for a word. */
  lemma {:induction false} CheckedDeadlinesFit(ss: seq<Sys>, es: seq<Event>, n: nat)
    requires CheckedRun(ss, es) && n <= |es| && DeadlinesFit(ss[0].sched)
    ensures DeadlinesFit(ss[n].sched)
    decreases n
  {
    hide SysInv, Legal, Safe, Next, CheckedNext, Overflows, DeadlinesFit;
    if n > 0 {
      CheckedDeadlinesFit(ss, es, n - 1);
      CheckedIsRun(ss, es, n);
      CheckedIsRun(ss, es, n - 1);
      StepDeadlines(ss[n - 1], es[n - 1]);
    }
  }

  /**
   So such a build keeps every sleep, whatever its length: if reads do not time out, a task
   stops being blocked in a sleep only at a timer interrupt at or after its deadline.
   */
  lemma CheckedNeverWokenEarly(ss: seq<Sys>, es: seq<Event>, n: nat, i: nat)
    requires CheckedRun(ss, es) && n < |es| && Exact(ss[0]) && DeadlinesFit(ss[0].sched)
    requires forall e :: e in es ==> NoFiniteTimeout(e)
    requires Has(ss[n].sched, i, Blocked) && i in ss[n].sched.deadlines && !Has(ss[n + 1].sched, i, Blocked)
    ensures es[n].Timer? && ss[n].sched.deadlines[i] <= es[n].now
  {
    hide SysInv, Legal, Safe, Next, CheckedNext, Overflows, Exact;
    CheckedRunIff(ss, es);
    CheckedDeadlinesFit(ss, es, n);
    NeverWokenEarly(ss, es, n, i);
  }
}
