/**
 Boot and scheduling together: from the memory handed over at boot, through the tasks that
 are spawned then, to every later trap.
 */
module System {
  import opened Bits
  import opened Blocks
  import opened Regions
  import opened SchedulerSpec
  import M = Memblock
  import Boot
  import B = BuddySpec
  import Sv39
  import Segments
  import K = Kernel
  import C = CheckedKernel

  /** Free and handed out together, the pages are the same. */
  ghost predicate PagesKept(a: B.BuddyState, b: B.BuddyState)
  {
    SamePages(a.free + a.out, b.free + b.out)
  }

  lemma {:induction false} ReclaimPages(s: Sched)
    requires Consistent(s)
    ensures PagesKept(s.buddy, Reclaim(s).buddy)
    decreases |s.zombies|
  {
    if s.zombies != [] && s.current != Some(s.zombies[|s.zombies| - 1]) {
      hide Bury, B.Step, Stack, B.Inv, Covers;
      BuryKeeps(s);
      B.StepKeeps(s.buddy, B.Dealloc(Stack(s.tasks[s.zombies[|s.zombies| - 1]].value)), BuryLast(s).buddy);
      ReclaimPages(BuryLast(s));
    }
  }

  lemma PreparePages(s: Sched)
    requires Consistent(s)
    ensures CanPrepare(s) && PagesKept(s.buddy, PrepareNext(s).buddy)
  {
    hide PrepareNext, Reclaim, CanPrepare, Covers;
    ReclaimPages(s);
    PrepareFrame(s);
  }

  lemma {:induction false} FinishSleepPages(s: Sched, now: nat)
    ensures FinishSleep(s, now).buddy == s.buddy
    decreases |s.timers|
  {
    if s.timers != [] && s.timers[0].wake <= now {
      FinishSleepPages(PopTimer(s), now);
    }
  }

  /** No trap gains or loses a page. */
  lemma StepPages(s: K.Sys, e: K.Event)
    requires K.SysInv(s) && K.Legal(s, e) && K.Safe(s, e)
    ensures PagesKept(s.sched.buddy, K.Next(s, e).sched.buddy)
  {
    hide Inv, Consistent, Stack, B.Step, FinishSleep, PrepareNext, CanPrepare, CanBlock, Reclaim, Covers, B.Inv;
    K.InvIsConsistent(s.sched);
    BuddyIsOk(s.sched);
    match e
    case Timer(now) =>
      FinishSleepMeans(s.sched, now);
      FinishSleepPages(s.sched, now);
      K.InvIsConsistent(FinishSleep(s.sched, now));
      PreparePages(FinishSleep(s.sched, now));
    case Yield => PreparePages(s.sched);
    case Exit =>
      ExitKeeps(s.sched);
      PreparePages(ExitCurrent(s.sched));
    case Spawn(size, Some(ppn), b) =>
      B.StepKeeps(s.sched.buddy, B.Alloc(K.PagesFor(size), Some(Stack(Task(ppn, K.PagesFor(size), Ready, 0)))), b);
    case OtherUse(call, b) => B.StepKeeps(s.sched.buddy, call, b);
    case _ =>
  }

  lemma BuddyIsOk(s: Sched)
    requires Consistent(s)
    ensures B.Inv(s.buddy)
  {
  }

  lemma {:induction false} RunPages(ss: seq<K.Sys>, es: seq<K.Event>, n: nat)
    requires K.Run(ss, es) && n < |ss|
    ensures PagesKept(ss[0].sched.buddy, ss[n].sched.buddy)
    decreases n
  {
    hide K.SysInv, K.Legal, K.Safe, K.Next, Covers;
    if n > 0 {
      RunPages(ss, es, n - 1);
      K.RunKeeps(ss, es, n - 1);
      StepPages(ss[n - 1], es[n - 1]);
    }
  }

  lemma {:induction false} BootPages(b: B.BuddyState, steps: seq<K.BootStep>, n: nat)
    requires B.Inv(b) && K.BootLegal(b, steps) && n <= |steps|
    ensures PagesKept(b, K.Booted(b, steps, n).buddy)
    decreases n
  {
    hide Stack, B.Step, B.Inv, K.BootLegal, Covers, K.BootCall, K.BootStepLegal;
    if n > 0 {
      var s, x := K.Booted(b, steps, n - 1), steps[n - 1];
      BootPages(b, steps, n - 1);
      K.BootKeeps(b, steps, n - 1);
      K.StepIsLegal(b, steps, n - 1);
      K.BootBuddy(s, x);
      B.StepKeeps(s.buddy, K.BootCall(x), x.buddy);
    }
  }

  /** The run starts as boot leaves the kernel: the tasks spawned, nothing received, the first task chosen. */
  ghost predicate StartsAfterBoot(b: B.BuddyState, steps: seq<K.BootStep>, ss: seq<K.Sys>, es: seq<K.Event>)
  {
    && B.Inv(b) && K.BootLegal(b, steps) && K.SomeSpawned(steps, |steps|) && K.Run(ss, es)
    && CanPrepare(K.Booted(b, steps, |steps|))
    && ss[0] == K.Sys(PrepareNext(K.Booted(b, steps, |steps|)), K.Uart([], [], [], [], {}))
  }

  lemma BootedRunPages(b: B.BuddyState, steps: seq<K.BootStep>, ss: seq<K.Sys>, es: seq<K.Event>, n: nat)
    requires StartsAfterBoot(b, steps, ss, es) && n < |ss|
    ensures PagesKept(b, ss[n].sched.buddy)
  {
    hide K.BootLegal, K.Booted, PrepareNext, CanPrepare, K.Run, B.Inv, Covers, Consistent;
    K.BootKeeps(b, steps, |steps|);
    BootPages(b, steps, |steps|);
    PreparePages(K.Booted(b, steps, |steps|));
    RunPages(ss, es, n);
  }

  /** A page of the task's stack. */
  predicate InStack(t: Task, p: nat) { t.stackPpn <= p < t.stackPpn + t.pages }

  lemma StackIsCovered(t: Task, b: B.BuddyState, p: nat)
    requires StackOk(t, b) && InStack(t, p)
    ensures Covers(b.free + b.out, p)
  {
    assert Stack(t) in b.free + b.out;
    assert Within(Page(p), Stack(t)) by { PageOfStack(t, p); }
  }

  lemma PageOfStack(t: Task, p: nat)
    requires t.pages > 0 && FirstPage(Stack(t)) == t.stackPpn && InStack(t, p)
    ensures Within(Page(p), Stack(t))
  {
    PagesAreInterval(p, Stack(t));
  }

  /**
   At every point of every run after boot each page of each stack lies in RAM, meets no
   reservation, no early allocation and no directory of the page table, and the linear map
   reaches it for reading and writing.
   */
  lemma StacksAreSafe(l: Boot.Layout, log: M.BootLog, m: M.MemblockState, tables: Sv39.Tables,
                      slot: map<nat, Sv39.Slot>, root: nat, b: B.BuddyState, steps: seq<K.BootStep>,
                      ss: seq<K.Sys>, es: seq<K.Event>, n: nat, i: nat, p: nat)
    requires Boot.LayoutOk(l) && Boot.Booted(l, log, m, tables, slot, root, b)
    requires StartsAfterBoot(b, steps, ss, es) && n < |ss|
    requires Occupied(ss[n].sched, i) && InStack(ss[n].sched.tasks[i].value, p)
    ensures Boot.PageIsSafe(l, m, tables, root, p)
  {
    hide Boot.LayoutOk, Boot.Booted, StartsAfterBoot, Boot.PageIsSafe, InStack, Covers, Stack;
    BootedRunPages(b, steps, ss, es, n);
    StackOfTask(b, steps, ss, es, n, i);
    StackIsCovered(ss[n].sched.tasks[i].value, ss[n].sched.buddy, p);
    Boot.BootPageIsSafe(l, log, m, tables, slot, root, b, ss[n].sched.buddy, p);
  }

  lemma StackOfTask(b: B.BuddyState, steps: seq<K.BootStep>, ss: seq<K.Sys>, es: seq<K.Event>, n: nat, i: nat)
    requires StartsAfterBoot(b, steps, ss, es) && n < |ss| && Occupied(ss[n].sched, i)
    ensures StackOk(ss[n].sched.tasks[i].value, ss[n].sched.buddy)
  {
    hide K.BootLegal, K.Booted, PrepareNext, CanPrepare, B.Inv, StackOk, K.Next, K.Legal, K.Safe;
    K.RunKeeps(ss, es, n);
  }

  /**
   So if RAM ends below 4 GB the address sums of a spawn never overflow, whatever was spawned
   before: of all spawns only those of almost the largest size do.
   */
  lemma SpawnFitsAfterBoot(l: Boot.Layout, log: M.BootLog, m: M.MemblockState, tables: Sv39.Tables,
                           slot: map<nat, Sv39.Slot>, root: nat, b: B.BuddyState, steps: seq<K.BootStep>,
                           ss: seq<K.Sys>, es: seq<K.Event>, n: nat)
    requires Boot.LayoutOk(l) && Boot.Booted(l, log, m, tables, slot, root, b) && l.ram.End() < Segments.PHYS_LIMIT
    requires StartsAfterBoot(b, steps, ss, es) && n < |es| && es[n].Spawn?
    ensures C.Overflows(ss[n], es[n]) <==> es[n].stackSize >= WORD - 4096
  {
    hide Boot.LayoutOk, Boot.Booted, Boot.PageIsSafe, K.BootLegal, K.Booted, PrepareNext, CanPrepare, B.Inv, B.Step,
         Stack, C.ShiftLeft12;
    var size, ppn := es[n].stackSize, es[n].ppn;
    if ppn.Some? && size < WORD - 4096 {
      var pages, i := K.PagesFor(size), FreeSlot(ss[n].sched.tasks);
      assert ss[n + 1].sched.tasks[i] == Some(Task(ppn.value, pages, Ready, 0)) by { SlotIsNew(ss, es, n); }
      StacksAreSafe(l, log, m, tables, slot, root, b, steps, ss, es, n + 1, i, ppn.value + pages - 1);
      EndsInRam(l, m, tables, root, ppn.value, pages);
    }
  }

  lemma SlotIsNew(ss: seq<K.Sys>, es: seq<K.Event>, n: nat)
    requires K.Run(ss, es) && n < |es| && es[n].Spawn? && es[n].ppn.Some?
    ensures var i, pages := FreeSlot(ss[n].sched.tasks), K.PagesFor(es[n].stackSize);
      pages > 0 && i < |ss[n + 1].sched.tasks| &&
      ss[n + 1].sched.tasks[i] == Some(Task(es[n].ppn.value, pages, Ready, 0))
  {
    hide B.Step, Stack;
    assert ss[n + 1] == K.Next(ss[n], es[n]) && K.Legal(ss[n], es[n]);
  }

  lemma EndsInRam(l: Boot.Layout, m: M.MemblockState, tables: Sv39.Tables, root: nat, ppn: nat, pages: nat)
    requires pages > 0 && Boot.PageIsSafe(l, m, tables, root, ppn + pages - 1) && l.ram.End() < Segments.PHYS_LIMIT
    ensures C.ShiftLeft12(ppn) + pages * 4096 < WORD - PHYS_VIRT_OFFSET
  {
    var a := (ppn + pages - 1) * 4096;
    assert a + 4095 in Range(a, 4096);
    assert a + 4095 in Boot.Ram(l);
    assert ppn * 4096 <= a && C.ShiftLeft12(ppn) == ppn * 4096;
  }
}
