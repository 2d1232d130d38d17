/**
 The scheduler object: its fields are changed in place, and every operation does to them
 what the state machine prescribes.
 */
module Schedulers {
  import opened Bits
  import opened Blocks
  import opened SchedulerSpec
  import B = BuddySpec
  import Buddy

  class Scheduler {
    var currentTaskId: Option<nat>
    var readyQueue: seq<nat>
    var taskList: seq<Option<Task>>
    var zombieQueue: seq<nat>
    var blockedQueue: seq<SleepEntry>
    ghost var deadlines: map<nat, nat>
    const frames: Buddy.BuddySystemFrameAllocator

    ghost function View(): Sched
      reads this, frames
    {
      Sched(currentTaskId, readyQueue, taskList, zombieQueue, blockedQueue, deadlines, frames.State())
    }

    ghost predicate Valid()
      reads this, frames, frames.heads
    {
      frames.Ready() && Consistent(View())
    }

    constructor (allocator: Buddy.BuddySystemFrameAllocator)
      ensures frames == allocator
      ensures View() == Sched(None, [], [], [], [], map[], allocator.State())
    {
      currentTaskId, readyQueue, taskList, zombieQueue, blockedQueue := None, [], [], [], [];
      deadlines := map[];
      frames := allocator;
    }

    /** The first empty slot, or the end of the table. */
    method Position() returns (i: nat)
      ensures i == FreeSlot(taskList)
    {
      i := 0;
      while i < |taskList| && taskList[i].Some?
        invariant i <= |taskList| && FreeSlot(taskList) == i + FreeSlot(taskList[i..])
      {
        assert taskList[i..][1..] == taskList[i + 1..];
        i := i + 1;
      }
    }

    /** Enters a task with a stack of its own; nothing changes if there is no room for the stack. */
    method Spawn(stackSize: nat) returns (ok: bool, ghost ppn: nat)
      requires frames.Ready()
      modifies this, frames, frames.heads
      ensures frames.Ready()
      ensures var pages := (stackSize + 4095) / 4096;
        !ok ==>
          View() == old(View()) &&
          (pages > 0 ==> B.Step(old(frames.State()), B.Alloc(pages, None), frames.State()))
      ensures ok ==>
                var pages := (stackSize + 4095) / 4096; var stack := Stack(Task(ppn, pages, Ready, 0));
                && FirstPage(stack) == ppn && pages > 0
                && B.Step(old(frames.State()), B.Alloc(pages, Some(stack)), frames.State())
                && View() == Enter(old(View()), ppn, pages, frames.State())
    {
      hide Stack, B.Step, B.Inv;
      var taskId := Position();
      var pages := (stackSize + 4095) / 4096;
      if pages == 0 {
        return false, 0;
      }
      var r := frames.Alloc(pages);
      if r.None? {
        FailedAllocChangesNothing(old(frames.State()), pages, frames.State());
        return false, 0;
      }
      StackIsRun(r.value, pages);
      var tcb := Task(r.value, pages, Ready, 0);
      if taskId == |taskList| {
        taskList := taskList + [Some(tcb)];
      } else {
        taskList := taskList[taskId := Some(tcb)];
      }
      readyQueue := readyQueue + [taskId];
      return true, r.value;
    }

    /** Pops the next task off the queue and makes it run. */
    method SwitchToNext()
      requires Occupied(View(), PickNext(View().ready).0)
      modifies this
      ensures View() == Dispatch(old(View()))
    {
      var next, rest := 0, [];
      if readyQueue != [] {
        next, rest := readyQueue[0], readyQueue[1..];
      }
      if next == 0 && rest != [] {
        next, rest := rest[0], rest[1..] + [0];
      }
      assert (next, rest) == PickNext(readyQueue);
      taskList := taskList[next := Some(taskList[next].value.(status := Running))];
      currentTaskId := Some(next);
      readyQueue := rest;
    }

    /** `due` is the time asked for, of which `wakeTime` is the word it wraps around to. */
    method SetCurrentTaskSleep(wakeTime: nat, ghost due: nat)
      requires CanBlock(View()) && wakeTime == WakeTime(due)
      modifies this
      ensures View() == SleepCurrent(old(View()), due)
    {
      var cur := currentTaskId.value;
      taskList := taskList[cur := Some(taskList[cur].value.(status := Blocked))];
      blockedQueue := Insert(blockedQueue, SleepEntry(wakeTime, cur));
      deadlines := deadlines[cur := due];
      NextStaysOccupied(old(View()), View());
      SwitchToNext();
    }

    method BlockCurrentTask()
      requires CanBlock(View())
      modifies this
      ensures View() == BlockCurrent(old(View()))
    {
      var cur := currentTaskId.value;
      taskList := taskList[cur := Some(taskList[cur].value.(status := Blocked))];
      deadlines := deadlines - {cur};
      NextStaysOccupied(old(View()), View());
      SwitchToNext();
    }

    method WakeUpTaskWithResult(taskId: nat, result: nat)
      requires taskId < |taskList|
      modifies this
      ensures View() == WakeUpWithResult(old(View()), taskId, result)
    {
      match taskList[taskId]
      case None =>
      case Some(tcb) =>
        if tcb.status == Blocked {
          taskList := taskList[taskId := Some(tcb.(status := Ready, a0 := result))];
          readyQueue := readyQueue + [taskId];
        }
    }

    /** Wakes the tasks whose timers are due. */
    method FinishSleeping(now: nat)
      requires forall e :: e in blockedQueue ==> e.id < |taskList|
      modifies this
      ensures View() == FinishSleep(old(View()), now)
    {
      while blockedQueue != [] && blockedQueue[0].wake <= now
        invariant forall e :: e in blockedQueue ==> e.id < |taskList|
        invariant FinishSleep(View(), now) == FinishSleep(old(View()), now)
        decreases |blockedQueue|
      {
        var entry := blockedQueue[0];
        ghost var s := View();
        blockedQueue := blockedQueue[1..];
        match taskList[entry.id] {
          case None =>
          case Some(tcb) =>
            if tcb.status == Blocked {
              taskList := taskList[entry.id := Some(tcb.(status := Ready))];
              readyQueue := readyQueue + [entry.id];
            }
        }
        assert View() == PopTimer(s);
      }
    }

    method Retain(x: nat)
      modifies this`readyQueue
      ensures readyQueue == SchedulerSpec.Without(old(readyQueue), x)
    {
      hide SchedulerSpec.Without;
      var kept, i := [], 0;
      WithoutNext(readyQueue, 0, x);
      while i < |readyQueue|
        modifies {}
        invariant 0 <= i <= |readyQueue|
        invariant kept == SchedulerSpec.Without(readyQueue[..i], x)
      {
        WithoutNext(readyQueue, i, x);
        if readyQueue[i] != x {
          kept := kept + [readyQueue[i]];
        }
        i := i + 1;
      }
      assert readyQueue[..i] == readyQueue;
      readyQueue := kept;
    }

    /** Buries zombies from the back of the list, sparing the current task. */
    method ReclaimZombies()
      requires Valid()
      modifies this, frames, frames.heads
      ensures Valid() && View() == Reclaim(old(View()))
    {
      hide Consistent, B.Step, Stack, Reclaim, Buddy.RunAt;
      var n, i := |zombieQueue|, 0;
      while i < n
        invariant 0 <= i <= n && |zombieQueue| == n - i
        invariant Valid() && Reclaim(View()) == Reclaim(old(View()))
      {
        ghost var s := View();
        var last := |zombieQueue| - 1;
        var z := zombieQueue[last];
        if currentTaskId == Some(z) {
          ReclaimStops(s);
          return;
        }
        ReclaimOne(s);
        ZombieStack(s);
        zombieQueue := zombieQueue[..last];
        Retain(z);
        var tcb := taskList[z].value;
        taskList := taskList[z := None];
        frames.Dealloc(tcb.stackPpn, tcb.pages);
        BuriedView(s, View());
        i := i + 1;
      }
      ReclaimStops(View());
    }

    method PrepareNextTask()
      requires Valid()
      modifies this, frames, frames.heads
      ensures Valid() && CanPrepare(old(View())) && View() == PrepareNext(old(View()))
    {
      PrepareKeeps(View());
      ReclaimZombies();
      if currentTaskId.Some? {
        var cur := currentTaskId.value;
        if taskList[cur].Some? && taskList[cur].value.status == Running {
          taskList := taskList[cur := Some(taskList[cur].value.(status := Ready))];
          readyQueue := readyQueue + [cur];
        }
      }
      assert View() == Requeue(Reclaim(old(View())));
      SwitchToNext();
    }

    /** Marks the current task terminated and lists it as a zombie. */
    method ExitCurrentTask()
      requires currentTaskId.Some? && currentTaskId.value < |taskList|
      modifies this
      ensures View() == ExitCurrent(old(View()))
    {
      var id := currentTaskId.value;
      if taskList[id].Some? {
        taskList := taskList[id := Some(taskList[id].value.(status := Terminated))];
        zombieQueue := zombieQueue + [id];
      }
    }
  }

  lemma FailedAllocChangesNothing(s: B.BuddyState, pages: nat, t: B.BuddyState)
    requires B.Step(s, B.Alloc(pages, None), t)
    ensures s == t
  {
  }

  lemma StackIsRun(ppn: nat, pages: nat)
    requires pages > 0
    ensures Buddy.RunAt(ppn, B.PagesToOrder(pages)).Some? <==> FirstPage(Stack(Task(ppn, pages, Ready, 0))) == ppn
    ensures Buddy.RunAt(ppn, B.PagesToOrder(pages)).Some? ==>
              Buddy.RunAt(ppn, B.PagesToOrder(pages)).value == Stack(Task(ppn, pages, Ready, 0))
  {
  }

  lemma NextStaysOccupied(s: Sched, t: Sched)
    requires CanBlock(s) && t.ready == s.ready
    requires t.tasks == s.tasks[s.current.value := Some(s.tasks[s.current.value].value.(status := Blocked))]
    ensures Occupied(t, PickNext(t.ready).0)
  {
  }

  lemma ReclaimStops(s: Sched)
    requires s.zombies == [] || s.current == Some(s.zombies[|s.zombies| - 1])
    ensures Reclaim(s) == s
  {
  }

  lemma ReclaimOne(s: Sched)
    requires Consistent(s) && s.zombies != [] && s.current != Some(s.zombies[|s.zombies| - 1])
    ensures Consistent(BuryLast(s)) && Reclaim(s) == Reclaim(BuryLast(s))
  {
    BuryKeeps(s);
  }

  lemma BuriedView(s: Sched, t: Sched)
    requires s.zombies != []
    requires var n := |s.zombies| - 1; var z := s.zombies[n];
      && Occupied(s, z)
      && t == s.(zombies := s.zombies[..n], ready := SchedulerSpec.Without(s.ready, z), tasks := s.tasks[z := None],
            buddy := t.buddy)
      && B.Step(s.buddy, B.Dealloc(Stack(s.tasks[z].value)), t.buddy)
    ensures t == BuryLast(s)
  {
  }

  /** The last zombie's stack is as the allocator handed it out. */
  lemma ZombieStack(s: Sched)
    requires Consistent(s) && s.zombies != []
    ensures Occupied(s, s.zombies[|s.zombies| - 1])
    ensures var t := s.tasks[s.zombies[|s.zombies| - 1]].value;
      t.pages > 0 && Buddy.RunAt(t.stackPpn, B.PagesToOrder(t.pages)) == Some(Stack(t)) && Stack(t) in s.buddy.out
  {
    var z := s.zombies[|s.zombies| - 1];
    assert Has(s, z, Terminated);
    assert StackOk(s.tasks[z].value, s.buddy);
  }
}
