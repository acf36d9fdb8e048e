/**
 What each event of the machine does to the processes and semaphores, in terms of the
 event alone, and what follows for whole runs.
 */
module Effects {
  import opened SchedulerSpec
  import opened Kernel
  import Semaphores
  import SleepQueue

  /** The event makes p wait. */
  ghost predicate Blocks(m: Machine, e: Event, p: int) {
    match e
    case SemWait(id, _) => p == m.sched.current && 0 <= id < |m.waits.sems| && m.waits.sems[id].value == 0
    case Sleep(_, _) => p == m.sched.current
    case WaitChildren(_) => p == m.sched.current
    case BlockOther(pid) => p == pid
    case _ => false
  }

  /** The event ends the waiting of p: nothing does that for the first process. */
  ghost predicate Wakes(m: Machine, e: Event, p: int) {
    && p != 1
    && match e
       case Tick(_) => exists x :: x in m.waits.sleepers && x.pid == p && x.wake <= m.now + 1
       case SemPost(id) => 0 <= id < |m.waits.sems| && IsFirstLive(m.waits.sems[id].queue, Live(m.sched), p)
       case SemClose(id) => 0 <= id < |m.waits.sems| && InLivePosition(m.waits.sems[id].queue, Live(m.sched), p)
       case UnblockOther(pid) => p == pid
       case Kill(_, parent, _) => Reschedules(m, e) && p == parent
       case Exit(parent, _) => p == parent
       case _ => false
  }

  ghost predicate IsFirstLive(queue: seq<int>, live: set<int>, p: int) {
    exists i :: 0 <= i < |queue| && queue[i] == p && p in live && forall j | 0 <= j < i :: queue[j] !in live
  }

  ghost predicate InLivePosition(queue: seq<int>, live: set<int>, p: int) {
    exists i :: 0 <= i < |queue| && queue[i] == p && i in live
  }

  function Born(e: Event): set<int> {
    if e.CreateProcess? then {e.pid} else {}
  }

  /** kill spares the processes that the kernel starts itself; exit ends the running one. */
  function Ended(m: Machine, e: Event): set<int> {
    if e.Kill? && e.pid > 2 && e.pid in m.sched.procs then {e.pid} else if e.Exit? then {m.sched.current} else {}
  }

  /** Who lives and who is blocked after the event. */
  ghost predicate StatusesFollow(m: Machine, e: Event, u: Machine) {
    && Live(u.sched) == Live(m.sched) + Born(e) - Ended(m, e)
    && (forall p <- Born(e) :: p !in BlockedSet(u.sched))
    && forall p | p in Live(m.sched) && p in Live(u.sched) ::
         p in BlockedSet(u.sched) <==> Blocks(m, e, p) || (p in BlockedSet(m.sched) && !Wakes(m, e, p))
  }

  // ----- who is made ready and who blocks -----

  lemma TickStatuses(m: Machine, sp: int)
    requires MachineInv(m)
    ensures CurOk(m.sched) && StatusesFollow(m, Tick(sp), Step(m, Tick(sp)))
  {
    hide Inv, SpKept, Exclusive, Tidy, Accounted, Dispatch, BlockedSet, SameOwner, SleepQueue.Sweep;
    CurInRange(m.sched);
    var q, live, now := m.waits.sleepers, Live(m.sched), m.now + 1;
    var woken := SleepQueue.Sweep(q, live, now).1;
    SweepLeaves(live, BlockedSet(m.sched), m.waits, now);
    UnblockAllKeeps(m.sched, woken);
    DispatchSets(UnblockAll(m.sched, woken), sp);
    forall p | p in live ensures p in woken <==> exists x :: x in q && x.pid == p && x.wake <= now {
      WokenAreDue(q, live, now, p);
    }
  }

  lemma WokenAreDue(q: seq<SleepQueue.Entry>, live: set<int>, now: int, p: int)
    requires p in live
    ensures p in SleepQueue.Sweep(q, live, now).1 <==> exists x :: x in q && x.pid == p && x.wake <= now
  {
    if p in SleepQueue.Sweep(q, live, now).1 {
      var i := SleepQueue.SweepWoken(q, live, now, p);
      assert q[i] in q;
    }
    if x :| x in q && x.pid == p && x.wake <= now { SleepQueue.SweepMembers(q, live, now, x); }
  }

  lemma BlockCurrentStatuses(m: Machine, w: Waits, sp: int)
    requires Inv(m.sched, IDLE) && m.sched.current != IDLE
    ensures CurOk(m.sched) && Live(BlockCurrent(m, w, sp).sched) == Live(m.sched)
    ensures BlockedSet(BlockCurrent(m, w, sp).sched)
            == BlockedSet(m.sched) + if m.sched.current in Live(m.sched) then {m.sched.current} else {}
  {
    hide Inv, Dispatch, Block, BlockedSet;
    CurInRange(m.sched);
    BlockSets(m.sched, m.sched.current);
    BlockInv(m.sched, IDLE, m.sched.current);
    DispatchSets(Block(m.sched, m.sched.current).0, sp);
  }

  lemma WaitStatuses(m: Machine, id: int, sp: int)
    requires MachineInv(m) && Possible(m, SemWait(id, sp))
    ensures CurOk(m.sched) && StatusesFollow(m, SemWait(id, sp), Step(m, SemWait(id, sp)))
  {
    hide Inv, Settled, SpKept, Exclusive, Tidy, Accounted, BlockedSet, BlockCurrent;
    CurrentUnblocked(m);
    if 0 <= id < |m.waits.sems| {
      WaitNeverRefused(m, id);
      BlockCurrentStatuses(m, SetSem(m.waits, id, Semaphores.Wait(m.waits.sems[id], m.sched.current).0), sp);
    }
  }

  lemma PostStatuses(m: Machine, id: int)
    requires MachineInv(m)
    ensures CurOk(m.sched) && StatusesFollow(m, SemPost(id), Step(m, SemPost(id)))
  {
    hide Inv, Settled, SpKept, Exclusive, Accounted, BlockedSet, Unblock, Semaphores.Post;
    CurrentUnblocked(m);
    if 0 <= id < |m.waits.sems| {
      var s, live := m.waits.sems[id], Live(m.sched);
      var r := Semaphores.Post(s, live).1;
      ClosedIsEmpty(m, id);
      PostReaches(s, live);
      if r.Handed? { UnblockSets(m.sched, r.pid); }
    }
  }

  lemma ClosedIsEmpty(m: Machine, id: int)
    requires MachineInv(m) && 0 <= id < |m.waits.sems|
    ensures Semaphores.SemInv(m.waits.sems[id])
  {
  }

  lemma PostReaches(s: Semaphores.Sem, live: set<int>)
    requires Semaphores.SemInv(s)
    ensures var r := Semaphores.Post(s, live).1; forall p :: IsFirstLive(s.queue, live, p) <==> r == Semaphores.Handed(p)
  {
    if s.value != Semaphores.CLOSED {
      Semaphores.PostServesFirstLive(s, live);
      var r := Semaphores.Post(s, live).1;
      forall p ensures IsFirstLive(s.queue, live, p) <==> r == Semaphores.Handed(p) {
        if r.Handed? {
          var i :| 0 <= i < |s.queue| && s.queue[i] == r.pid && r.pid in live && forall j | 0 <= j < i :: s.queue[j] !in live;
          if IsFirstLive(s.queue, live, p) {
            var k :| 0 <= k < |s.queue| && s.queue[k] == p && p in live && forall j | 0 <= j < k :: s.queue[j] !in live;
            assert k == i;
          }
        }
      }
    }
  }

  lemma CloseStatuses(m: Machine, id: int)
    requires MachineInv(m)
    ensures CurOk(m.sched) && StatusesFollow(m, SemClose(id), Step(m, SemClose(id)))
  {
    hide Inv, Settled, SpKept, Tidy, Accounted, BlockedSet, Unblock, SameOwner;
    CurrentUnblocked(m);
    if 0 <= id < |m.waits.sems| {
      var s, live := m.waits.sems[id], Live(m.sched);
      var woken := Semaphores.Close(s, live).1;
      CloseLeaves(live, BlockedSet(m.sched), m.waits, id);
      UnblockAllKeeps(m.sched, woken);
      ClosedIsEmpty(m, id);
      CloseReaches(s, live);
    }
  }

  lemma CloseReaches(s: Semaphores.Sem, live: set<int>)
    requires Circle.Distinct(s.queue) && Semaphores.SemInv(s)
    ensures var woken := Semaphores.Close(s, live).1; forall p :: p in woken <==> InLivePosition(s.queue, live, p)
  {
    if s.value != Semaphores.CLOSED {
      Semaphores.CloseWakes(s.queue, live);
      forall p | p in Semaphores.Close(s, live).1 ensures InLivePosition(s.queue, live, p) {
        var i :| 0 <= i < |s.queue| && s.queue[i] == p;
      }
    }
  }

  lemma KillStatuses(m: Machine, pid: int, parent: int, sp: int)
    requires MachineInv(m)
    ensures CurOk(m.sched) && StatusesFollow(m, Kill(pid, parent, sp), Step(m, Kill(pid, parent, sp)))
  {
    hide Inv, SpKept, Exclusive, Tidy, Accounted, BlockedSet, Terminate, Unblock, SpReady, Dispatch;
    CurrentUnblocked(m);
    if Reschedules(m, Kill(pid, parent, sp)) {
      TerminateSets(m.sched, pid);
      TerminateInv(m.sched, IDLE, pid);
      UnblockSets(Terminate(m.sched, pid), parent);
      UnblockInv(Terminate(m.sched, pid), IDLE, parent);
      DispatchSets(Unblock(Terminate(m.sched, pid), parent).0, sp);
    }
  }

  lemma ExitStatuses(m: Machine, parent: int, sp: int)
    requires MachineInv(m) && m.sched.current != IDLE
    ensures CurOk(m.sched) && StatusesFollow(m, Exit(parent, sp), Step(m, Exit(parent, sp)))
  {
    hide Inv, SpKept, Exclusive, Tidy, Accounted, BlockedSet, Terminate, Unblock, SpReady, Dispatch;
    CurrentUnblocked(m);
    var s := Unblock(m.sched, parent).0;
    UnblockSets(m.sched, parent);
    UnblockInv(m.sched, IDLE, parent);
    CurInRange(s);
    TerminateSets(s, m.sched.current);
    TerminateInv(s, IDLE, m.sched.current);
    DispatchSets(Terminate(s, m.sched.current), sp);
  }

  lemma TableStatuses(m: Machine, e: Event)
    requires MachineInv(m) && Possible(m, e)
    requires e.BlockOther? || e.UnblockOther? || e.CreateProcess? || e.ModifyPriority? || e.SemOpen?
    ensures CurOk(m.sched) && StatusesFollow(m, e, Step(m, e))
  {
    hide Inv, Settled, SpKept, Exclusive, Tidy, Accounted, BlockedSet, Block, Unblock, Create, SetPriority;
    CurrentUnblocked(m);
    BlockedAreLive(m.sched);
    match e
    case BlockOther(pid) => BlockSets(m.sched, pid);
    case UnblockOther(pid) => UnblockSets(m.sched, pid);
    case CreateProcess(pid, priority, sp) => CreateSets(m.sched, pid, priority, sp);
    case ModifyPriority(pid, priority) => SetPrioritySets(m.sched, pid, priority);
    case _ =>
  }

  lemma BlockedAreLive(s: Sched)
    ensures BlockedSet(s) <= Live(s)
  {
  }

  /**
   What every event does to every process: it lives on unless it is killed or exits, it
   is blocked if the event makes it wait, or if it was blocked and is not woken.
   */
  lemma StepStatuses(m: Machine, e: Event)
    requires MachineInv(m) && Possible(m, e)
    ensures CurOk(m.sched) && StatusesFollow(m, e, Step(m, e))
  {
    hide MachineInv, StatusesFollow;
    match e
    case Tick(sp) => TickStatuses(m, sp);
    case SemClose(id) => CloseStatuses(m, id);
    case SemWait(id, sp) => WaitStatuses(m, id, sp);
    case SemPost(id) => PostStatuses(m, id);
    case Sleep(_, _) => CallStatuses(m, e);
    case WaitChildren(_) => CallStatuses(m, e);
    case Kill(pid, parent, sp) => KillStatuses(m, pid, parent, sp);
    case Exit(parent, sp) => ExitStatuses(m, parent, sp);
    case _ => TableStatuses(m, e);
  }

  lemma CallStatuses(m: Machine, e: Event)
    requires MachineInv(m) && Possible(m, e) && (e.Sleep? || e.WaitChildren?)
    ensures CurOk(m.sched) && StatusesFollow(m, e, Step(m, e))
  {
    hide Inv, Settled, SpKept, Exclusive, Tidy, Accounted, BlockedSet, BlockCurrent;
    CurrentUnblocked(m);
    match e
    case Sleep(delay, sp) =>
      var x := SleepQueue.Entry(m.sched.current, m.now + delay);
      BlockCurrentStatuses(m, m.waits.(sleepers := SleepQueue.Add(m.waits.sleepers, x)), sp);
    case WaitChildren(sp) => BlockCurrentStatuses(m, m.waits.(parked := m.waits.parked + {m.sched.current}), sp);
  }

  // ----- priorities -----

  /** Only its creation and modify_priority store a priority for a process. */
  ghost predicate PrioritiesFollow(m: Machine, e: Event, u: Machine) {
    forall p <- u.sched.procs.Keys ::
      if e.CreateProcess? && e.pid == p then u.sched.procs[p].priority == e.priority
      else p in m.sched.procs
           && u.sched.procs[p].priority == if e.ModifyPriority? && e.pid == p then e.priority else m.sched.procs[p].priority
  }

  /** The processes of t are processes of s, with the same priorities. */
  ghost predicate SamePriorities(s: Sched, t: Sched) {
    forall p <- t.procs.Keys :: p in s.procs && t.procs[p].priority == s.procs[p].priority
  }

  lemma BlockPriorities(s: Sched, pid: int)
    requires Inv(s, IDLE)
    ensures CurOk(s) && SamePriorities(s, Block(s, pid).0)
  {
    BlockChanges(s, IDLE, pid);
  }

  lemma UnblockPriorities(s: Sched, pid: int)
    requires Inv(s, IDLE)
    ensures SamePriorities(s, Unblock(s, pid).0)
  {
    UnblockChanges(s, IDLE, pid);
  }

  lemma TerminatePriorities(s: Sched, pid: int)
    requires Inv(s, IDLE)
    ensures CurOk(s) && SamePriorities(s, Terminate(s, pid))
  {
    TerminateChanges(s, IDLE, pid);
  }

  lemma DispatchPriorities(s: Sched, sp: int)
    requires Inv(s, IDLE)
    ensures CurOk(s) && SamePriorities(s, Dispatch(s, sp).0)
  {
    hide Dispatch, Inv;
    CurInRange(s);
    DispatchMoves(s, IDLE, sp);
  }

  lemma {:induction false} UnblockAllPriorities(s: Sched, pids: seq<int>)
    requires Inv(s, IDLE)
    ensures Inv(UnblockAll(s, pids), IDLE) && SamePriorities(s, UnblockAll(s, pids))
  {
    hide Inv, Unblock;
    if pids != [] {
      var n := |pids| - 1;
      UnblockAllPriorities(s, pids[..n]);
      UnblockPriorities(UnblockAll(s, pids[..n]), pids[n]);
      UnblockInv(UnblockAll(s, pids[..n]), IDLE, pids[n]);
    }
  }

  lemma KillPriorities(m: Machine, pid: int, parent: int, sp: int)
    requires Inv(m.sched, IDLE) && pid != IDLE
    ensures CurOk(m.sched) && SamePriorities(m.sched, KillProcess(m, pid, parent, sp).sched)
  {
    hide Inv, Terminate, Unblock, Dispatch;
    TerminatePriorities(m.sched, pid);
    TerminateInv(m.sched, IDLE, pid);
    UnblockPriorities(Terminate(m.sched, pid), parent);
    UnblockInv(Terminate(m.sched, pid), IDLE, parent);
    DispatchPriorities(Unblock(Terminate(m.sched, pid), parent).0, sp);
  }

  lemma ExitPriorities(m: Machine, parent: int, sp: int)
    requires Inv(m.sched, IDLE) && m.sched.current != IDLE
    ensures CurOk(m.sched) && SamePriorities(m.sched, ExitProcess(m, parent, sp).sched)
  {
    hide Inv, Terminate, Unblock, Dispatch;
    CurInRange(m.sched);
    var s := Unblock(m.sched, parent).0;
    UnblockPriorities(m.sched, parent);
    UnblockInv(m.sched, IDLE, parent);
    TerminatePriorities(s, m.sched.current);
    TerminateInv(s, IDLE, m.sched.current);
    DispatchPriorities(Terminate(s, m.sched.current), sp);
  }

  lemma BlockCurrentPriorities(m: Machine, w: Waits, sp: int)
    requires Inv(m.sched, IDLE) && m.sched.current != IDLE
    ensures CurOk(m.sched) && SamePriorities(m.sched, BlockCurrent(m, w, sp).sched)
  {
    hide Inv, Block, Dispatch;
    BlockPriorities(m.sched, m.sched.current);
    BlockInv(m.sched, IDLE, m.sched.current);
    DispatchPriorities(Block(m.sched, m.sched.current).0, sp);
  }

  /** An event that stores no priority leaves all of them alone. */
  lemma QuietPriorities(m: Machine, e: Event)
    requires MachineInv(m) && Possible(m, e) && !e.CreateProcess? && !e.ModifyPriority?
    ensures CurOk(m.sched) && SamePriorities(m.sched, Step(m, e).sched)
  {
    hide Inv, Settled, KillProcess, ExitProcess, BlockCurrent, Dispatch, Block, Unblock, Exclusive, Tidy, Accounted;
    CurInRange(m.sched);
    var s, w := m.sched, m.waits;
    match e
    case Tick(sp) =>
      var woken := SleepQueue.Sweep(w.sleepers, Live(s), m.now + 1).1;
      UnblockAllPriorities(s, woken);
      DispatchPriorities(UnblockAll(s, woken), sp);
    case SemClose(id) =>
      if 0 <= id < |w.sems| { UnblockAllPriorities(s, Semaphores.Close(w.sems[id], Live(s)).1); }
    case SemWait(id, sp) =>
      if 0 <= id < |w.sems| { BlockCurrentPriorities(m, SetSem(w, id, Semaphores.Wait(w.sems[id], s.current).0), sp); }
    case SemPost(id) =>
      if 0 <= id < |w.sems| && Semaphores.Post(w.sems[id], Live(s)).1.Handed? {
        UnblockPriorities(s, Semaphores.Post(w.sems[id], Live(s)).1.pid);
      }
    case Sleep(delay, sp) =>
      var x := SleepQueue.Entry(s.current, m.now + delay);
      BlockCurrentPriorities(m, w.(sleepers := SleepQueue.Add(w.sleepers, x)), sp);
    case WaitChildren(sp) => BlockCurrentPriorities(m, w.(parked := w.parked + {s.current}), sp);
    case BlockOther(pid) => BlockPriorities(s, pid);
    case UnblockOther(pid) => UnblockPriorities(s, pid);
    case Kill(pid, parent, sp) => if pid >= 3 { KillPriorities(m, pid, parent, sp); }
    case Exit(parent, sp) => ExitPriorities(m, parent, sp);
    case _ =>
  }

  lemma StepPriorities(m: Machine, e: Event)
    requires MachineInv(m) && Possible(m, e)
    ensures CurOk(m.sched) && PrioritiesFollow(m, e, Step(m, e))
  {
    hide Inv, Settled, SpKept, Exclusive, Tidy, Accounted, Step;
    StepStored(m, e);
    if !e.CreateProcess? && !e.ModifyPriority? { QuietPriorities(m, e); }
  }

  lemma StepStored(m: Machine, e: Event)
    requires MachineInv(m) && Possible(m, e)
    ensures CurOk(m.sched) && (e.CreateProcess? || e.ModifyPriority? ==> PrioritiesFollow(m, e, Step(m, e)))
  {
    hide Settled, SpKept, Exclusive, Tidy, Accounted, Create, SetPriority;
    CurInRange(m.sched);
    if e.CreateProcess? { CreateChanges(m.sched, IDLE, e.pid, e.priority, e.sp); }
    if e.ModifyPriority? { SetPriorityTakesEffect(m.sched, IDLE, e.pid, e.priority); }
  }

  /** The last priority that the events store for p, by its creation or a change; the kernel's own processes start with 1. */
  function LastStored(es: seq<Event>, p: int): int {
    if es == [] then 1
    else
      match es[|es| - 1]
      case CreateProcess(pid, priority, _) => if pid == p then priority else LastStored(es[..|es| - 1], p)
      case ModifyPriority(pid, priority) => if pid == p then priority else LastStored(es[..|es| - 1], p)
      case _ => LastStored(es[..|es| - 1], p)
  }

  /** Every process has the priority that was last stored for it. */
  ghost predicate Stored(es: seq<Event>, m: Machine) {
    forall p <- m.sched.procs.Keys :: m.sched.procs[p].priority == LastStored(es, p)
  }

  lemma StoredNext(es: seq<Event>, m: Machine, e: Event, u: Machine)
    requires Stored(es, m) && PrioritiesFollow(m, e, u)
    ensures Stored(es + [e], u)
  {
    assert (es + [e])[..|es|] == es;
  }

  lemma {:induction false} RunStored(es: seq<Event>, m: Machine, fs: seq<Event>, t: Machine)
    requires MachineInv(m) && Stored(es, m) && Reaches(m, fs, t)
    ensures Stored(es + fs, t)
    decreases |fs|
  {
    hide MachineInv, Step, Stored, PrioritiesFollow, Possible, Harmless;
    if fs == [] {
      assert es + fs == es;
    } else {
      StepKeeps(m, fs[0]);
      StepPriorities(m, fs[0]);
      StoredNext(es, m, fs[0], Step(m, fs[0]));
      assert es + fs == (es + [fs[0]]) + fs[1..];
      RunStored(es + [fs[0]], Step(m, fs[0]), fs[1..], t);
    }
  }

  /** Over every run from boot a live process has the priority last stored for it, whatever it waits for in between. */
  lemma PriorityIsLastStored(sp: int, idleSp: int, es: seq<Event>, t: Machine, p: int)
    requires Reaches(Boot(sp, idleSp), es, t) && p in t.sched.procs
    ensures t.sched.procs[p].priority == LastStored(es, p)
  {
    hide Reaches, MachineInv;
    BootKeeps(sp, idleSp);
    assert Stored([], Boot(sp, idleSp));
    RunStored([], Boot(sp, idleSp), es, t);
    assert [] + es == es;
  }

  // ----- stack pointers, the clock and the semaphores -----

  function SpOf(e: Event): int {
    match e
    case Tick(sp) => sp
    case SemWait(_, sp) => sp
    case Sleep(_, sp) => sp
    case WaitChildren(sp) => sp
    case CreateProcess(_, _, sp) => sp
    case Kill(_, _, sp) => sp
    case Exit(_, sp) => sp
    case _ => 0
  }

  /** The stack pointer to resume a process with is the one it came into its last reschedule with, or was created with. */
  lemma StepBooks(m: Machine, e: Event)
    requires MachineInv(m) && Possible(m, e)
    ensures CurOk(m.sched) && Step(m, e).now == m.now + if e.Tick? then 1 else 0
    ensures Step(m, e).last == if Reschedules(m, e) then m.last[m.sched.current := SpOf(e)]
                               else if e.CreateProcess? then m.last[e.pid := SpOf(e)] else m.last
    ensures !Reschedules(m, e) ==> Step(m, e).resumed == m.resumed
  {
    hide Inv, Settled, SpKept, Exclusive, Tidy, Accounted, Dispatch, Block, Unblock, Terminate, Create, SetPriority;
    CurInRange(m.sched);
    match e
    case Tick(sp) => UnblockAllOwner(m.sched, SleepQueue.Sweep(m.waits.sleepers, Live(m.sched), m.now + 1).1);
    case Kill(pid, parent, sp) => if pid >= 3 { KeepsCurrent(m.sched, pid, parent); }
    case Exit(parent, sp) => KeepsCurrent(m.sched, m.sched.current, parent);
    case SemWait(_, sp) => BlockKeepsCurrent(m.sched);
    case Sleep(_, sp) => BlockKeepsCurrent(m.sched);
    case WaitChildren(sp) => BlockKeepsCurrent(m.sched);
    case _ =>
  }

  lemma {:induction false} UnblockAllOwner(s: Sched, pids: seq<int>)
    ensures UnblockAll(s, pids).current == s.current
  {
    hide Unblock;
    if pids != [] {
      UnblockAllOwner(s, pids[..|pids| - 1]);
      UnblockOwner(UnblockAll(s, pids[..|pids| - 1]), pids[|pids| - 1]);
    }
  }

  lemma BlockKeepsCurrent(s: Sched)
    requires Inv(s, IDLE)
    ensures CurOk(s) && Block(s, s.current).0.current == s.current
  {
    BlockChanges(s, IDLE, s.current);
  }

  lemma KeepsCurrent(s: Sched, pid: int, parent: int)
    requires CurOk(s)
    ensures Unblock(Terminate(s, pid), parent).0.current == s.current
    ensures CurOk(Unblock(s, parent).0) && Unblock(s, parent).0.current == s.current
    ensures Terminate(Unblock(s, parent).0, pid).current == s.current
  {
  }

  /** What an event does to semaphore k. */
  ghost predicate SemFollows(s: Semaphores.Sem, u: Semaphores.Sem, e: Event, k: int, current: int, live: set<int>) {
    match e
    case SemOpen(id, initial) => u == if id == k && s.value == -1 then Semaphores.Sem(initial, []) else s
    case SemClose(id) => u == if id == k then Semaphores.Sem(-1, []) else s
    case SemWait(id, _) =>
      u == if id != k || s.value == -1 then s
           else if s.value == 0 then Semaphores.Sem(0, s.queue + [current]) else Semaphores.Sem(s.value - 1, s.queue)
    case SemPost(id) =>
      if id != k || s.value == -1 then u == s else Served(s, u, live)
    case _ => u == s
  }

  /** The first live waiter and those in front of it have left the queue, or there was none and the value has grown. */
  ghost predicate Served(s: Semaphores.Sem, u: Semaphores.Sem, live: set<int>) {
    if exists p :: IsFirstLive(s.queue, live, p)
    then u.value == s.value
         && exists i :: 0 <= i < |s.queue| && IsFirstLive(s.queue, live, s.queue[i]) && u.queue == s.queue[i + 1..]
    else u == Semaphores.Sem(s.value + 1, [])
  }

  lemma PostFollows(s: Semaphores.Sem, live: set<int>)
    requires Semaphores.SemInv(s) && s.value >= 0
    ensures Served(s, Semaphores.Post(s, live).0, live)
  {
    hide Semaphores.Post;
    PostReaches(s, live);
    Semaphores.PostServesFirstLive(s, live);
    var (u, r) := Semaphores.Post(s, live);
    if r.Handed? {
      var i :| 0 <= i < |s.queue| && s.queue[i] == r.pid && r.pid in live && u.queue == s.queue[i + 1..]
               && forall j | 0 <= j < i :: s.queue[j] !in live;
      assert IsFirstLive(s.queue, live, s.queue[i]);
    }
  }

  /** Every event changes at most the semaphore it names, and so. */
  lemma StepSems(m: Machine, e: Event, k: int)
    requires MachineInv(m) && Possible(m, e) && 0 <= k < |m.waits.sems|
    ensures CurOk(m.sched) && |Step(m, e).waits.sems| == 127
    ensures SemFollows(m.waits.sems[k], Step(m, e).waits.sems[k], e, k, m.sched.current, Live(m.sched))
  {
    hide Inv, Settled, SpKept, Exclusive, Accounted, Dispatch, Block, Unblock, Terminate, Create, SetPriority,
         Semaphores.Post, IsFirstLive;
    CurInRange(m.sched);
    ClosedIsEmpty(m, k);
    if e.SemWait? && e.id == k { WaitNeverRefused(m, k); }
    if e.SemPost? && e.id == k && m.waits.sems[k].value >= 0 { PostFollows(m.waits.sems[k], Live(m.sched)); }
    if e.SemPost? && e.id == k && m.waits.sems[k].value == -1 { PostClosed(m.waits.sems[k], Live(m.sched)); }
  }

  lemma PostClosed(s: Semaphores.Sem, live: set<int>)
    requires s.value == -1
    ensures Semaphores.Post(s, live).0 == s
  {
  }

  // ----- in which order sleepers come back -----

  lemma {:induction false} WokenDistinct(q: seq<SleepQueue.Entry>, live: set<int>, now: int)
    requires DistinctSleepers(q)
    ensures Circle.Distinct(SleepQueue.Sweep(q, live, now).1)
  {
    if q != [] {
      var n := |q| - 1;
      WokenDistinct(q[..n], live, now);
      var woken := SleepQueue.Sweep(q[..n], live, now).1;
      forall i | 0 <= i < |woken| ensures woken[i] != q[n].pid {
        var k := SleepQueue.SweepWoken(q[..n], live, now, woken[i]);
        assert q[..n][k] == q[k];
      }
    }
  }

  /** The ring with a full node for each of these processes behind the last one. */
  ghost predicate AllJoined(s: Sched, t: Sched, pids: seq<int>) {
    && |t.ring| == |s.ring| + |pids| && t.cur == s.cur && t.procs.Keys == s.procs.Keys && t.current == s.current
    && (forall i | 0 <= i < |s.ring| :: t.ring[i] == s.ring[i])
    && (forall i | 0 <= i < |pids| && pids[i] in s.procs :: t.ring[|s.ring| + i] == Node(pids[i], s.procs[pids[i]].priority))
    && forall p <- s.procs.Keys :: p !in pids ==> t.procs[p] == s.procs[p]
  }

  lemma {:induction false} UnblockAllJoins(s: Sched, pids: seq<int>)
    requires Inv(s, IDLE) && Circle.Distinct(pids)
    requires forall i | 0 <= i < |pids| :: pids[i] in BlockedSet(s) && pids[i] != 1
    ensures Inv(UnblockAll(s, pids), IDLE) && AllJoined(s, UnblockAll(s, pids), pids)
  {
    hide Inv, Unblock, AllJoined, OnlyStatus, NodeJoined;
    if pids == [] {
      NoneJoined(s);
    } else {
      var n := |pids| - 1;
      var p, t := pids[n], UnblockAll(s, pids[..n]);
      UnblockAllJoins(s, pids[..n]);
      assert p !in pids[..n];
      StillBlocked(s, t, pids[..n], p);
      UnblockChanges(t, IDLE, p);
      UnblockInv(t, IDLE, p);
      OneMoreJoined(s, t, Unblock(t, p).0, pids[..n], p);
      assert pids == pids[..n] + [p];
    }
  }

  lemma NoneJoined(s: Sched)
    ensures AllJoined(s, s, [])
  {
  }

  lemma StillBlocked(s: Sched, t: Sched, pids: seq<int>, p: int)
    requires AllJoined(s, t, pids) && p in BlockedSet(s) && p !in pids
    ensures p in s.procs && p in t.procs && t.procs[p] == s.procs[p] && s.procs[p].status == Blocked
  {
  }

  lemma OneMoreJoined(s: Sched, t: Sched, u: Sched, pids: seq<int>, p: int)
    requires AllJoined(s, t, pids) && p !in pids && p in s.procs && p in t.procs && t.procs[p] == s.procs[p]
    requires OnlyStatus(t.procs, u.procs, p, Ready) && NodeJoined(t, u, p, t.procs[p].priority) && u.current == t.current
    ensures AllJoined(s, u, pids + [p])
  {
  }

  /** A tick puts those it wakes behind everybody on the ready list, in the order in which they stood in the sleep list. */
  lemma WokenJoinInOrder(m: Machine, sp: int)
    requires MachineInv(m)
    ensures CurOk(m.sched)
    ensures var (r, t) := (m.sched.ring, Step(m, Tick(sp)).sched.ring);
            var woken := SleepQueue.Sweep(m.waits.sleepers, Live(m.sched), m.now + 1).1;
            |t| == |r| + |woken| && forall i | 0 <= i < |t| :: t[i].pid == if i < |r| then r[i].pid else woken[i - |r|]
  {
    hide Inv, SpKept, Tidy, Accounted, Dispatch, BlockedSet, SameOwner, SleepQueue.Sweep, UnblockAll;
    CurInRange(m.sched);
    var q, live := m.waits.sleepers, Live(m.sched);
    var woken := SleepQueue.Sweep(q, live, m.now + 1).1;
    WokenDistinct(q, live, m.now + 1);
    forall i | 0 <= i < |woken| ensures woken[i] in BlockedSet(m.sched) && woken[i] != 1 { SleeperIsBlocked(m, woken[i]); }
    UnblockAllJoins(m.sched, woken);
    forall i | 0 <= i < |woken| ensures woken[i] in m.sched.procs { BlockedHere(m.sched, woken[i]); }
    DispatchMoves(UnblockAll(m.sched, woken), IDLE, sp);
  }

  lemma BlockedHere(s: Sched, p: int)
    requires p in BlockedSet(s)
    ensures p in s.procs
  {
  }

  lemma SleeperIsBlocked(m: Machine, p: int)
    requires MachineInv(m) && p in SleepQueue.Sweep(m.waits.sleepers, Live(m.sched), m.now + 1).1
    ensures p in BlockedSet(m.sched) && p != 1
  {
    hide Inv, SpKept, SleepQueue.Sweep;
    var i := SleepQueue.SweepWoken(m.waits.sleepers, Live(m.sched), m.now + 1, p);
    assert At(m.waits, p, Sleeping);
  }
}
