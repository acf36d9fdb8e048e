/**
 The scheduler, the semaphores and the sleep queue as one machine.  Each event is one
 entry into the kernel, which is not interrupted before it reschedules or returns.
 */
module Kernel {
  import opened Circle
  import opened SchedulerSpec
  import Semaphores
  import SleepQueue

  /** Everything a blocked process can be waiting in. */
  datatype Waits = Waits(sems: seq<Semaphores.Sem>, sleepers: seq<SleepQueue.Entry>, parked: set<int>)

  /** Parked processes wait for a child to end or for an explicit unblock. */
  datatype Place = OnSem(id: int) | Sleeping | Parked

  /**
   The machine.  resumed is the stack pointer that the last reschedule returned, and
   last tells for every process the one it came into its last reschedule with.
   */
  datatype Machine = Machine(sched: Sched, waits: Waits, now: int, last: map<int, int>, resumed: int)

  const IDLE := 2

  predicate At(w: Waits, p: int, l: Place) {
    match l
    case OnSem(id) => 0 <= id < |w.sems| && p in w.sems[id].queue
    case Sleeping => exists i :: 0 <= i < |w.sleepers| && w.sleepers[i].pid == p
    case Parked => p in w.parked
  }

  ghost predicate Waiting(w: Waits, p: int) {
    exists l :: At(w, p, l)
  }

  // ----- events -----

  datatype Event =
    | Tick(sp: int)
    | SemOpen(id: int, initial: nat)
    | SemClose(id: int)
    | SemWait(id: int, sp: int)
    | SemPost(id: int)
    | Sleep(delay: nat, sp: int)
    | WaitChildren(sp: int)
    | BlockOther(pid: int)
    | UnblockOther(pid: int)
    | CreateProcess(pid: int, priority: int, sp: int)
    | ModifyPriority(pid: int, priority: int)
    | Kill(pid: int, parent: int, sp: int)
    | Exit(parent: int, sp: int)

  function Live(s: Sched): set<int> { s.procs.Keys }

  function BlockedSet(s: Sched): set<int> {
    set p <- s.procs | s.procs[p].status == Blocked
  }

  /** callScheduler, and the end of the timer interrupt */
  function Reschedule(m: Machine, sp: int): Machine
    requires CurOk(m.sched)
  {
    var (s, r) := Dispatch(m.sched, sp);
    m.(sched := s, last := m.last[m.sched.current := sp], resumed := r)
  }

  /** The current process blocks and waits somewhere. */
  function BlockCurrent(m: Machine, w: Waits, sp: int): Machine
    requires CurOk(m.sched)
  {
    var t := m.(sched := Block(m.sched, m.sched.current).0, waits := w);
    Reschedule(t, sp)
  }

  function UnblockAll(s: Sched, pids: seq<int>): (t: Sched)
    ensures CurOk(s) ==> CurOk(t)
  {
    if pids == [] then s else Unblock(UnblockAll(s, pids[..|pids| - 1]), pids[|pids| - 1]).0
  }

  /** An unblock that does not come from a semaphore or the sleep queue. */
  function WakeParked(m: Machine, pid: int): (t: Machine)
    ensures CurOk(m.sched) ==> CurOk(t.sched)
  {
    var (s, ok) := Unblock(m.sched, pid);
    m.(sched := s, waits := m.waits.(parked := if ok then m.waits.parked - {pid} else m.waits.parked))
  }

  function SetSem(w: Waits, id: int, s: Semaphores.Sem): Waits
    requires 0 <= id < |w.sems|
  {
    w.(sems := w.sems[id := s])
  }

  /** A process is gone from the table, the ready list and the parked processes; stale queue entries stay. */
  function Reap(m: Machine, pid: int): (t: Machine)
    requires CurOk(m.sched)
    ensures CurOk(t.sched)
  {
    m.(sched := Terminate(m.sched, pid), waits := m.waits.(parked := m.waits.parked - {pid}))
  }

  /** kill_process takes its victim off the ready list before the parent is woken. */
  function KillProcess(m: Machine, pid: int, parent: int, sp: int): Machine
    requires CurOk(m.sched)
  {
    Reschedule(WakeParked(Reap(m, pid), parent), sp)
  }

  /** exit_process wakes the parent first. */
  function ExitProcess(m: Machine, parent: int, sp: int): Machine
    requires CurOk(m.sched)
  {
    Reschedule(Reap(WakeParked(m, parent), m.sched.current), sp)
  }

  function Step(m: Machine, e: Event): Machine
    requires CurOk(m.sched)
  {
    var s, w := m.sched, m.waits;
    match e
    case Tick(sp) =>
      var (rest, woken) := SleepQueue.Sweep(w.sleepers, Live(s), m.now + 1);
      Reschedule(m.(now := m.now + 1, waits := w.(sleepers := rest), sched := UnblockAll(s, woken)), sp)
    case SemOpen(id, initial) =>
      if 0 <= id < |w.sems| then m.(waits := SetSem(w, id, Semaphores.Open(w.sems[id], initial))) else m
    case SemClose(id) =>
      if !(0 <= id < |w.sems|) then m
      else
        var (sem, woken) := Semaphores.Close(w.sems[id], Live(s));
        m.(waits := SetSem(w, id, sem), sched := UnblockAll(s, woken))
    case SemWait(id, sp) =>
      if !(0 <= id < |w.sems|) then m
      else
        var (sem, r) := Semaphores.Wait(w.sems[id], s.current);
        if r == Semaphores.Enqueued then BlockCurrent(m, SetSem(w, id, sem), sp) else m.(waits := SetSem(w, id, sem))
    case SemPost(id) =>
      if !(0 <= id < |w.sems|) then m
      else
        var (sem, r) := Semaphores.Post(w.sems[id], Live(s));
        m.(waits := SetSem(w, id, sem), sched := if r.Handed? then Unblock(s, r.pid).0 else s)
    case Sleep(delay, sp) =>
      BlockCurrent(m, w.(sleepers := SleepQueue.Add(w.sleepers, SleepQueue.Entry(s.current, m.now + delay))), sp)
    case WaitChildren(sp) => BlockCurrent(m, w.(parked := w.parked + {s.current}), sp)
    case BlockOther(pid) =>
      var (t, ok) := Block(s, pid);
      m.(sched := t, waits := w.(parked := if ok then w.parked + {pid} else w.parked))
    case UnblockOther(pid) => WakeParked(m, pid)
    case CreateProcess(pid, priority, sp) =>
      m.(sched := Create(s, pid, priority, sp), last := m.last[pid := sp])
    case ModifyPriority(pid, priority) => m.(sched := SetPriority(s, pid, priority).0)
    case Kill(pid, parent, sp) => if pid < 3 || pid !in s.procs then m else KillProcess(m, pid, parent, sp)
    case Exit(parent, sp) => ExitProcess(m, parent, sp)
  }

  /** What can happen: the idle process only runs its loop, and a new process gets a pid from 1 to 20 that is not live. */
  predicate Possible(m: Machine, e: Event) {
    && (e.Tick? || m.sched.current != IDLE)
    && (e.CreateProcess? ==> e.pid !in m.sched.procs && 1 <= e.pid <= Semaphores.MAX_PROCESSES)
  }

  /**
   The first process waits for nothing but its children, nobody blocks the idle process
   or the one that runs, an unblock from outside and the end of a child meet no process
   that is waiting for a semaphore or a tick, a semaphore with waiters is closed only
   when their positions are live pids, and no queue still holds the pid of a new process.
   */
  ghost predicate Harmless(m: Machine, e: Event) {
    var s, w := m.sched, m.waits;
    match e
    case SemClose(id) => 0 <= id < |w.sems| ==> PositionsLive(w.sems[id].queue, Live(s))
    case SemWait(_, _) => s.current == INIT_PID ==> !Reschedules(m, e)
    case Sleep(_, _) => s.current != INIT_PID
    case BlockOther(pid) => pid != s.current && pid != IDLE
    case UnblockOther(pid) => OnlyParked(m, pid)
    case Kill(pid, parent, _) => Reschedules(m, e) && parent != pid ==> OnlyParked(m, parent)
    case Exit(parent, _) => OnlyParked(m, parent)
    case CreateProcess(pid, _, _) => !Waiting(w, pid)
    case _ => true
  }

  ghost predicate Enabled(m: Machine, e: Event) {
    Possible(m, e) && Harmless(m, e)
  }

  /** Every live waiter stands in a position that is the pid of a live process. */
  predicate PositionsLive(queue: seq<int>, live: set<int>) {
    forall i | 0 <= i < |queue| :: queue[i] in live ==> i in live
  }

  /** Whether an event ends in scheduler(). */
  predicate Reschedules(m: Machine, e: Event) {
    match e
    case SemWait(id, _) =>
      0 <= id < |m.waits.sems| && Semaphores.Wait(m.waits.sems[id], m.sched.current).1 == Semaphores.Enqueued
    case Kill(pid, _, _) => pid >= 3 && pid in m.sched.procs
    case _ => e.Tick? || e.Sleep? || e.WaitChildren? || e.Exit?
  }

  predicate OnlyParked(m: Machine, pid: int) {
    pid in m.sched.procs && m.sched.procs[pid].status == Blocked ==> pid in m.waits.parked
  }

  // ----- the invariant -----

  /** No process is waiting in two places, or twice in one. */
  ghost predicate Exclusive(w: Waits) {
    && (forall p, l, k :: At(w, p, l) && At(w, p, k) ==> l == k)
    && (forall id | 0 <= id < |w.sems| :: Distinct(w.sems[id].queue))
    && (forall i, j | 0 <= i < j < |w.sleepers| :: w.sleepers[i].pid != w.sleepers[j].pid)
  }

  ghost predicate Tidy(w: Waits) {
    && |w.sems| == Semaphores.SEM_MAX && SleepQueue.Sorted(w.sleepers)
    && (forall id | 0 <= id < |w.sems| :: Semaphores.SemInv(w.sems[id]))
    && (forall p, l :: At(w, p, l) ==> 1 <= p <= Semaphores.MAX_PROCESSES && p != IDLE && (p == INIT_PID ==> l == Parked))
  }

  /** A live process is blocked exactly when it is waiting somewhere. */
  ghost predicate Accounted(live: set<int>, blocked: set<int>, w: Waits) {
    && blocked <= live && w.parked <= live
    && forall p <- live :: p in blocked <==> Waiting(w, p)
  }

  ghost predicate MachineInv(m: Machine) {
    && Inv(m.sched, IDLE) && Settled(m.sched)
    && Exclusive(m.waits) && Tidy(m.waits) && Accounted(Live(m.sched), BlockedSet(m.sched), m.waits)
    && SpKept(m.sched, m.last)
    && forall p <- m.sched.procs :: 1 <= p <= Semaphores.MAX_PROCESSES
  }

  // ----- what the scheduler's operations do to the sets of live and blocked processes -----

  lemma BlockSets(s: Sched, pid: int)
    requires CurOk(s)
    ensures Live(Block(s, pid).0) == Live(s)
    ensures BlockedSet(Block(s, pid).0) == if Block(s, pid).1 then BlockedSet(s) + {pid} else BlockedSet(s)
    ensures Block(s, pid).1 <==> pid in Live(s) && pid !in BlockedSet(s)
  {
  }

  lemma UnblockSets(s: Sched, pid: int)
    ensures Live(Unblock(s, pid).0) == Live(s)
    ensures BlockedSet(Unblock(s, pid).0) == if Unblock(s, pid).1 then BlockedSet(s) - {pid} else BlockedSet(s)
    ensures Unblock(s, pid).1 <==> pid in BlockedSet(s) && pid != INIT_PID
  {
  }

  lemma TerminateSets(s: Sched, pid: int)
    requires CurOk(s)
    ensures Live(Terminate(s, pid)) == Live(s) - {pid} && BlockedSet(Terminate(s, pid)) == BlockedSet(s) - {pid}
  {
  }

  lemma CreateSets(s: Sched, pid: int, priority: int, sp: int)
    requires pid !in s.procs
    ensures Live(Create(s, pid, priority, sp)) == Live(s) + {pid} && BlockedSet(Create(s, pid, priority, sp)) == BlockedSet(s)
  {
  }

  lemma SetPrioritySets(s: Sched, pid: int, priority: int)
    ensures Live(SetPriority(s, pid, priority).0) == Live(s) && BlockedSet(SetPriority(s, pid, priority).0) == BlockedSet(s)
  {
  }

  lemma DispatchSets(s: Sched, sp: int)
    requires Inv(s, IDLE)
    ensures Live(Dispatch(s, sp).0) == Live(s) && BlockedSet(Dispatch(s, sp).0) == BlockedSet(s)
  {
    hide Dispatch, Search;
    DispatchForm(s, IDLE, sp);
  }

  // ----- what they keep -----

  lemma {:induction false} UnblockAllKeeps(s: Sched, pids: seq<int>)
    requires Inv(s, IDLE) && INIT_PID !in pids
    ensures Inv(UnblockAll(s, pids), IDLE)
    ensures Live(UnblockAll(s, pids)) == Live(s)
    ensures BlockedSet(UnblockAll(s, pids)) == BlockedSet(s) - set p <- pids
    ensures SameOwner(s, UnblockAll(s, pids))
  {
    if pids == [] {
      assert (set p <- pids) == {};
    } else {
      var n := |pids| - 1;
      UnblockAllKeeps(s, pids[..n]);
      var t := UnblockAll(s, pids[..n]);
      UnblockInv(t, IDLE, pids[n]);
      UnblockSets(t, pids[n]);
      UnblockOwner(t, pids[n]);
      assert pids == pids[..n] + [pids[n]];
      assert (set p <- pids) == (set p <- pids[..n]) + {pids[n]};
    }
  }

  /** The same process is current, and every process has the same stack pointer; the current one's status is the same. */
  ghost predicate SameOwner(s: Sched, t: Sched) {
    && t.current == s.current
    && (forall p <- t.procs :: p in s.procs && t.procs[p].sp == s.procs[p].sp)
    && (CurrentIs(s, Running) ==> CurrentIs(t, Running))
  }

  lemma UnblockOwner(s: Sched, pid: int)
    ensures SameOwner(s, Unblock(s, pid).0)
  {
  }

  /** Stack pointers as scheduler() needs them: only the current process's may be out of date. */
  ghost predicate SpReady(s: Sched, last: map<int, int>) {
    && (forall p <- s.procs :: p in last && (p != s.current ==> s.procs[p].sp == last[p]))
    && (s.current in s.procs ==> s.procs[s.current].status != Ready)
  }

  lemma SettledIsReady(s: Sched, last: map<int, int>)
    requires Inv(s, IDLE) && Settled(s) && SpKept(s, last)
    ensures SpReady(s, last)
  {
  }

  lemma OwnerIsReady(s: Sched, t: Sched, last: map<int, int>)
    requires SpReady(s, last) && SameOwner(s, t) && Settled(s)
    ensures SpReady(t, last)
  {
  }

  /** A machine about to reschedule. */
  ghost predicate Switching(m: Machine) {
    && Inv(m.sched, IDLE) && SpReady(m.sched, m.last)
    && Exclusive(m.waits) && Tidy(m.waits) && Accounted(Live(m.sched), BlockedSet(m.sched), m.waits)
    && forall p <- Live(m.sched) :: 1 <= p <= Semaphores.MAX_PROCESSES
  }

  lemma RescheduleKeeps(m: Machine, sp: int)
    requires Switching(m)
    ensures MachineInv(Reschedule(m, sp))
    ensures var t := Reschedule(m, sp); t.sched.current in t.last && t.resumed == t.last[t.sched.current]
    ensures Reschedule(m, sp).waits == m.waits && Reschedule(m, sp).now == m.now
    ensures Live(Reschedule(m, sp).sched) == Live(m.sched) && BlockedSet(Reschedule(m, sp).sched) == BlockedSet(m.sched)
  {
    hide Inv, Settled, SpKept, Exclusive, Tidy, Accounted, Dispatch, BlockedSet;
    CurInRange(m.sched);
    var t := Reschedule(m, sp);
    DispatchSets(m.sched, sp);
    DispatchInv(m.sched, IDLE, sp);
    DispatchKeepsSp(m.sched, IDLE, sp, m.last);
    forall p | p in t.sched.procs ensures 1 <= p <= Semaphores.MAX_PROCESSES { assert p in Live(t.sched); }
  }

  lemma CurInRange(s: Sched)
    requires Inv(s, IDLE)
    ensures CurOk(s) && s.ring != []
  {
  }

  // ----- how waiting changes -----

  /** The process p has gone to wait at l. */
  ghost predicate Enters(w: Waits, w': Waits, p: int, l: Place) {
    forall q, k :: At(w', q, k) <==> At(w, q, k) || (q == p && k == l)
  }

  /** The processes of g have left l. */
  ghost predicate Leave(w: Waits, w': Waits, g: set<int>, l: Place) {
    && (forall p <- g :: At(w, p, l))
    && forall q, k :: At(w', q, k) <==> At(w, q, k) && !(q in g && k == l)
  }

  lemma EnterAccounted(live: set<int>, blocked: set<int>, w: Waits, w': Waits, p: int, l: Place)
    requires Exclusive(w) && Tidy(w) && Accounted(live, blocked, w) && p in live && p !in blocked && Enters(w, w', p, l)
    ensures !Waiting(w, p)
    ensures Accounted(live, blocked + {p}, w')
    ensures forall q, k, k' :: At(w', q, k) && At(w', q, k') ==> k == k'
  {
    forall q ensures Waiting(w', q) <==> Waiting(w, q) || q == p {
      if Waiting(w, q) { var k :| At(w, q, k); assert At(w', q, k); }
      assert At(w', p, l);
    }
    forall q | q in w'.parked ensures q in live { assert At(w', q, Parked); assert At(w, q, Parked) || q == p; }
  }

  lemma LeaveAccounted(live: set<int>, blocked: set<int>, w: Waits, w': Waits, g: set<int>, l: Place)
    requires Exclusive(w) && Tidy(w) && Accounted(live, blocked, w) && Leave(w, w', g, l)
    ensures Accounted(live, blocked - g, w')
    ensures forall q, k, k' :: At(w', q, k) && At(w', q, k') ==> k == k'
    ensures forall q, k :: At(w', q, k) ==> At(w, q, k)
  {
    forall q ensures Waiting(w', q) <==> Waiting(w, q) && q !in g {
      if Waiting(w, q) { var k :| At(w, q, k); assert q !in g ==> At(w', q, k); }
      if Waiting(w', q) { var k :| At(w', q, k); assert At(w, q, k); assert q in g ==> At(w, q, l); }
    }
    forall q | q in w'.parked ensures q in live { assert At(w', q, Parked); assert At(w, q, Parked); }
  }

  lemma SetSemAt(w: Waits, id: int, s: Semaphores.Sem, q: int, k: Place)
    requires 0 <= id < |w.sems|
    ensures At(SetSem(w, id, s), q, k) <==> if k == OnSem(id) then q in s.queue else At(w, q, k)
  {
  }

  lemma SemSame(w: Waits, id: int, s: Semaphores.Sem)
    requires Exclusive(w) && Tidy(w) && 0 <= id < |w.sems| && s.queue == w.sems[id].queue && Semaphores.SemInv(s)
    ensures Exclusive(SetSem(w, id, s)) && Tidy(SetSem(w, id, s))
    ensures forall q, k :: At(SetSem(w, id, s), q, k) <==> At(w, q, k)
  {
    forall q, k ensures At(SetSem(w, id, s), q, k) <==> At(w, q, k) { SetSemAt(w, id, s, q, k); }
  }

  lemma SameAccounted(live: set<int>, blocked: set<int>, w: Waits, w': Waits)
    requires Accounted(live, blocked, w) && w'.parked == w.parked && forall q, k :: At(w', q, k) <==> At(w, q, k)
    ensures Accounted(live, blocked, w')
  {
    forall q ensures Waiting(w', q) <==> Waiting(w, q) {
      if Waiting(w, q) { var k :| At(w, q, k); assert At(w', q, k); }
      if Waiting(w', q) { var k :| At(w', q, k); assert At(w, q, k); }
    }
  }

  lemma WaitEnters(live: set<int>, blocked: set<int>, w: Waits, id: int, p: int)
    requires Exclusive(w) && Tidy(w) && Accounted(live, blocked, w) && 0 <= id < |w.sems|
    requires p in live && p !in blocked && 1 <= p <= Semaphores.MAX_PROCESSES && p != IDLE && p != INIT_PID
    requires Semaphores.Wait(w.sems[id], p).1 == Semaphores.Enqueued
    ensures var w' := SetSem(w, id, Semaphores.Wait(w.sems[id], p).0);
            Exclusive(w') && Tidy(w') && Accounted(live, blocked + {p}, w')
  {
    var sem, l := Semaphores.Wait(w.sems[id], p).0, OnSem(id);
    var w' := SetSem(w, id, sem);
    forall q, k ensures At(w', q, k) <==> At(w, q, k) || (q == p && k == l) { SetSemAt(w, id, sem, q, k); }
    EnterAccounted(live, blocked, w, w', p, l);
    assert !At(w, p, l);
  }

  lemma SleepEnters(live: set<int>, blocked: set<int>, w: Waits, p: int, wake: int)
    requires Exclusive(w) && Tidy(w) && Accounted(live, blocked, w)
    requires p in live && p !in blocked && 1 <= p <= Semaphores.MAX_PROCESSES && p != IDLE && p != INIT_PID
    ensures var w' := w.(sleepers := SleepQueue.Add(w.sleepers, SleepQueue.Entry(p, wake)));
            Exclusive(w') && Tidy(w') && Accounted(live, blocked + {p}, w')
  {
    var e := SleepQueue.Entry(p, wake);
    var w' := w.(sleepers := SleepQueue.Add(w.sleepers, e));
    SleepQueue.AddKeepsSorted(w.sleepers, e);
    forall q, k ensures At(w', q, k) <==> At(w, q, k) || (q == p && k == Sleeping) { SleepAt(w, e, q, k); }
    EnterAccounted(live, blocked, w, w', p, Sleeping);
    assert !At(w, p, Sleeping);
  }

  lemma SleepAt(w: Waits, e: SleepQueue.Entry, q: int, k: Place)
    ensures At(w.(sleepers := SleepQueue.Add(w.sleepers, e)), q, k) <==> At(w, q, k) || (q == e.pid && k == Sleeping)
  {
    if k == Sleeping {
      if q == e.pid {
        assert SleepQueue.Add(w.sleepers, e)[SleepQueue.Place(w.sleepers, e.wake)].pid == q;
      } else {
        SleepQueue.AddOther(w.sleepers, e, q);
        assert SleepQueue.Has(w.sleepers, q) <==> At(w, q, k);
      }
    }
  }

  lemma ParkEnters(live: set<int>, blocked: set<int>, w: Waits, p: int)
    requires Exclusive(w) && Tidy(w) && Accounted(live, blocked, w)
    requires p in live && p !in blocked && 1 <= p <= Semaphores.MAX_PROCESSES && p != IDLE
    ensures var w' := w.(parked := w.parked + {p});
            Exclusive(w') && Tidy(w') && Accounted(live, blocked + {p}, w')
  {
    var w' := w.(parked := w.parked + {p});
    forall q, k ensures At(w', q, k) <==> At(w, q, k) || (q == p && k == Parked) { }
    EnterAccounted(live, blocked, w, w', p, Parked);
  }

  lemma UnparkLeaves(live: set<int>, blocked: set<int>, w: Waits, p: int)
    requires Exclusive(w) && Tidy(w) && Accounted(live, blocked, w) && p in w.parked
    ensures var w' := w.(parked := w.parked - {p});
            Exclusive(w') && Tidy(w') && Accounted(live, blocked - {p}, w')
  {
    var w' := w.(parked := w.parked - {p});
    assert Leave(w, w', {p}, Parked) by {
      forall q, k ensures At(w', q, k) <==> At(w, q, k) && !(q in {p} && k == Parked) { }
    }
    LeaveAccounted(live, blocked, w, w', {p}, Parked);
  }

  lemma PostLeaves(live: set<int>, blocked: set<int>, w: Waits, id: int)
    requires Exclusive(w) && Tidy(w) && Accounted(live, blocked, w) && 0 <= id < |w.sems|
    ensures var (sem, r) := Semaphores.Post(w.sems[id], live);
            var w' := SetSem(w, id, sem);
            Exclusive(w') && Tidy(w') && Accounted(live, if r.Handed? then blocked - {r.pid} else blocked, w')
            && (r.Handed? ==> r.pid in blocked && r.pid != INIT_PID)
  {
    var (sem, r) := Semaphores.Post(w.sems[id], live);
    var w', l, queue := SetSem(w, id, sem), OnSem(id), w.sems[id].queue;
    if r == Semaphores.Rejected {
      SemSame(w, id, sem);
      SameAccounted(live, blocked, w, w');
    } else {
      var n := Semaphores.Taken(queue, live);
      var g := set i | 0 <= i < n :: queue[i];
      assert sem.queue == queue[n..];
      forall q, k ensures At(w', q, k) <==> At(w, q, k) && !(q in g && k == l) {
        SetSemAt(w, id, sem, q, k);
        TakenSplit(queue, n, q);
      }
      forall p | p in g ensures At(w, p, l) { }
      LeaveAccounted(live, blocked, w, w', g, l);
      if r.Handed? {
        assert At(w, r.pid, l) && r.pid in g;
        assert blocked - g == blocked - {r.pid};
      } else {
        assert blocked - g == blocked;
      }
    }
  }

  lemma TakenSplit(queue: seq<int>, n: nat, q: int)
    requires Distinct(queue) && n <= |queue|
    ensures q in queue[n..] <==> q in queue && !exists i :: 0 <= i < n && queue[i] == q
  {
    if q in queue[n..] {
      var j :| 0 <= j < |queue[n..]| && queue[n..][j] == q;
      assert queue[n + j] == q;
    }
    if q in queue {
      var j :| 0 <= j < |queue| && queue[j] == q;
      if j >= n { assert queue[n..][j - n] == q; }
    }
  }

  ghost predicate DistinctSleepers(q: seq<SleepQueue.Entry>) {
    forall i, j | 0 <= i < j < |q| :: q[i].pid != q[j].pid
  }

  lemma {:induction false} SweepDistinct(q: seq<SleepQueue.Entry>, live: set<int>, now: int)
    requires DistinctSleepers(q)
    ensures DistinctSleepers(SleepQueue.Sweep(q, live, now).0)
  {
    if q != [] {
      var n := |q| - 1;
      SweepDistinct(q[..n], live, now);
      var rest := SleepQueue.Sweep(q[..n], live, now).0;
      forall i | 0 <= i < |rest| ensures rest[i].pid != q[n].pid {
        SleepQueue.SweepMembers(q[..n], live, now, rest[i]);
      }
    }
  }

  /** Of the sleepers that are alive, those that leave the queue are those that are woken. */
  lemma SweptAreWoken(q: seq<SleepQueue.Entry>, live: set<int>, now: int, p: int)
    requires DistinctSleepers(q)
    ensures var (rest, woken) := SleepQueue.Sweep(q, live, now);
            && (SleepQueue.Has(rest, p) ==> SleepQueue.Has(q, p))
            && (p in live ==> (p in woken <==> SleepQueue.Has(q, p) && !SleepQueue.Has(rest, p)))
            && (p in woken ==> p in live && SleepQueue.Has(q, p))
  {
    var (rest, woken) := SleepQueue.Sweep(q, live, now);
    if SleepQueue.Has(rest, p) {
      var i :| 0 <= i < |rest| && rest[i].pid == p;
      SleepQueue.SweepMembers(q, live, now, rest[i]);
      if p in woken { var j := SleepQueue.SweepWoken(q, live, now, p); assert q[j].pid == rest[i].pid; }
    } else if SleepQueue.Has(q, p) {
      var i :| 0 <= i < |q| && q[i].pid == p;
      SleepQueue.SweepMembers(q, live, now, q[i]);
    }
    if p in woken { var j := SleepQueue.SweepWoken(q, live, now, p); }
  }

  lemma SweepLeaves(live: set<int>, blocked: set<int>, w: Waits, now: int)
    requires Exclusive(w) && Tidy(w) && Accounted(live, blocked, w)
    ensures var (rest, woken) := SleepQueue.Sweep(w.sleepers, live, now);
            var w' := w.(sleepers := rest);
            Exclusive(w') && Tidy(w') && Accounted(live, blocked - (set p <- woken), w') && INIT_PID !in woken
  {
    var (rest, woken) := SleepQueue.Sweep(w.sleepers, live, now);
    var w' := w.(sleepers := rest);
    var g := set i | 0 <= i < |w.sleepers| && !SleepQueue.Has(rest, w.sleepers[i].pid) :: w.sleepers[i].pid;
    SweepDistinct(w.sleepers, live, now);
    SleepQueue.SweepKeepsSorted(w.sleepers, live, now);
    forall p ensures At(w, p, Sleeping) <==> SleepQueue.Has(w.sleepers, p) { }
    forall p ensures At(w', p, Sleeping) <==> SleepQueue.Has(rest, p) { }
    forall p ensures p in live ==> (p in g <==> p in woken) { SweptAreWoken(w.sleepers, live, now, p); }
    forall q, k ensures At(w', q, k) <==> At(w, q, k) && !(q in g && k == Sleeping) { SweptAreWoken(w.sleepers, live, now, q); }
    LeaveAccounted(live, blocked, w, w', g, Sleeping);
    assert blocked - g == blocked - set p <- woken;
    SweptAreWoken(w.sleepers, live, now, INIT_PID);
    assert !At(w, INIT_PID, Sleeping);
  }

  lemma EndLeaves(live: set<int>, blocked: set<int>, w: Waits, p: int)
    requires Exclusive(w) && Tidy(w) && Accounted(live, blocked, w)
    ensures var w' := w.(parked := w.parked - {p});
            Exclusive(w') && Tidy(w') && Accounted(live - {p}, blocked - {p}, w')
  {
    if p in w.parked {
      UnparkLeaves(live, blocked, w, p);
    } else {
      assert w.(parked := w.parked - {p}) == w;
    }
  }

  // ----- every event keeps the invariant -----

  /** The current process goes on with the stack pointer it came into its last reschedule with. */
  ghost predicate ResumedRight(m: Machine) {
    m.sched.current in m.last && m.resumed == m.last[m.sched.current]
  }

  lemma TickKeeps(m: Machine, sp: int)
    requires MachineInv(m)
    ensures MachineInv(Step(m, Tick(sp))) && ResumedRight(Step(m, Tick(sp)))
  {
    hide Inv, SpKept, Exclusive, Tidy, Accounted, Dispatch, BlockedSet, SpReady, SameOwner;
    CurInRange(m.sched);
    var (rest, woken) := SleepQueue.Sweep(m.waits.sleepers, Live(m.sched), m.now + 1);
    var s := UnblockAll(m.sched, woken);
    SweepLeaves(Live(m.sched), BlockedSet(m.sched), m.waits, m.now + 1);
    UnblockAllKeeps(m.sched, woken);
    SettledIsReady(m.sched, m.last);
    OwnerIsReady(m.sched, s, m.last);
    RescheduleKeeps(m.(now := m.now + 1, waits := m.waits.(sleepers := rest), sched := s), sp);
  }

  lemma CurrentUnblocked(m: Machine)
    requires MachineInv(m)
    ensures CurOk(m.sched) && m.sched.current in Live(m.sched) && m.sched.current !in BlockedSet(m.sched)
    ensures 1 <= m.sched.current <= Semaphores.MAX_PROCESSES
  {
  }

  lemma BlockOwner(s: Sched, last: map<int, int>)
    requires Inv(s, IDLE) && Settled(s) && SpKept(s, last)
    ensures SpReady(Block(s, s.current).0, last)
  {
    SettledIsReady(s, last);
  }

  /** The current process, which is not idle, goes to wait in a tidy place. */
  lemma BlockCurrentKeeps(m: Machine, w: Waits, sp: int)
    requires MachineInv(m) && m.sched.current != IDLE
    requires Exclusive(w) && Tidy(w) && Accounted(Live(m.sched), BlockedSet(m.sched) + {m.sched.current}, w)
    ensures CurOk(m.sched)
    ensures MachineInv(BlockCurrent(m, w, sp)) && ResumedRight(BlockCurrent(m, w, sp))
  {
    hide Inv, SpKept, Exclusive, Tidy, Accounted, Dispatch, Block, BlockedSet, SpReady;
    CurrentUnblocked(m);
    BlockSets(m.sched, m.sched.current);
    BlockInv(m.sched, IDLE, m.sched.current);
    BlockOwner(m.sched, m.last);
    RescheduleKeeps(m.(sched := Block(m.sched, m.sched.current).0, waits := w), sp);
  }

  lemma SemWaitKeeps(m: Machine, id: int, sp: int)
    requires MachineInv(m) && Enabled(m, SemWait(id, sp))
    ensures CurOk(m.sched) && MachineInv(Step(m, SemWait(id, sp)))
    ensures Reschedules(m, SemWait(id, sp)) ==> ResumedRight(Step(m, SemWait(id, sp)))
  {
    hide Inv, Settled, SpKept, Exclusive, Accounted, BlockedSet;
    CurrentUnblocked(m);
    if 0 <= id < |m.waits.sems| {
      var (sem, r) := Semaphores.Wait(m.waits.sems[id], m.sched.current);
      if r == Semaphores.Enqueued {
        WaitEnters(Live(m.sched), BlockedSet(m.sched), m.waits, id, m.sched.current);
        BlockCurrentKeeps(m, SetSem(m.waits, id, sem), sp);
      } else {
        SemSame(m.waits, id, sem);
        SameAccounted(Live(m.sched), BlockedSet(m.sched), m.waits, SetSem(m.waits, id, sem));
      }
    }
  }

  lemma SemOpenKeeps(m: Machine, id: int, initial: nat)
    requires MachineInv(m)
    ensures CurOk(m.sched) && MachineInv(Step(m, SemOpen(id, initial)))
  {
    hide Inv, Settled, SpKept, Exclusive, Accounted, BlockedSet;
    CurrentUnblocked(m);
    if 0 <= id < |m.waits.sems| {
      var sem := Semaphores.Open(m.waits.sems[id], initial);
      SemSame(m.waits, id, sem);
      SameAccounted(Live(m.sched), BlockedSet(m.sched), m.waits, SetSem(m.waits, id, sem));
    }
  }

  /** Closing leaves nobody on the semaphore. */
  lemma CloseLeaves(live: set<int>, blocked: set<int>, w: Waits, id: int)
    requires Exclusive(w) && Tidy(w) && Accounted(live, blocked, w) && 0 <= id < |w.sems|
    ensures var (sem, woken) := Semaphores.Close(w.sems[id], live);
            var w' := SetSem(w, id, sem);
            && INIT_PID !in woken && Exclusive(w') && Tidy(w')
            && (PositionsLive(w.sems[id].queue, live) ==> Accounted(live, blocked - (set p <- woken), w'))
            && forall p <- w.sems[id].queue :: !Waiting(w', p) && (p in live ==> p in blocked)
  {
    hide Accounted;
    var (sem, woken) := Semaphores.Close(w.sems[id], live);
    var w', l, queue := SetSem(w, id, sem), OnSem(id), w.sems[id].queue;
    var g := set p <- queue;
    forall q, k ensures At(w', q, k) <==> At(w, q, k) && !(q in g && k == l) { SetSemAt(w, id, sem, q, k); }
    forall p | p in queue ensures At(w, p, l) && !Waiting(w', p) && (p in live ==> p in blocked) {
      assert At(w, p, l);
      WaitingBlocked(live, blocked, w, p, l);
    }
    LeaveAccounted(live, blocked, w, w', g, l);
    if PositionsLive(queue, live) && w.sems[id].value != Semaphores.CLOSED {
      Semaphores.CloseWakes(queue, live);
      SubsetsOf(live, blocked, w);
      assert blocked - g == blocked - (set p <- woken);
    } else {
      assert w.sems[id].value == Semaphores.CLOSED ==> blocked - g == blocked - (set p <- woken);
    }
  }

  lemma WaitingBlocked(live: set<int>, blocked: set<int>, w: Waits, p: int, l: Place)
    requires Accounted(live, blocked, w) && At(w, p, l)
    ensures p in live ==> p in blocked
  {
  }

  lemma SubsetsOf(live: set<int>, blocked: set<int>, w: Waits)
    requires Accounted(live, blocked, w)
    ensures blocked <= live
  {
  }

  lemma SameOwnerKept(s: Sched, t: Sched, last: map<int, int>)
    requires Inv(s, IDLE) && Settled(s) && SpKept(s, last) && SameOwner(s, t)
    ensures Settled(t) && SpKept(t, last)
  {
  }

  /** A close keeps everything in order if and only if the positions of the live waiters are live pids. */
  lemma SemCloseKeepsIff(m: Machine, id: int)
    requires MachineInv(m)
    ensures CurOk(m.sched)
    ensures MachineInv(Step(m, SemClose(id)))
            <==> (0 <= id < |m.waits.sems| ==> PositionsLive(m.waits.sems[id].queue, Live(m.sched)))
  {
    hide Inv, Settled, SpKept, Exclusive, Tidy, Accounted, BlockedSet, Unblock, PositionsLive, Waiting, SameOwner;
    CurrentUnblocked(m);
    if 0 <= id < |m.waits.sems| {
      var (sem, woken) := Semaphores.Close(m.waits.sems[id], Live(m.sched));
      CloseLeaves(Live(m.sched), BlockedSet(m.sched), m.waits, id);
      var t := UnblockAll(m.sched, woken);
      UnblockAllKeeps(m.sched, woken);
      SameOwnerKept(m.sched, t, m.last);
      PidsKept(m.sched, t);
      if !PositionsLive(m.waits.sems[id].queue, Live(m.sched)) {
        var p := Unwoken(m, id);
        Unaccounted(Step(m, SemClose(id)), p);
      }
    }
  }

  lemma Unwoken(m: Machine, id: int) returns (p: int)
    requires MachineInv(m) && 0 <= id < |m.waits.sems| && !PositionsLive(m.waits.sems[id].queue, Live(m.sched))
    ensures p in m.waits.sems[id].queue && p in Live(m.sched)
    ensures p !in Semaphores.Close(m.waits.sems[id], Live(m.sched)).1
  {
    var queue, live := m.waits.sems[id].queue, Live(m.sched);
    var i :| 0 <= i < |queue| && queue[i] in live && i !in live;
    p := queue[i];
    Semaphores.CloseWakes(queue, live);
  }

  /** A live process is blocked and waits nowhere, or waits somewhere and is not blocked. */
  lemma Unaccounted(m: Machine, p: int)
    requires p in Live(m.sched) && !(p in BlockedSet(m.sched) <==> Waiting(m.waits, p))
    ensures !MachineInv(m)
  {
  }

  lemma UnblockOneKeeps(s: Sched, pid: int, last: map<int, int>)
    requires Inv(s, IDLE)
    ensures Inv(Unblock(s, pid).0, IDLE) && (Settled(s) ==> Settled(Unblock(s, pid).0))
    ensures SpKept(s, last) ==> SpKept(Unblock(s, pid).0, last)
    ensures SpReady(s, last) && (s.current in s.procs ==> CurrentIs(s, Running)) ==> SpReady(Unblock(s, pid).0, last)
  {
    UnblockInv(s, IDLE, pid);
  }

  lemma SemPostKeeps(m: Machine, id: int)
    requires MachineInv(m)
    ensures CurOk(m.sched) && MachineInv(Step(m, SemPost(id)))
  {
    hide Inv, Settled, SpKept, Exclusive, Tidy, Accounted, BlockedSet, Unblock;
    CurrentUnblocked(m);
    if 0 <= id < |m.waits.sems| {
      var (sem, r) := Semaphores.Post(m.waits.sems[id], Live(m.sched));
      PostLeaves(Live(m.sched), BlockedSet(m.sched), m.waits, id);
      if r.Handed? {
        UnblockOneKeeps(m.sched, r.pid, m.last);
        UnblockSets(m.sched, r.pid);
        PidsKept(m.sched, Unblock(m.sched, r.pid).0);
      }
    }
  }

  lemma PidsKept(s: Sched, t: Sched)
    requires Live(t) <= Live(s) && forall p <- s.procs :: 1 <= p <= Semaphores.MAX_PROCESSES
    ensures forall p <- t.procs :: 1 <= p <= Semaphores.MAX_PROCESSES
  {
    forall p | p in t.procs ensures 1 <= p <= Semaphores.MAX_PROCESSES { assert p in Live(t); assert p in Live(s); }
  }

  lemma SleepKeeps(m: Machine, delay: nat, sp: int)
    requires MachineInv(m) && Enabled(m, Sleep(delay, sp))
    ensures CurOk(m.sched) && MachineInv(Step(m, Sleep(delay, sp))) && ResumedRight(Step(m, Sleep(delay, sp)))
  {
    hide Inv, Settled, SpKept, Exclusive, Tidy, Accounted, BlockedSet;
    CurrentUnblocked(m);
    SleepEnters(Live(m.sched), BlockedSet(m.sched), m.waits, m.sched.current, m.now + delay);
    BlockCurrentKeeps(m, m.waits.(sleepers := SleepQueue.Add(m.waits.sleepers, SleepQueue.Entry(m.sched.current, m.now + delay))), sp);
  }

  lemma WaitChildrenKeeps(m: Machine, sp: int)
    requires MachineInv(m) && Enabled(m, WaitChildren(sp))
    ensures CurOk(m.sched) && MachineInv(Step(m, WaitChildren(sp))) && ResumedRight(Step(m, WaitChildren(sp)))
  {
    hide Inv, Settled, SpKept, Exclusive, Tidy, Accounted, BlockedSet;
    CurrentUnblocked(m);
    ParkEnters(Live(m.sched), BlockedSet(m.sched), m.waits, m.sched.current);
    BlockCurrentKeeps(m, m.waits.(parked := m.waits.parked + {m.sched.current}), sp);
  }

  lemma BlockOtherSched(s: Sched, pid: int, last: map<int, int>)
    requires Inv(s, IDLE) && Settled(s) && SpKept(s, last) && pid != s.current && pid != IDLE
    ensures Inv(Block(s, pid).0, IDLE) && Settled(Block(s, pid).0) && SpKept(Block(s, pid).0, last)
  {
    BlockInv(s, IDLE, pid);
  }

  lemma BlockOtherKeeps(m: Machine, pid: int)
    requires MachineInv(m) && Enabled(m, BlockOther(pid))
    ensures CurOk(m.sched) && MachineInv(Step(m, BlockOther(pid)))
  {
    hide Inv, Settled, SpKept, Exclusive, Tidy, Accounted, BlockedSet, Block;
    CurrentUnblocked(m);
    BlockOtherSched(m.sched, pid, m.last);
    BlockSets(m.sched, pid);
    PidsKept(m.sched, Block(m.sched, pid).0);
    if Block(m.sched, pid).1 {
      assert pid in m.sched.procs;
      ParkEnters(Live(m.sched), BlockedSet(m.sched), m.waits, pid);
    }
  }

  /** Waking from outside keeps the process table and the places in step. */
  lemma WakeAccounted(m: Machine, pid: int)
    requires Exclusive(m.waits) && Tidy(m.waits) && Accounted(Live(m.sched), BlockedSet(m.sched), m.waits) && OnlyParked(m, pid)
    ensures var t := WakeParked(m, pid);
            Exclusive(t.waits) && Tidy(t.waits) && Accounted(Live(t.sched), BlockedSet(t.sched), t.waits)
    ensures Live(WakeParked(m, pid).sched) == Live(m.sched)
  {
    hide Exclusive, Tidy, Accounted, Unblock;
    UnblockSets(m.sched, pid);
    if Unblock(m.sched, pid).1 {
      UnparkLeaves(Live(m.sched), BlockedSet(m.sched), m.waits, pid);
    }
  }

  lemma UnblockOtherKeeps(m: Machine, pid: int)
    requires MachineInv(m) && Enabled(m, UnblockOther(pid))
    ensures CurOk(m.sched) && MachineInv(Step(m, UnblockOther(pid)))
  {
    hide Inv, Settled, SpKept, Exclusive, Tidy, Accounted, BlockedSet, Unblock;
    CurrentUnblocked(m);
    WakeAccounted(m, pid);
    UnblockOneKeeps(m.sched, pid, m.last);
    PidsKept(m.sched, Unblock(m.sched, pid).0);
  }

  lemma CreateSched(s: Sched, pid: int, priority: int, sp: int, last: map<int, int>)
    requires Inv(s, IDLE) && Settled(s) && SpKept(s, last) && pid !in s.procs
    ensures var t := Create(s, pid, priority, sp); Inv(t, IDLE) && Settled(t) && SpKept(t, last[pid := sp])
  {
    CreateInv(s, IDLE, pid, priority, sp);
  }

  lemma CreateKeeps(m: Machine, pid: int, priority: int, sp: int)
    requires MachineInv(m) && Enabled(m, CreateProcess(pid, priority, sp))
    ensures CurOk(m.sched) && MachineInv(Step(m, CreateProcess(pid, priority, sp)))
  {
    hide Inv, Settled, SpKept, Exclusive, Tidy, BlockedSet, Create, Waiting;
    CurrentUnblocked(m);
    CreateSched(m.sched, pid, priority, sp, m.last);
    CreateSets(m.sched, pid, priority, sp);
    var t := Create(m.sched, pid, priority, sp);
    forall p | p in t.procs ensures 1 <= p <= Semaphores.MAX_PROCESSES { assert p in Live(t); assert p in Live(m.sched) || p == pid; }
  }

  lemma PrioritySched(s: Sched, pid: int, priority: int, last: map<int, int>)
    requires Inv(s, IDLE) && Settled(s) && SpKept(s, last)
    ensures var t := SetPriority(s, pid, priority).0; Inv(t, IDLE) && Settled(t) && SpKept(t, last)
  {
    SetPriorityInv(s, IDLE, pid, priority);
  }

  lemma PriorityKeeps(m: Machine, pid: int, priority: int)
    requires MachineInv(m) && Enabled(m, ModifyPriority(pid, priority))
    ensures CurOk(m.sched) && MachineInv(Step(m, ModifyPriority(pid, priority)))
  {
    hide Inv, Settled, SpKept, Exclusive, Tidy, Accounted, BlockedSet, SetPriority;
    CurrentUnblocked(m);
    PrioritySched(m.sched, pid, priority, m.last);
    SetPrioritySets(m.sched, pid, priority);
    PidsKept(m.sched, SetPriority(m.sched, pid, priority).0);
  }

  lemma TerminateReady(s: Sched, pid: int, last: map<int, int>)
    requires Inv(s, IDLE) && Settled(s) && SpKept(s, last)
    ensures var t := Terminate(s, pid); SpReady(t, last) && (t.current in t.procs ==> CurrentIs(t, Running))
  {
  }

  lemma KillSched(s: Sched, pid: int, parent: int, last: map<int, int>)
    requires Inv(s, IDLE) && Settled(s) && SpKept(s, last) && pid != IDLE
    ensures var t := Unblock(Terminate(s, pid), parent).0; Inv(t, IDLE) && SpReady(t, last)
  {
    hide Inv, SpReady, SpKept, Terminate, Unblock;
    CurInRange(s);
    TerminateInv(s, IDLE, pid);
    TerminateReady(s, pid, last);
    UnblockOneKeeps(Terminate(s, pid), parent, last);
  }

  /** Removing a process keeps the process table and the places in step. */
  lemma RemoveAccounted(m: Machine, pid: int)
    requires CurOk(m.sched)
    requires Exclusive(m.waits) && Tidy(m.waits) && Accounted(Live(m.sched), BlockedSet(m.sched), m.waits)
    ensures var t := Reap(m, pid);
            Exclusive(t.waits) && Tidy(t.waits) && Accounted(Live(t.sched), BlockedSet(t.sched), t.waits)
            && Live(t.sched) == Live(m.sched) - {pid}
  {
    hide Exclusive, Tidy, Accounted, BlockedSet, Terminate;
    EndLeaves(Live(m.sched), BlockedSet(m.sched), m.waits, pid);
    TerminateSets(m.sched, pid);
  }

  lemma KillKeeps(m: Machine, pid: int, parent: int, sp: int)
    requires MachineInv(m) && pid != IDLE && (parent == pid || OnlyParked(m, parent))
    ensures CurOk(m.sched) && MachineInv(KillProcess(m, pid, parent, sp)) && ResumedRight(KillProcess(m, pid, parent, sp))
  {
    hide Inv, SpKept, Exclusive, Tidy, Accounted, BlockedSet, Terminate, Unblock, SpReady, Dispatch;
    CurrentUnblocked(m);
    RemoveAccounted(m, pid);
    ParentStillParked(m, pid, parent);
    WakeAccounted(Reap(m, pid), parent);
    KillSched(m.sched, pid, parent, m.last);
    RescheduleKeeps(WakeParked(Reap(m, pid), parent), sp);
  }

  lemma ParentStillParked(m: Machine, pid: int, parent: int)
    requires CurOk(m.sched)
    ensures OnlyParked(Reap(m, pid), parent) <==> parent == pid || OnlyParked(m, parent)
  {
  }

  lemma ExitKeeps(m: Machine, parent: int, sp: int)
    requires MachineInv(m) && m.sched.current != IDLE && OnlyParked(m, parent)
    ensures CurOk(m.sched) && MachineInv(ExitProcess(m, parent, sp)) && ResumedRight(ExitProcess(m, parent, sp))
  {
    hide Inv, SpKept, Exclusive, Tidy, Accounted, BlockedSet, Terminate, Unblock, SpReady, Dispatch;
    CurrentUnblocked(m);
    var t, pid := WakeParked(m, parent), m.sched.current;
    WakeAccounted(m, parent);
    UnblockOneKeeps(m.sched, parent, m.last);
    RemoveAccounted(t, pid);
    TerminateInv(t.sched, IDLE, pid);
    TerminateReady(t.sched, pid, m.last);
    RescheduleKeeps(Reap(t, pid), sp);
  }

  lemma StepKeeps(m: Machine, e: Event)
    requires MachineInv(m) && Enabled(m, e)
    ensures CurOk(m.sched) && MachineInv(Step(m, e)) && (Reschedules(m, e) ==> ResumedRight(Step(m, e)))
  {
    hide MachineInv, Enabled, Step, ResumedRight, Reschedules, KillProcess, ExitProcess;
    StepCases(m, e);
    match e
    case Tick(sp) => TickKeeps(m, sp);
    case SemOpen(id, initial) => SemOpenKeeps(m, id, initial);
    case SemClose(id) => SemCloseKeepsIff(m, id);
    case SemWait(id, sp) => SemWaitKeeps(m, id, sp);
    case SemPost(id) => SemPostKeeps(m, id);
    case Sleep(delay, sp) => SleepKeeps(m, delay, sp);
    case WaitChildren(sp) => WaitChildrenKeeps(m, sp);
    case BlockOther(pid) => BlockOtherKeeps(m, pid);
    case UnblockOther(pid) => UnblockOtherKeeps(m, pid);
    case CreateProcess(pid, priority, sp) => CreateKeeps(m, pid, priority, sp);
    case ModifyPriority(pid, priority) => PriorityKeeps(m, pid, priority);
    case Kill(pid, parent, sp) => if Reschedules(m, e) { KillKeeps(m, pid, parent, sp); }
    case Exit(parent, sp) => ExitKeeps(m, parent, sp);
  }

  lemma StepCases(m: Machine, e: Event)
    requires MachineInv(m) && Enabled(m, e)
    ensures CurOk(m.sched)
    ensures Reschedules(m, e) ==> e.Tick? || e.SemWait? || e.Sleep? || e.WaitChildren? || e.Exit? || e.Kill?
    ensures e.SemClose? ==> (0 <= e.id < |m.waits.sems| ==> PositionsLive(m.waits.sems[e.id].queue, Live(m.sched)))
    ensures e.Kill? ==> (Reschedules(m, e) ==> e.pid != IDLE && (e.parent == e.pid || OnlyParked(m, e.parent)))
                        && Step(m, e) == if Reschedules(m, e) then KillProcess(m, e.pid, e.parent, e.sp) else m
    ensures e.Exit? ==> OnlyParked(m, e.parent) && m.sched.current != IDLE && Step(m, e) == ExitProcess(m, e.parent, e.sp)
  {
    hide KillProcess, ExitProcess, Exclusive, Tidy, Accounted;
  }

  // ----- and exactly then -----

  /** Runs although it stands in a queue. */
  ghost predicate Astray(m: Machine, p: int) {
    p in Live(m.sched) && p !in BlockedSet(m.sched) && Waiting(m.waits, p)
  }

  lemma AwakenedAstray(m: Machine, pid: int)
    requires Tidy(m.waits) && Accounted(Live(m.sched), BlockedSet(m.sched), m.waits) && !OnlyParked(m, pid)
    ensures Astray(WakeParked(m, pid), pid)
  {
    assert pid in BlockedSet(m.sched);
    var l :| At(m.waits, pid, l);
    UnblockSets(m.sched, pid);
    assert At(WakeParked(m, pid).waits, pid, l);
  }

  lemma AstrayAfterReap(m: Machine, pid: int, p: int)
    requires CurOk(m.sched) && Astray(m, p) && p != pid
    ensures Astray(Reap(m, pid), p)
  {
    var l :| At(m.waits, p, l);
    TerminateSets(m.sched, pid);
    assert At(Reap(m, pid).waits, p, l);
  }

  lemma AstrayAfterDispatch(m: Machine, sp: int, p: int)
    requires Inv(m.sched, IDLE) && Astray(m, p)
    ensures CurOk(m.sched) && !MachineInv(Reschedule(m, sp))
  {
    hide Inv, Dispatch, BlockedSet, Waiting, MachineInv;
    CurInRange(m.sched);
    DispatchSets(m.sched, sp);
    Unaccounted(Reschedule(m, sp), p);
  }

  lemma KillBreaks(m: Machine, pid: int, parent: int, sp: int)
    requires MachineInv(m) && pid != IDLE && parent != pid && !OnlyParked(m, parent)
    ensures CurOk(m.sched) && !MachineInv(KillProcess(m, pid, parent, sp))
  {
    hide Inv, SpKept, Exclusive, Tidy, Accounted, BlockedSet, Terminate, Unblock, SpReady, Dispatch, Astray;
    CurrentUnblocked(m);
    RemoveAccounted(m, pid);
    ParentStillParked(m, pid, parent);
    AwakenedAstray(Reap(m, pid), parent);
    KillSched(m.sched, pid, parent, m.last);
    AstrayAfterDispatch(WakeParked(Reap(m, pid), parent), sp, parent);
  }

  lemma ExitBreaks(m: Machine, parent: int, sp: int)
    requires MachineInv(m) && m.sched.current != IDLE && !OnlyParked(m, parent)
    ensures CurOk(m.sched) && !MachineInv(ExitProcess(m, parent, sp))
  {
    hide Inv, SpKept, Exclusive, Tidy, Accounted, Terminate, Unblock, SpReady, Dispatch, Astray;
    CurrentUnblocked(m);
    var t, pid := WakeParked(m, parent), m.sched.current;
    AwakenedAstray(m, parent);
    assert parent in BlockedSet(m.sched);
    UnblockInv(m.sched, IDLE, parent);
    CurInRange(t.sched);
    AstrayAfterReap(t, pid, parent);
    TerminateInv(t.sched, IDLE, pid);
    AstrayAfterDispatch(Reap(t, pid), sp, parent);
  }

  lemma CreateBreaks(m: Machine, pid: int, priority: int, sp: int)
    requires MachineInv(m) && pid !in m.sched.procs && Waiting(m.waits, pid)
    ensures CurOk(m.sched) && !MachineInv(Step(m, CreateProcess(pid, priority, sp)))
  {
    hide Inv, Settled, SpKept, Exclusive, Tidy, Accounted, Create, Waiting, MachineInv;
    CurrentUnblocked(m);
    CreateSets(m.sched, pid, priority, sp);
    Unaccounted(Step(m, CreateProcess(pid, priority, sp)), pid);
  }

  lemma BlockOtherBreaks(m: Machine, pid: int)
    requires MachineInv(m) && (pid == m.sched.current || pid == IDLE)
    ensures CurOk(m.sched) && !MachineInv(Step(m, BlockOther(pid)))
  {
    hide Exclusive, Tidy, Accounted, SpKept;
    BlockSets(m.sched, pid);
  }

  lemma InitWaitBreaks(m: Machine, id: int, sp: int)
    requires MachineInv(m) && m.sched.current == INIT_PID && Reschedules(m, SemWait(id, sp))
    ensures CurOk(m.sched) && !MachineInv(Step(m, SemWait(id, sp)))
  {
    hide Inv, Settled, SpKept, Exclusive, Accounted, Dispatch;
    CurrentUnblocked(m);
    var t := Step(m, SemWait(id, sp));
    assert t.waits == SetSem(m.waits, id, Semaphores.Wait(m.waits.sems[id], INIT_PID).0);
    assert At(t.waits, INIT_PID, OnSem(id));
  }

  lemma InitSleepBreaks(m: Machine, delay: nat, sp: int)
    requires MachineInv(m) && m.sched.current == INIT_PID
    ensures CurOk(m.sched) && !MachineInv(Step(m, Sleep(delay, sp)))
  {
    hide Inv, Settled, SpKept, Exclusive, Accounted, Dispatch;
    CurrentUnblocked(m);
    SleepAt(m.waits, SleepQueue.Entry(INIT_PID, m.now + delay), INIT_PID, Sleeping);
    assert At(Step(m, Sleep(delay, sp)).waits, INIT_PID, Sleeping);
  }

  /** An event keeps the machine in order if and only if it is harmless. */
  lemma StepKeepsIff(m: Machine, e: Event)
    requires MachineInv(m) && Possible(m, e)
    ensures CurOk(m.sched) && (MachineInv(Step(m, e)) <==> Harmless(m, e))
  {
    hide MachineInv, Step, KillProcess, ExitProcess, OnlyParked, Waiting, PositionsLive;
    if Harmless(m, e) {
      StepKeeps(m, e);
    } else {
      match e
      case SemClose(id) => SemCloseKeepsIff(m, id);
      case SemWait(id, sp) => InitWaitBreaks(m, id, sp);
      case Sleep(delay, sp) => InitSleepBreaks(m, delay, sp);
      case BlockOther(pid) => BlockOtherBreaks(m, pid);
      case UnblockOther(pid) => UnblockBreaks(m, pid);
      case Kill(pid, parent, sp) => KillStep(m, pid, parent, sp); KillBreaks(m, pid, parent, sp);
      case Exit(parent, sp) => ExitStep(m, parent, sp); ExitBreaks(m, parent, sp);
      case CreateProcess(pid, priority, sp) => CreateBreaks(m, pid, priority, sp);
    }
  }

  lemma KillStep(m: Machine, pid: int, parent: int, sp: int)
    requires MachineInv(m) && Reschedules(m, Kill(pid, parent, sp))
    ensures CurOk(m.sched) && Step(m, Kill(pid, parent, sp)) == KillProcess(m, pid, parent, sp)
  {
  }

  lemma ExitStep(m: Machine, parent: int, sp: int)
    requires MachineInv(m)
    ensures CurOk(m.sched) && Step(m, Exit(parent, sp)) == ExitProcess(m, parent, sp)
  {
  }

  lemma UnblockBreaks(m: Machine, pid: int)
    requires MachineInv(m) && !OnlyParked(m, pid)
    ensures CurOk(m.sched) && !MachineInv(Step(m, UnblockOther(pid)))
  {
    CurrentUnblocked(m);
    AwakenedAstray(m, pid);
    Unaccounted(Step(m, UnblockOther(pid)), pid);
  }

  // ----- runs from boot -----

  /** After the first dispatch, with the first process running and the idle process created. */
  function Boot(sp: int, idleSp: int): Machine {
    Machine(Sched(map[INIT_PID := Proc(Running, 1, sp), IDLE := Proc(Ready, 1, idleSp)],
                  [Node(INIT_PID, 1), Node(IDLE, 1)], 0, INIT_PID),
            Waits(seq(Semaphores.SEM_MAX, _ => Semaphores.Sem(Semaphores.CLOSED, [])), [], {}),
            0, map[INIT_PID := sp, IDLE := idleSp], sp)
  }

  lemma BootKeeps(sp: int, idleSp: int)
    ensures MachineInv(Boot(sp, idleSp))
  {
    var m := Boot(sp, idleSp);
    var s, w := m.sched, m.waits;
    assert s.ring[0].pid == INIT_PID && s.ring[1].pid == IDLE;
    forall id | 0 <= id < |w.sems| ensures w.sems[id] == Semaphores.Sem(Semaphores.CLOSED, []) { }
    forall p, l ensures !At(w, p, l) { }
    assert BlockedSet(s) == {};
  }

  /** The machine after a run of events, each of them enabled when it happens. */
  ghost predicate Reaches(m: Machine, es: seq<Event>, t: Machine)
    decreases |es|
  {
    if es == [] then t == m
    else CurOk(m.sched) && Enabled(m, es[0]) && Reaches(Step(m, es[0]), es[1..], t)
  }

  lemma {:induction false} RunKeeps(m: Machine, es: seq<Event>, t: Machine)
    requires MachineInv(m) && Reaches(m, es, t)
    ensures MachineInv(t)
    decreases |es|
  {
    hide MachineInv, Step, Enabled;
    if es != [] {
      StepKeeps(m, es[0]);
      RunKeeps(Step(m, es[0]), es[1..], t);
    }
  }

  /** How many times a process stands in semaphore queues. */
  ghost function QueuedTimes(sems: seq<Semaphores.Sem>, p: int): nat {
    if sems == [] then 0 else QueuedTimes(sems[..|sems| - 1], p) + multiset(sems[|sems| - 1].queue)[p]
  }

  /** How many times a process is waiting, over all semaphores, the sleep queue and the parked processes. */
  ghost function WaitingTimes(w: Waits, p: int): nat {
    QueuedTimes(w.sems, p) + multiset(SleepQueue.Pids(w.sleepers))[p] + if p in w.parked then 1 else 0
  }

  lemma {:induction false} DistinctCount(q: seq<int>, p: int)
    requires Distinct(q)
    ensures multiset(q)[p] == if p in q then 1 else 0
  {
    if q != [] {
      var n := |q| - 1;
      DistinctCount(q[..n], p);
      assert q == q[..n] + [q[n]];
    }
  }

  lemma {:induction false} QueuedOnce(w: Waits, n: nat, p: int)
    requires Exclusive(w) && n <= |w.sems|
    ensures QueuedTimes(w.sems[..n], p) == if exists id :: 0 <= id < n && At(w, p, OnSem(id)) then 1 else 0
  {
    if n > 0 {
      var sems := w.sems[..n];
      assert sems[..n - 1] == w.sems[..n - 1];
      QueuedOnce(w, n - 1, p);
      DistinctCount(w.sems[n - 1].queue, p);
      assert p in w.sems[n - 1].queue <==> At(w, p, OnSem(n - 1));
    }
  }

  lemma WaitingOnce(w: Waits, p: int)
    requires Exclusive(w)
    ensures WaitingTimes(w, p) == if Waiting(w, p) then 1 else 0
  {
    QueuedOnce(w, |w.sems|, p);
    assert w.sems[..|w.sems|] == w.sems;
    var pids := SleepQueue.Pids(w.sleepers);
    DistinctCount(pids, p);
    assert p in pids <==> At(w, p, Sleeping) by {
      if At(w, p, Sleeping) { var i :| 0 <= i < |w.sleepers| && w.sleepers[i].pid == p; assert pids[i] == p; }
    }
    assert p in w.parked <==> At(w, p, Parked);
    if Waiting(w, p) {
      var l :| At(w, p, l);
      match l case OnSem(id) => case _ =>
    }
  }

  /**
   No process is ever lost: in every state that a run from boot reaches, a live process
   stands in exactly one queue, exactly once, if it is blocked, and otherwise in none
   of them and on the ready list.
   */
  lemma NobodyIsLost(sp: int, idleSp: int, es: seq<Event>, t: Machine, p: int)
    requires Reaches(Boot(sp, idleSp), es, t) && p in t.sched.procs
    ensures WaitingTimes(t.waits, p) == if t.sched.procs[p].status == Blocked then 1 else 0
    ensures Listed(t.sched.ring, p) <==> t.sched.procs[p].status != Blocked
  {
    hide Reaches, Boot;
    BootKeeps(sp, idleSp);
    RunKeeps(Boot(sp, idleSp), es, t);
    WaitingOnce(t.waits, p);
    assert p in BlockedSet(t.sched) <==> Waiting(t.waits, p);
  }

  /**
   In every state that a run from boot reaches, exactly one process is running, it owns
   the current node, and an event that reschedules resumes the process it picks with
   the stack pointer that process came into its last reschedule with.
   */
  lemma OneRuns(sp: int, idleSp: int, es: seq<Event>, t: Machine, e: Event, p: int)
    requires Reaches(Boot(sp, idleSp), es, t)
    ensures CurOk(t.sched) && t.sched.ring != [] && t.sched.ring[t.sched.cur].pid == t.sched.current
    ensures p in t.sched.procs ==> (t.sched.procs[p].status == Running <==> p == t.sched.current)
    ensures Enabled(t, e) && Reschedules(t, e) ==> ResumedRight(Step(t, e))
  {
    hide Reaches, Boot, Step, Enabled, Reschedules;
    BootKeeps(sp, idleSp);
    RunKeeps(Boot(sp, idleSp), es, t);
    if Enabled(t, e) { StepKeeps(t, e); }
  }

  /** A wait on an open semaphore is never refused: the ring of waiters has room for every process. */
  lemma WaitNeverRefused(m: Machine, id: int)
    requires MachineInv(m) && 0 <= id < |m.waits.sems|
    ensures Semaphores.Wait(m.waits.sems[id], m.sched.current).1 == Semaphores.Refused
            <==> m.waits.sems[id].value == Semaphores.CLOSED
  {
    var w, p := m.waits, m.sched.current;
    CurrentUnblocked(m);
    assert !Waiting(w, p);
    assert !At(w, p, OnSem(id));
    forall q | q in w.sems[id].queue ensures 1 <= q <= Semaphores.MAX_PROCESSES { assert At(w, q, OnSem(id)); }
    Semaphores.RingNeverFull(w.sems[id], p);
  }

  /** A post with a live waiter makes the one that has waited longest ready, and it waits nowhere any more. */
  lemma PostWakes(m: Machine, id: int)
    requires MachineInv(m) && 0 <= id < |m.waits.sems|
    requires Semaphores.HasLive(m.waits.sems[id].queue, Live(m.sched))
    ensures CurOk(m.sched)
    ensures FirstLiveAwake(m.waits.sems[id].queue, Live(m.sched), Step(m, SemPost(id)))
  {
    hide Inv, Exclusive, Accounted, Unblock;
    var s := m.waits.sems[id];
    CurrentUnblocked(m);
    SemPostKeeps(m, id);
    Semaphores.PostServesFirstLive(s, Live(m.sched));
    PostLeaves(Live(m.sched), BlockedSet(m.sched), m.waits, id);
    var p := Semaphores.Post(s, Live(m.sched)).1.pid;
    UnblockSets(m.sched, p);
    AwakeWhenUnblocked(Step(m, SemPost(id)), p);
    var i :| 0 <= i < |s.queue| && s.queue[i] == p && forall j | 0 <= j < i :: s.queue[j] !in Live(m.sched);
    assert IsAwake(Step(m, SemPost(id)), s.queue[i]);
  }

  /** The first live process of a queue is awake in t. */
  ghost predicate FirstLiveAwake(queue: seq<int>, live: set<int>, t: Machine) {
    exists i ::
      0 <= i < |queue| && (forall j | 0 <= j < i :: queue[j] !in live) && queue[i] in live && IsAwake(t, queue[i])
  }

  ghost predicate IsAwake(m: Machine, p: int) {
    p in m.sched.procs && m.sched.procs[p].status != Blocked && Listed(m.sched.ring, p) && !Waiting(m.waits, p)
  }

  lemma AwakeWhenUnblocked(m: Machine, p: int)
    requires MachineInv(m) && p in Live(m.sched) && p !in BlockedSet(m.sched)
    ensures IsAwake(m, p)
  {
  }

  /** The process has given up the processor: it is blocked, stored with its stack pointer, and another one runs. */
  ghost predicate GaveUp(t: Machine, p: int, sp: int) {
    p in t.sched.procs && t.sched.procs[p].status == Blocked && t.sched.procs[p].sp == sp && t.sched.current != p
  }

  lemma BlockCurrentGivesUp(m: Machine, w: Waits, sp: int)
    requires MachineInv(m) && m.sched.current != IDLE
    requires Exclusive(w) && Tidy(w) && Accounted(Live(m.sched), BlockedSet(m.sched) + {m.sched.current}, w)
    ensures CurOk(m.sched) && GaveUp(BlockCurrent(m, w, sp), m.sched.current, sp)
    ensures BlockCurrent(m, w, sp).waits == w && BlockCurrent(m, w, sp).now == m.now
  {
    hide Inv, SpKept, Exclusive, Tidy, Accounted, Dispatch, BlockedSet, SpReady;
    CurrentUnblocked(m);
    var p, s := m.sched.current, Block(m.sched, m.sched.current).0;
    BlockSets(m.sched, p);
    BlockInv(m.sched, IDLE, p);
    BlockOwner(m.sched, m.last);
    RescheduleKeeps(m.(sched := s, waits := w), sp);
    DispatchGivesUp(s, sp, m.last);
  }

  lemma DispatchGivesUp(s: Sched, sp: int, last: map<int, int>)
    requires Inv(s, IDLE) && SpReady(s, last) && s.current in BlockedSet(s)
    ensures CurOk(s)
    ensures var (t, p) := (Dispatch(s, sp).0, s.current);
            p in t.procs && t.procs[p].status == Blocked && t.procs[p].sp == sp && t.current != p
  {
    CurInRange(s);
    DispatchKeepsSp(s, IDLE, sp, last);
    DispatchInv(s, IDLE, sp);
    DispatchSets(s, sp);
    assert s.current in BlockedSet(Dispatch(s, sp).0);
  }

  /** A wait without a unit left puts the caller at the end of the queue and takes the processor from it. */
  lemma WaitBlocks(m: Machine, id: int, sp: int)
    requires MachineInv(m) && Enabled(m, SemWait(id, sp)) && 0 <= id < |m.waits.sems| && m.waits.sems[id].value == 0
    ensures CurOk(m.sched) && GaveUp(Step(m, SemWait(id, sp)), m.sched.current, sp)
    ensures Step(m, SemWait(id, sp)).waits
            == SetSem(m.waits, id, Semaphores.Sem(0, m.waits.sems[id].queue + [m.sched.current]))
  {
    hide Inv, Settled, SpKept, Exclusive, Tidy, Accounted, BlockedSet, BlockCurrent, GaveUp;
    CurrentUnblocked(m);
    WaitNeverRefused(m, id);
    WaitEnters(Live(m.sched), BlockedSet(m.sched), m.waits, id, m.sched.current);
    BlockCurrentGivesUp(m, SetSem(m.waits, id, Semaphores.Wait(m.waits.sems[id], m.sched.current).0), sp);
  }

  /** Sleeping leaves an entry due the given number of ticks from now, and takes the processor from the caller. */
  lemma SleepWaits(m: Machine, delay: nat, sp: int)
    requires MachineInv(m) && Enabled(m, Sleep(delay, sp))
    ensures CurOk(m.sched) && GaveUp(Step(m, Sleep(delay, sp)), m.sched.current, sp)
    ensures Step(m, Sleep(delay, sp)).waits.sleepers
            == SleepQueue.Add(m.waits.sleepers, SleepQueue.Entry(m.sched.current, m.now + delay))
    ensures Step(m, Sleep(delay, sp)).now == m.now
  {
    hide Inv, Settled, SpKept, Exclusive, Tidy, Accounted, BlockedSet, BlockCurrent, GaveUp;
    CurrentUnblocked(m);
    var w := m.waits.(sleepers := SleepQueue.Add(m.waits.sleepers, SleepQueue.Entry(m.sched.current, m.now + delay)));
    SleepEnters(Live(m.sched), BlockedSet(m.sched), m.waits, m.sched.current, m.now + delay);
    BlockCurrentGivesUp(m, w, sp);
  }

  /** A tick makes every live sleeper ready whose deadline it reaches. */
  lemma TickWakes(m: Machine, sp: int, i: nat)
    requires MachineInv(m) && i < |m.waits.sleepers|
    requires m.waits.sleepers[i].pid in m.sched.procs && m.waits.sleepers[i].wake <= m.now + 1
    ensures CurOk(m.sched) && Step(m, Tick(sp)).now == m.now + 1 && IsAwake(Step(m, Tick(sp)), m.waits.sleepers[i].pid)
  {
    hide Inv, SpKept, Exclusive, Tidy, Accounted, Dispatch, BlockedSet, SameOwner, IsAwake;
    var e, q := m.waits.sleepers[i], m.waits.sleepers;
    CurrentUnblocked(m);
    TickKeeps(m, sp);
    var (rest, woken) := SleepQueue.Sweep(q, Live(m.sched), m.now + 1);
    SweepLeaves(Live(m.sched), BlockedSet(m.sched), m.waits, m.now + 1);
    UnblockAllKeeps(m.sched, woken);
    var s := UnblockAll(m.sched, woken);
    DispatchSets(s, sp);
    SleepQueue.SweepMembers(q, Live(m.sched), m.now + 1, e);
    assert e.pid in woken;
    AwakeWhenUnblocked(Step(m, Tick(sp)), e.pid);
  }

  // ----- why the first process must not wait on a semaphore -----

  function InitWaits(sp: int): Machine {
    Machine(Sched(map[INIT_PID := Proc(Blocked, 1, sp), IDLE := Proc(Ready, 1, sp), 3 := Proc(Running, 2, sp)],
                  [Node(IDLE, 1), Node(3, 2)], 1, 3),
            Waits(seq(Semaphores.SEM_MAX, i => Semaphores.Sem(if i == 0 then 0 else Semaphores.CLOSED, if i == 0 then [INIT_PID] else [])),
                  [], {}),
            0, map[INIT_PID := sp, IDLE := sp, 3 := sp], sp)
  }

  /** A post handed to the first process takes it off the queue without waking it: it is blocked and waits nowhere. */
  lemma WakeUpOfInitIsLost(sp: int)
    ensures var t := Step(InitWaits(sp), SemPost(0));
            t.sched.procs[INIT_PID].status == Blocked && !Waiting(t.waits, INIT_PID) && t.waits.sems[0] == Semaphores.Sem(0, [])
  {
    var m := InitWaits(sp);
    var t := Step(m, SemPost(0));
    assert Semaphores.Taken([INIT_PID], Live(m.sched)) == 1;
    forall l ensures !At(t.waits, INIT_PID, l) { }
  }
}
