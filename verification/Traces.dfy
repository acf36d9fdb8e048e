/**
 Runs in which pids are given to new processes while queues still hold them.  Beside
 the machine they keep what a wake-up is checked against: where each blocked process
 went to wait, and which entries of the sleep list nobody sleeps for any more.
 */
module Traces {
  import opened SchedulerSpec
  import opened Kernel
  import Semaphores
  import SleepQueue

  /**
   place tells where each blocked process went to wait, until when each sleeper was to
   sleep, and left holds the entries of sleeps that have ended before they were due.
   */
  datatype Traced = Traced(m: Machine, place: map<int, Place>, until: map<int, int>, left: seq<SleepQueue.Entry>)

  /** As Kernel.Enabled, but stale pids are not kept from anybody, and whoever is blocked may be unblocked. */
  predicate Permitted(m: Machine, e: Event) {
    && Possible(m, e)
    && (e.Sleep? ==> m.sched.current != INIT_PID)
    && (e.BlockOther? ==> e.pid != m.sched.current && e.pid != IDLE)
  }

  /** Where a process goes that an event blocks. */
  function PlaceOf(e: Event): Place {
    match e
    case SemWait(id, _) => OnSem(id)
    case Sleep(_, _) => Sleeping
    case _ => Parked
  }

  predicate IsAsleep(t: Traced, p: int) {
    p in t.place && t.place[p] == Sleeping
  }

  /** The event ends the sleep of p, by its death or by a wake-up that its own entry did not cause. */
  predicate CutShort(t: Traced, e: Event, u: Machine, p: int) {
    && IsAsleep(t, p) && p in t.until && p !in BlockedSet(u.sched)
    && !(e.Tick? && t.until[p] <= t.m.now + 1)
  }

  /** The entries that processes with a pid up to n leave behind. */
  function Abandoned(t: Traced, e: Event, u: Machine, n: nat): seq<SleepQueue.Entry> {
    if n == 0 then []
    else Abandoned(t, e, u, n - 1) + if CutShort(t, e, u, n) then [SleepQueue.Entry(n, t.until[n])] else []
  }

  function Follow(t: Traced, e: Event): Traced
    requires CurOk(t.m.sched)
  {
    var u := Step(t.m, e);
    Traced(u,
           map p <- BlockedSet(u.sched) :: if p in t.place then t.place[p] else PlaceOf(e),
           if e.Sleep? then t.until[t.m.sched.current := t.m.now + e.delay] else t.until,
           (if e.Tick? then SleepQueue.Sweep(t.left, Live(t.m.sched), t.m.now + 1).0 else t.left)
           + Abandoned(t, e, u, Semaphores.MAX_PROCESSES))
  }

  function Begin(sp: int, idleSp: int): Traced {
    Traced(Boot(sp, idleSp), map[], map[], [])
  }

  /** The state after a run of permitted events. */
  ghost predicate Reaches(t: Traced, es: seq<Event>, u: Traced)
    decreases |es|
  {
    if es == [] then u == t
    else CurOk(t.m.sched) && Permitted(t.m, es[0]) && Reaches(Follow(t, es[0]), es[1..], u)
  }

  // ----- the invariant -----

  ghost predicate SchedOk(s: Sched) {
    Inv(s, IDLE) && Settled(s) && forall p <- s.procs :: 1 <= p <= Semaphores.MAX_PROCESSES
  }

  /** Whether an entry is the one that a process asleep is sleeping for. */
  function Own(t: Traced, x: SleepQueue.Entry): nat {
    if IsAsleep(t, x.pid) && x.pid in t.until && t.until[x.pid] == x.wake then 1 else 0
  }

  /** The sleep list holds the entries of those who are asleep and those that are left, and no others. */
  ghost predicate Balanced(t: Traced) {
    forall x :: multiset(t.m.waits.sleepers)[x] == multiset(t.left)[x] + Own(t, x)
  }

  ghost predicate Kept(t: Traced) {
    && SchedOk(t.m.sched) && t.place.Keys == BlockedSet(t.m.sched)
    && (forall p | IsAsleep(t, p) :: p in t.until)
    && (forall x <- t.m.waits.sleepers :: x.pid != INIT_PID)
    && Balanced(t)
  }

  // ----- what an event does to the scheduler -----

  lemma {:induction false} UnblockAllShrinks(s: Sched, pids: seq<int>)
    requires Inv(s, IDLE) && Settled(s)
    ensures var t := UnblockAll(s, pids); Inv(t, IDLE) && Settled(t) && Live(t) == Live(s)
  {
    hide Inv;
    if pids != [] {
      var n := |pids| - 1;
      UnblockAllShrinks(s, pids[..n]);
      var t := UnblockAll(s, pids[..n]);
      UnblockOk(t, pids[n]);
    }
  }

  lemma UnblockOk(s: Sched, pid: int)
    requires Inv(s, IDLE)
    ensures var t := Unblock(s, pid).0; Inv(t, IDLE) && (Settled(s) ==> Settled(t)) && Live(t) == Live(s)
  {
    UnblockInv(s, IDLE, pid);
  }

  lemma DispatchOk(s: Sched, sp: int)
    requires Inv(s, IDLE)
    ensures CurOk(s) && var t := Dispatch(s, sp).0; Inv(t, IDLE) && Settled(t) && Live(t) == Live(s)
  {
    hide Inv, Dispatch;
    CurInRange(s);
    DispatchInv(s, IDLE, sp);
    DispatchSets(s, sp);
  }

  lemma BlockOk(s: Sched, pid: int)
    requires Inv(s, IDLE) && pid != IDLE
    ensures CurOk(s)
    ensures var t := Block(s, pid).0; Inv(t, IDLE) && (Settled(s) && pid != s.current ==> Settled(t)) && Live(t) == Live(s)
  {
    BlockInv(s, IDLE, pid);
  }

  lemma TerminateOk(s: Sched, pid: int)
    requires Inv(s, IDLE) && pid != IDLE
    ensures CurOk(s) && var t := Terminate(s, pid); Inv(t, IDLE) && Live(t) == Live(s) - {pid}
  {
    TerminateInv(s, IDLE, pid);
    TerminateSets(s, pid);
  }

  lemma KillOk(m: Machine, pid: int, parent: int, sp: int)
    requires Inv(m.sched, IDLE) && pid != IDLE
    ensures CurOk(m.sched)
    ensures var t := KillProcess(m, pid, parent, sp).sched; Inv(t, IDLE) && Settled(t) && Live(t) <= Live(m.sched)
  {
    hide Inv, Dispatch, Terminate, Unblock;
    TerminateOk(m.sched, pid);
    UnblockOk(Terminate(m.sched, pid), parent);
    DispatchOk(Unblock(Terminate(m.sched, pid), parent).0, sp);
  }

  lemma ExitOk(m: Machine, parent: int, sp: int)
    requires Inv(m.sched, IDLE) && m.sched.current != IDLE
    ensures CurOk(m.sched)
    ensures var t := ExitProcess(m, parent, sp).sched; Inv(t, IDLE) && Settled(t) && Live(t) <= Live(m.sched)
  {
    hide Inv, Dispatch, Terminate, Unblock;
    CurInRange(m.sched);
    UnblockOk(m.sched, parent);
    TerminateOk(Unblock(m.sched, parent).0, m.sched.current);
    DispatchOk(Terminate(Unblock(m.sched, parent).0, m.sched.current), sp);
  }

  lemma BlockCurrentOk(m: Machine, w: Waits, sp: int)
    requires Inv(m.sched, IDLE) && m.sched.current != IDLE
    ensures CurOk(m.sched)
    ensures var t := BlockCurrent(m, w, sp).sched; Inv(t, IDLE) && Settled(t) && Live(t) == Live(m.sched)
  {
    hide Inv, Dispatch, Block;
    BlockOk(m.sched, m.sched.current);
    DispatchOk(Block(m.sched, m.sched.current).0, sp);
  }

  lemma CreateOk(s: Sched, pid: int, priority: int, sp: int)
    requires Inv(s, IDLE) && Settled(s) && pid !in s.procs
    ensures var t := Create(s, pid, priority, sp); Inv(t, IDLE) && Settled(t) && Live(t) == Live(s) + {pid}
  {
    CreateInv(s, IDLE, pid, priority, sp);
  }

  lemma PriorityOk(s: Sched, pid: int, priority: int)
    requires Inv(s, IDLE) && Settled(s)
    ensures var t := SetPriority(s, pid, priority).0; Inv(t, IDLE) && Settled(t) && Live(t) == Live(s)
  {
    SetPriorityInv(s, IDLE, pid, priority);
  }

  lemma StepOk(m: Machine, e: Event)
    requires SchedOk(m.sched) && Permitted(m, e)
    ensures CurOk(m.sched) && SchedOk(Step(m, e).sched)
  {
    hide Inv, Settled, KillProcess, ExitProcess, BlockCurrent, Dispatch, Block, Unblock, Create, SetPriority;
    CurInRange(m.sched);
    var s, w := m.sched, m.waits;
    match e
    case Tick(sp) =>
      var woken := SleepQueue.Sweep(w.sleepers, Live(s), m.now + 1).1;
      UnblockAllShrinks(s, woken);
      DispatchOk(UnblockAll(s, woken), sp);
    case SemClose(id) =>
      if 0 <= id < |w.sems| { UnblockAllShrinks(s, Semaphores.Close(w.sems[id], Live(s)).1); }
    case SemWait(id, sp) =>
      if 0 <= id < |w.sems| { BlockCurrentOk(m, SetSem(w, id, Semaphores.Wait(w.sems[id], s.current).0), sp); }
    case SemPost(id) =>
      if 0 <= id < |w.sems| && Semaphores.Post(w.sems[id], Live(s)).1.Handed? {
        UnblockOk(s, Semaphores.Post(w.sems[id], Live(s)).1.pid);
      }
    case Sleep(delay, sp) =>
      BlockCurrentOk(m, w.(sleepers := SleepQueue.Add(w.sleepers, SleepQueue.Entry(s.current, m.now + delay))), sp);
    case WaitChildren(sp) => BlockCurrentOk(m, w.(parked := w.parked + {s.current}), sp);
    case BlockOther(pid) => BlockOk(s, pid);
    case UnblockOther(pid) => UnblockOk(s, pid);
    case CreateProcess(pid, priority, sp) => CreateOk(s, pid, priority, sp);
    case ModifyPriority(pid, priority) => PriorityOk(s, pid, priority);
    case Kill(pid, parent, sp) => if pid >= 3 { KillOk(m, pid, parent, sp); }
    case Exit(parent, sp) => ExitOk(m, parent, sp);
    case _ =>
  }

  // ----- what it does to the sleep list -----

  lemma {:induction false} AbandonedCounts(t: Traced, e: Event, u: Machine, n: nat, x: SleepQueue.Entry)
    ensures multiset(Abandoned(t, e, u, n))[x]
            == if 1 <= x.pid <= n && CutShort(t, e, u, x.pid) && t.until[x.pid] == x.wake then 1 else 0
  {
    hide CutShort;
    if n > 0 { AbandonedCounts(t, e, u, n - 1, x); }
  }

  lemma AddCounts(q: seq<SleepQueue.Entry>, e: SleepQueue.Entry, x: SleepQueue.Entry)
    ensures multiset(SleepQueue.Add(q, e))[x] == multiset(q)[x] + if x == e then 1 else 0
  {
    var k := SleepQueue.Place(q, e.wake);
    assert q == q[..k] + q[k..];
  }

  lemma AsleepIsLive(t: Traced, p: int)
    requires Kept(t) && IsAsleep(t, p)
    ensures p in Live(t.m.sched) && p in t.until && 1 <= p <= Semaphores.MAX_PROCESSES && p in BlockedSet(t.m.sched)
  {
  }

  lemma StepList(m: Machine, e: Event)
    requires CurOk(m.sched)
    ensures Step(m, e).waits.sleepers
            == if e.Tick? then SleepQueue.Sweep(m.waits.sleepers, Live(m.sched), m.now + 1).0
               else if e.Sleep? then SleepQueue.Add(m.waits.sleepers, SleepQueue.Entry(m.sched.current, m.now + e.delay))
               else m.waits.sleepers
  {
    hide Dispatch, Block, Unblock, Terminate, Create, SetPriority;
  }

  lemma BalancedAt(t: Traced, x: SleepQueue.Entry)
    requires Balanced(t)
    ensures multiset(t.m.waits.sleepers)[x] == multiset(t.left)[x] + Own(t, x)
  {
  }

  /** An event other than a tick or a call of sleep only ends sleeps. */
  lemma OtherBalanced(t: Traced, e: Event, x: SleepQueue.Entry)
    requires Kept(t) && Permitted(t.m, e) && CurOk(t.m.sched) && !e.Tick? && !e.Sleep?
    ensures var u := Follow(t, e); multiset(u.m.waits.sleepers)[x] == multiset(u.left)[x] + Own(u, x)
  {
    hide Step, Permitted, SchedOk, BlockedSet, Abandoned;
    StepList(t.m, e);
    BalancedAt(t, x);
    AbandonedCounts(t, e, Step(t.m, e), Semaphores.MAX_PROCESSES, x);
    if IsAsleep(t, x.pid) { AsleepIsLive(t, x.pid); }
  }

  lemma SleepSets(m: Machine, delay: nat, sp: int)
    requires SchedOk(m.sched) && m.sched.current != IDLE
    ensures CurOk(m.sched) && m.sched.current !in BlockedSet(m.sched)
    ensures BlockedSet(Step(m, Sleep(delay, sp)).sched) == BlockedSet(m.sched) + {m.sched.current}
  {
    hide Inv, Dispatch, Block, BlockedSet;
    RunningIsNotBlocked(m.sched);
    BlockSets(m.sched, m.sched.current);
    BlockOk(m.sched, m.sched.current);
    DispatchSets(Block(m.sched, m.sched.current).0, sp);
  }

  lemma RunningIsNotBlocked(s: Sched)
    requires Inv(s, IDLE) && Settled(s)
    ensures CurOk(s) && s.current in Live(s) && s.current !in BlockedSet(s)
  {
  }

  lemma NobodyCutShort(t: Traced, e: Event, p: int)
    requires Kept(t) && Permitted(t.m, e) && CurOk(t.m.sched) && e.Sleep?
    ensures !CutShort(t, e, Step(t.m, e), p)
  {
    hide Step, SchedOk, BlockedSet, Balanced;
    SleepSets(t.m, e.delay, e.sp);
  }

  lemma OwnAfterSleep(t: Traced, e: Event, x: SleepQueue.Entry)
    requires Kept(t) && Permitted(t.m, e) && CurOk(t.m.sched) && e.Sleep?
    ensures Own(Follow(t, e), x) == Own(t, x) + if x == SleepQueue.Entry(t.m.sched.current, t.m.now + e.delay) then 1 else 0
  {
    hide Step, SchedOk, BlockedSet, Balanced, Abandoned;
    SleepSets(t.m, e.delay, e.sp);
  }

  lemma SleepBalanced(t: Traced, e: Event, x: SleepQueue.Entry)
    requires Kept(t) && Permitted(t.m, e) && CurOk(t.m.sched) && e.Sleep?
    ensures var u := Follow(t, e); multiset(u.m.waits.sleepers)[x] == multiset(u.left)[x] + Own(u, x)
  {
    hide Step, Permitted, SchedOk, BlockedSet, Abandoned, CutShort, Own, SleepQueue.Add;
    StepList(t.m, e);
    NobodyCutShort(t, e, x.pid);
    OwnAfterSleep(t, e, x);
    BalancedAt(t, x);
    AddCounts(t.m.waits.sleepers, SleepQueue.Entry(t.m.sched.current, t.m.now + e.delay), x);
    AbandonedCounts(t, e, Step(t.m, e), Semaphores.MAX_PROCESSES, x);
  }

  /** A tick unblocks exactly those whose entry comes due. */
  lemma TickSets(t: Traced, sp: int, p: int)
    requires Kept(t)
    ensures CurOk(t.m.sched)
    ensures p in BlockedSet(Step(t.m, Tick(sp)).sched)
            <==> p in BlockedSet(t.m.sched) && !DueFor(t.m.waits.sleepers, p, t.m.now + 1)
  {
    hide Inv, Settled, Dispatch, BlockedSet, Balanced, DueFor;
    var m := t.m;
    CurInRange(m.sched);
    var woken := SleepQueue.Sweep(m.waits.sleepers, Live(m.sched), m.now + 1).1;
    if INIT_PID in woken { var i := SleepQueue.SweepWoken(m.waits.sleepers, Live(m.sched), m.now + 1, INIT_PID); }
    UnblockAllKeeps(m.sched, woken);
    DispatchSets(UnblockAll(m.sched, woken), sp);
    if p in BlockedSet(m.sched) {
      BlockedIsLive(m.sched, p);
      WokenIsDue(m.waits.sleepers, Live(m.sched), m.now + 1, p);
    }
  }

  ghost predicate DueFor(q: seq<SleepQueue.Entry>, p: int, tick: int) {
    exists x :: x in q && x.pid == p && x.wake <= tick
  }

  lemma WokenIsDue(q: seq<SleepQueue.Entry>, live: set<int>, tick: int, p: int)
    requires p in live
    ensures p in SleepQueue.Sweep(q, live, tick).1 <==> DueFor(q, p, tick)
  {
    if p in SleepQueue.Sweep(q, live, tick).1 {
      var i := SleepQueue.SweepWoken(q, live, tick, p);
      assert q[i] in q;
    }
    if DueFor(q, p, tick) {
      var x :| x in q && x.pid == p && x.wake <= tick;
      SleepQueue.SweepMembers(q, live, tick, x);
    }
  }

  lemma BlockedIsLive(s: Sched, p: int)
    requires p in BlockedSet(s)
    ensures p in Live(s)
  {
  }

  lemma OwnIsHeld(t: Traced, p: int)
    requires Kept(t) && IsAsleep(t, p)
    ensures SleepQueue.Entry(p, t.until[p]) in t.m.waits.sleepers
  {
    hide SchedOk;
    BalancedAt(t, SleepQueue.Entry(p, t.until[p]));
  }

  lemma TickBalanced(t: Traced, sp: int, x: SleepQueue.Entry)
    requires Kept(t) && CurOk(t.m.sched)
    ensures var u := Follow(t, Tick(sp)); multiset(u.m.waits.sleepers)[x] == multiset(u.left)[x] + Own(u, x)
  {
    hide Step, SchedOk, BlockedSet, Abandoned, Balanced;
    StepList(t.m, Tick(sp));
    BalancedAt(t, x);
    SleepQueue.SweepKeepsCounts(t.m.waits.sleepers, Live(t.m.sched), t.m.now + 1, x);
    SleepQueue.SweepKeepsCounts(t.left, Live(t.m.sched), t.m.now + 1, x);
    AbandonedCounts(t, Tick(sp), Step(t.m, Tick(sp)), Semaphores.MAX_PROCESSES, x);
    TickSets(t, sp, x.pid);
    if IsAsleep(t, x.pid) {
      AsleepIsLive(t, x.pid);
      OwnIsHeld(t, x.pid);
    }
  }

  lemma FollowBalanced(t: Traced, e: Event)
    requires Kept(t) && Permitted(t.m, e) && CurOk(t.m.sched)
    ensures Balanced(Follow(t, e))
  {
    hide Kept, Permitted, Follow, Own;
    var u := Follow(t, e);
    forall x ensures multiset(u.m.waits.sleepers)[x] == multiset(u.left)[x] + Own(u, x) {
      match e
      case Tick(sp) => TickBalanced(t, sp, x);
      case Sleep(_, _) => SleepBalanced(t, e, x);
      case _ => OtherBalanced(t, e, x);
    }
  }

  lemma FollowPlaces(t: Traced, e: Event)
    requires Kept(t) && Permitted(t.m, e) && CurOk(t.m.sched)
    ensures var u := Follow(t, e);
            u.place.Keys == BlockedSet(u.m.sched) && forall p | IsAsleep(u, p) :: p in u.until
  {
    hide SchedOk, BlockedSet, Step, Abandoned, Balanced;
    if e.Sleep? { SleepSets(t.m, e.delay, e.sp); }
  }

  lemma FollowKeeps(t: Traced, e: Event)
    requires Kept(t) && Permitted(t.m, e)
    ensures CurOk(t.m.sched) && Kept(Follow(t, e))
  {
    hide SchedOk, BlockedSet, Step, Abandoned, Permitted, IsAsleep, Balanced;
    StepOk(t.m, e);
    FollowBalanced(t, e);
    FollowPlaces(t, e);
    ListWithoutInit(t, e);
  }

  lemma ListWithoutInit(t: Traced, e: Event)
    requires CurOk(t.m.sched) && Permitted(t.m, e) && forall x <- t.m.waits.sleepers :: x.pid != INIT_PID
    ensures forall x <- Step(t.m, e).waits.sleepers :: x.pid != INIT_PID
  {
    hide Step;
    StepList(t.m, e);
    var q := t.m.waits.sleepers;
    forall x | x in Step(t.m, e).waits.sleepers ensures x.pid != INIT_PID {
      if e.Tick? { SleepQueue.SweepMembers(q, Live(t.m.sched), t.m.now + 1, x); }
      if e.Sleep? { AddCounts(q, SleepQueue.Entry(t.m.sched.current, t.m.now + e.delay), x); }
    }
  }

  lemma {:induction false} RunKeepsBalance(t: Traced, es: seq<Event>, u: Traced)
    requires Kept(t) && Reaches(t, es, u)
    ensures Kept(u)
    decreases |es|
  {
    hide Kept, Follow, Permitted;
    if es != [] {
      FollowKeeps(t, es[0]);
      RunKeepsBalance(Follow(t, es[0]), es[1..], u);
    }
  }

  lemma BeginKept(sp: int, idleSp: int)
    ensures Kept(Begin(sp, idleSp))
  {
    hide Exclusive, Tidy, Accounted;
    BootKeeps(sp, idleSp);
    assert BlockedSet(Boot(sp, idleSp).sched) == {};
  }

  /**
   Whom a tick wakes, in every state that a run reaches, pids given to new processes
   included: a blocked process goes on if and only if it is asleep and due, or an entry
   is due that an earlier holder of its pid left, or a sleep of its own that was cut
   short.  So a process that waits elsewhere is woken exactly by what was left.
   */
  lemma TickWakesIff(sp: int, idleSp: int, es: seq<Event>, t: Traced, tickSp: int, p: int)
    requires Reaches(Begin(sp, idleSp), es, t) && p in BlockedSet(t.m.sched)
    ensures CurOk(t.m.sched) && p in t.place
    ensures p !in BlockedSet(Step(t.m, Tick(tickSp)).sched)
            <==> (IsAsleep(t, p) && p in t.until && t.until[p] <= t.m.now + 1) || DueFor(t.left, p, t.m.now + 1)
  {
    hide Reaches, Begin, SchedOk, Step, BlockedSet, Balanced;
    BeginKept(sp, idleSp);
    RunKeepsBalance(Begin(sp, idleSp), es, t);
    TickSets(t, tickSp, p);
    DueOf(t, p, t.m.now + 1);
  }

  lemma DueOf(t: Traced, p: int, tick: int)
    requires Kept(t)
    ensures DueFor(t.m.waits.sleepers, p, tick)
            <==> (IsAsleep(t, p) && p in t.until && t.until[p] <= tick) || DueFor(t.left, p, tick)
  {
    hide SchedOk;
    if DueFor(t.m.waits.sleepers, p, tick) {
      var x :| x in t.m.waits.sleepers && x.pid == p && x.wake <= tick;
      BalancedAt(t, x);
    }
    if DueFor(t.left, p, tick) {
      var x :| x in t.left && x.pid == p && x.wake <= tick;
      BalancedAt(t, x);
      assert x in t.m.waits.sleepers;
    }
    if IsAsleep(t, p) && p in t.until && t.until[p] <= tick {
      OwnIsHeld(t, p);
    }
  }
}
