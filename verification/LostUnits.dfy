/**
 What becomes of the unit of a post when a queue still holds the pid of a process that
 has ended and the pid has been given to a new one.
 */
module LostUnits {
  import opened SchedulerSpec
  import opened Kernel
  import Fairness
  import opened Traces
  import Semaphores

  /** The post does not add to the value, and nobody who waits on the semaphore is made ready. */
  ghost predicate Lost(t: Traced, id: int)
    requires CurOk(t.m.sched) && 0 <= id < |t.m.waits.sems|
  {
    var u := Step(t.m, SemPost(id));
    && |u.waits.sems| == |t.m.waits.sems| && u.waits.sems[id].value == t.m.waits.sems[id].value
    && forall p | WaitsOn(t, p, id) :: p in BlockedSet(u.sched)
  }

  predicate WaitsOn(t: Traced, p: int, id: int) {
    p in t.place && t.place[p] == OnSem(id)
  }

  /** The first pid of the queue that is live belongs to a process that does not wait on the semaphore, or cannot be woken. */
  ghost predicate FirstLiveIsNoWaiter(t: Traced, id: int, queue: seq<int>) {
    exists i ::
      && 0 <= i < |queue| && (forall j | 0 <= j < i :: queue[j] !in Live(t.m.sched))
      && queue[i] in Live(t.m.sched) && (!WaitsOn(t, queue[i], id) || queue[i] == INIT_PID)
  }

  /**
   Whatever has become of the pids in its queue, a post on an open semaphore is lost to
   those who wait on it if and only if the first live pid there is not one of theirs,
   or the first process's.
   */
  lemma UnitLostIff(t: Traced, id: int)
    requires Kept(t) && CurOk(t.m.sched) && 0 <= id < |t.m.waits.sems| && t.m.waits.sems[id].value >= 0
    ensures Lost(t, id) <==> FirstLiveIsNoWaiter(t, id, t.m.waits.sems[id].queue)
  {
    hide Unblock, BlockedSet, SchedOk, Balanced;
    var m := t.m;
    var s, live := m.waits.sems[id], Live(m.sched);
    Semaphores.PostServesFirstLive(s, live);
    var r := Semaphores.Post(s, live).1;
    if r.Handed? {
      UnblockSets(m.sched, r.pid);
      var i :| 0 <= i < |s.queue| && s.queue[i] == r.pid && forall j | 0 <= j < i :: s.queue[j] !in live;
      if FirstLiveIsNoWaiter(t, id, s.queue) {
        var k :| 0 <= k < |s.queue| && (forall j | 0 <= j < k :: s.queue[j] !in live) && s.queue[k] in live
                 && (!WaitsOn(t, s.queue[k], id) || s.queue[k] == INIT_PID);
        assert k == i;
      }
    }
  }

  // ----- a run that loses one -----

  /** As Traces.Reaches, for the machine alone. */
  ghost predicate Runs(m: Machine, es: seq<Event>, t: Machine)
    decreases |es|
  {
    if es == [] then t == m
    else CurOk(m.sched) && Permitted(m, es[0]) && Runs(Step(m, es[0]), es[1..], t)
  }

  lemma {:induction false} RunTraced(t: Traced, es: seq<Event>, m: Machine) returns (u: Traced)
    requires Runs(t.m, es, m)
    ensures Traces.Reaches(t, es, u) && u.m == m
    decreases |es|
  {
    hide Permitted, Abandoned, Step;
    if es == [] {
      u := t;
    } else {
      u := RunTraced(Follow(t, es[0]), es[1..], m);
    }
  }

  lemma {:induction false} RunJoins(m: Machine, es: seq<Event>, t: Machine, fs: seq<Event>, u: Machine)
    requires Kernel.Reaches(m, es, t) && Runs(t, fs, u)
    ensures Runs(m, es + fs, u)
    decreases |es|
  {
    hide Step;
    if es == [] {
      assert es + fs == fs;
    } else {
      assert (es + fs)[1..] == es[1..] + fs;
      RunJoins(Step(m, es[0]), es[1..], t, fs, u);
    }
  }

  /** The semaphores, with the first of them open and a queue on it. */
  function Queue(queue: seq<int>): Waits {
    var w := Fairness.NobodyWaits();
    w.(sems := w.sems[0 := Semaphores.Sem(0, queue)])
  }

  const WAITER := Fairness.SLEEPER

  /** The waiter blocks, is killed, and its pid goes to a new process before the post. */
  function Reuse(sp: int): seq<Event> {
    [SemOpen(0, 0), SemWait(0, sp), Tick(sp), Kill(WAITER, INIT_PID, sp), Tick(sp), CreateProcess(WAITER, 1, sp)]
  }

  /** The first process and idle alone on the ready list; cur tells which of them runs. */
  function Two(sp: int, cur: nat, others: map<int, Proc>): Sched
    requires cur < 2
  {
    Sched(others[INIT_PID := Proc(if cur == 0 then Running else Ready, 1, sp)]
                [IDLE := Proc(if cur == 1 then Running else Ready, 1, sp)],
          [Node(INIT_PID, 1 - cur), Node(IDLE, cur)], cur, cur + 1)
  }

  lemma TwoGoOn(sp: int, cur: nat, others: map<int, Proc>)
    requires cur < 2
    ensures CurOk(Two(sp, cur, others)) && Dispatch(Two(sp, cur, others), sp) == (Two(sp, 1 - cur, others), sp)
  {
    var s := Two(sp, cur, others);
    var u := BeforeSearch(s, sp);
    assert IsReady(u, 1 - cur) && Search(u, cur, 2) == 1 - cur;
    assert Dispatch(s, sp).0.ring == Two(sp, 1 - cur, others).ring;
    assert Dispatch(s, sp).0.procs == Two(sp, 1 - cur, others).procs;
  }

  function Stage(s: Sched, sp: int, now: int): Machine {
    Machine(s, Queue([WAITER]), now, map[INIT_PID := sp, IDLE := sp, WAITER := sp], sp)
  }

  /** The waiter is blocked on the semaphore. */
  function Queueing(sp: int, now: int, cur: nat): Machine
    requires cur < 2
  {
    Stage(Two(sp, cur, map[WAITER := Proc(Blocked, 1, sp)]), sp, now)
  }

  /** The waiter is dead; its pid is still in the queue. */
  function Dead(sp: int, now: int, cur: nat): Machine
    requires cur < 2
  {
    Stage(Two(sp, cur, map[]), sp, now)
  }

  /** A new process has its pid. */
  function Reused(sp: int, now: int): Machine {
    Stage(Create(Two(sp, 0, map[]), WAITER, 1, sp), sp, now)
  }

  lemma QueueGrows()
    ensures SetSem(Queue([]), 0, Semaphores.Wait(Queue([]).sems[0], WAITER).0) == Queue([WAITER])
  {
    var s, a := Fairness.NobodyWaits().sems, Semaphores.Sem(0, []);
    var b := Semaphores.Wait(a, WAITER).0;
    assert b.queue == [WAITER];
    assert s[0 := a][0 := b] == s[0 := b];
  }

  lemma WaiterOpens(sp: int)
    ensures var m := Fairness.Round(sp, 2);
            CurOk(m.sched) && Permitted(m, SemOpen(0, 0)) && Step(m, SemOpen(0, 0)) == m.(waits := Queue([]))
  {
  }

  lemma WaiterBlocks(sp: int)
    ensures var m := Fairness.Round(sp, 2).(waits := Queue([]));
            CurOk(m.sched) && Permitted(m, SemWait(0, sp)) && Step(m, SemWait(0, sp)) == Queueing(sp, 2, 1)
  {
    var m := Fairness.Round(sp, 2).(waits := Queue([]));
    Fairness.SleeperBlocks(sp, 2);
    assert Fairness.Halfway(sp, 2).sched == Queueing(sp, 2, 1).sched;
    assert Step(m, SemWait(0, sp)).sched == Fairness.Halfway(sp, 2).sched;
    QueueGrows();
  }

  lemma TickGoesOn(sp: int, now: int, cur: nat, others: map<int, Proc>)
    requires cur < 2
    ensures var m := Stage(Two(sp, cur, others), sp, now);
            CurOk(m.sched) && Permitted(m, Tick(sp)) && Step(m, Tick(sp)) == Stage(Two(sp, 1 - cur, others), sp, now + 1)
  {
    TwoGoOn(sp, cur, others);
    assert Two(sp, cur, others).current in {INIT_PID, IDLE};
  }

  lemma WaiterDies(sp: int, now: int)
    ensures var m, e := Queueing(sp, now, 0), Kill(WAITER, INIT_PID, sp);
            CurOk(m.sched) && Permitted(m, e) && Step(m, e) == Dead(sp, now, 1)
  {
    var m := Queueing(sp, now, 0);
    TwoGoOn(sp, 0, map[]);
    assert !Listed(m.sched.ring, WAITER);
    assert Terminate(m.sched, WAITER) == Two(sp, 0, map[]);
  }

  lemma PidIsReused(sp: int, now: int)
    ensures var m, e := Dead(sp, now, 0), CreateProcess(WAITER, 1, sp);
            CurOk(m.sched) && Permitted(m, e) && Step(m, e) == Reused(sp, now)
  {
  }

  lemma PostIsLost(t: Traced, sp: int, now: int)
    requires Kept(t) && t.m == Reused(sp, now)
    ensures CurOk(t.m.sched) && 0 < |t.m.waits.sems| && Lost(t, 0)
  {
    hide SchedOk, Balanced;
    var m := Reused(sp, now);
    assert Queue([WAITER]).sems[0].queue[0] == WAITER;
    assert WAITER in Live(m.sched) && WAITER !in BlockedSet(m.sched);
    UnitLostIff(t, 0);
  }

  /** From boot on, with the pid of a killed waiter given to a new process: the post is lost. */
  lemma LosingRun(sp: int) returns (t: Traced)
    ensures Traces.Reaches(Begin(sp, sp), Fairness.Opening(sp) + Reuse(sp), t)
    ensures CurOk(t.m.sched) && 0 < |t.m.waits.sems| && t.m.waits.sems[0] == Semaphores.Sem(0, [WAITER]) && Lost(t, 0)
  {
    hide Begin, Step, Kept, Fairness.Round, Two, Lost, Runs, Traces.Reaches;
    RunOfMachine(sp);
    BeginKept(sp, sp);
    BeginMachine(sp);
    t := RunTraced(Begin(sp, sp), Fairness.Opening(sp) + Reuse(sp), Reused(sp, 4));
    RunKeepsBalance(Begin(sp, sp), Fairness.Opening(sp) + Reuse(sp), t);
    PostIsLost(t, sp, 4);
  }

  lemma BeginMachine(sp: int)
    ensures Begin(sp, sp).m == Boot(sp, sp)
  {
  }

  lemma RunOfMachine(sp: int)
    ensures Runs(Boot(sp, sp), Fairness.Opening(sp) + Reuse(sp), Reused(sp, 4))
  {
    hide Boot, Step, Permitted, Fairness.Round, Two, Reused;
    WaiterOpens(sp);
    WaiterBlocks(sp);
    TickGoesOn(sp, 2, 1, map[WAITER := Proc(Blocked, 1, sp)]);
    WaiterDies(sp, 3);
    TickGoesOn(sp, 3, 1, map[]);
    PidIsReused(sp, 4);
    var fs, t := Reuse(sp), Reused(sp, 4);
    assert fs[1..][1..] == [Tick(sp), Kill(WAITER, INIT_PID, sp), Tick(sp), CreateProcess(WAITER, 1, sp)];
    assert Runs(Dead(sp, 4, 0), [CreateProcess(WAITER, 1, sp)], t);
    assert Runs(Dead(sp, 3, 1), fs[1..][1..][1..][1..], t);
    assert Runs(Queueing(sp, 3, 0), fs[1..][1..][1..], t);
    assert Runs(Queueing(sp, 2, 1), fs[1..][1..], t);
    assert Runs(Fairness.Round(sp, 2), fs, t);
    Fairness.OpeningRun(sp);
    RunJoins(Boot(sp, sp), Fairness.Opening(sp), Fairness.Round(sp, 2), fs, t);
  }
}
