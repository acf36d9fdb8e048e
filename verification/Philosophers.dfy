/**
 The dining philosophers as a system of processes: one for each philosopher and one
 that lets philosophers join and leave.  A step is what a process does up to its next
 call of the kernel; steps of different processes and timer ticks interleave freely.
 */
module Philosophers {
  import opened Circle
  import opened DiningTable
  import opened Semaphores
  import SleepQueue

  /** Where a philosopher's process stands. */
  datatype Pc =
    | Fresh
    | Rests | Dozes | Hungry          // about to sleep, asleep, about to take the forks
    | TakeQueued | TakeIn | TakePostFork | TakePostGlobal
    | WantsFork | ForkQueued
    | Eats | Savours | Full           // about to sleep, asleep, about to put the forks down
    | LeaveQueued | LeaveIn | LeavePostLeft | LeaveServeRight | LeavePostRight | LeavePostGlobal

  datatype Phil = Phil(pid: int, pc: Pc)

  /** Where the process that runs phylo_main stands. */
  datatype MainPc =
    | AtPrompt | PromptAsleep
    | JoinQueued | JoinIn | JoinCount | JoinPost
    | RemoveQueued | RemoveIn | RemoveAway | RemoveAsleep | RemoveBack | CheckQueued | CheckIn | RemovePost

  /** Who has been granted the global semaphore and has not posted it yet. */
  datatype Owner = Nobody | MainOwns | PhilOwns(i: nat)

  /** sleepers is the kernel's sleep list, where entries of processes that have ended stay until the next tick. */
  datatype Sys = Sys(table: Table, global: Sem, forks: seq<Sem>, phils: seq<Phil>,
                     mainPid: int, main: MainPc, owner: Owner, quitting: bool,
                     sleepers: seq<SleepQueue.Entry>, now: int)

  predicate Inside(pc: Pc) {
    || pc.TakeIn? || pc.TakePostFork? || pc.TakePostGlobal?
    || pc.LeaveIn? || pc.LeavePostLeft? || pc.LeaveServeRight? || pc.LeavePostRight? || pc.LeavePostGlobal?
  }

  predicate MainInside(pc: MainPc) {
    pc.JoinIn? || pc.JoinCount? || pc.JoinPost? || pc.RemoveIn? || pc.CheckIn? || pc.RemovePost?
  }

  predicate MainQueued(pc: MainPc) {
    pc.JoinQueued? || pc.RemoveQueued? || pc.CheckQueued?
  }

  predicate Queued(pc: Pc) {
    pc.TakeQueued? || pc.LeaveQueued?
  }

  predicate Asleep(pc: Pc) {
    pc.Dozes? || pc.Savours?
  }

  predicate MainAsleep(pc: MainPc) {
    pc.PromptAsleep? || pc.RemoveAsleep?
  }

  /** main is getting rid of the last philosopher. */
  predicate MainRemoving(pc: MainPc) {
    || pc.RemoveQueued? || pc.RemoveIn? || pc.RemoveAway? || pc.RemoveAsleep? || pc.RemoveBack?
    || pc.CheckQueued? || pc.CheckIn?
  }

  // ----- steps -----

  /** Pids that the kernel finds in its process table. */
  function Alive(s: Sys): set<int> {
    {s.mainPid} + set i | 0 <= i < |s.phils| :: s.phils[i].pid
  }

  function FindPid(phils: seq<Phil>, pid: int): (i: nat)
    ensures i <= |phils| && (i < |phils| ==> phils[i].pid == pid)
    ensures forall j | 0 <= j < i :: phils[j].pid != pid
  {
    if phils == [] || phils[0].pid == pid then 0 else 1 + FindPid(phils[1..], pid)
  }

  /** Where a blocked process goes on when it is made ready, whoever does it: neither sleep nor sem_wait looks again. */
  function Woken(pc: Pc): Pc {
    match pc
    case TakeQueued => TakeIn
    case LeaveQueued => LeaveIn
    case ForkQueued => Eats
    case Dozes => Hungry
    case Savours => Full
    case _ => pc
  }

  function WokenMain(pc: MainPc): MainPc {
    match pc
    case JoinQueued => JoinIn
    case RemoveQueued => RemoveIn
    case CheckQueued => CheckIn
    case PromptAsleep => AtPrompt
    case RemoveAsleep => RemoveBack
    case _ => pc
  }

  function Goto(s: Sys, i: nat, pc: Pc): Sys
    requires i < |s.phils|
  {
    s.(phils := s.phils[i := s.phils[i].(pc := pc)])
  }

  function Wake(s: Sys, pid: int): Sys {
    var i := FindPid(s.phils, pid);
    if pid == s.mainPid then s.(main := WokenMain(s.main))
    else if i < |s.phils| then Goto(s, i, Woken(s.phils[i].pc))
    else s
  }

  /** The code does not look at what sem_wait returns: only blocking keeps a process out. */
  function PhilWaits(s: Sys, i: nat, queued: Pc, inside: Pc): Sys
    requires i < |s.phils|
  {
    var (g, r) := Wait(s.global, s.phils[i].pid);
    if r == Enqueued then Goto(s.(global := g), i, queued) else Goto(s.(global := g, owner := PhilOwns(i)), i, inside)
  }

  function MainWaits(s: Sys, queued: MainPc, inside: MainPc): Sys {
    var (g, r) := Wait(s.global, s.mainPid);
    if r == Enqueued then s.(global := g, main := queued) else s.(global := g, main := inside, owner := MainOwns)
  }

  function PostGlobal(s: Sys): Sys {
    var (g, r) := Post(s.global, Alive(s));
    if r.Handed? then
      Wake(s.(global := g, owner := if r.pid == s.mainPid then MainOwns else PhilOwns(FindPid(s.phils, r.pid))), r.pid)
    else s.(global := g, owner := Nobody)
  }

  function PostFork(s: Sys, i: nat): Sys
    requires i < |s.forks|
  {
    var (f, r) := Post(s.forks[i], Alive(s));
    var t := s.(forks := s.forks[i := f]);
    if r.Handed? then Wake(t, r.pid) else t
  }

  function WaitFork(s: Sys, i: nat): Sys
    requires i < |s.forks| && i < |s.phils|
  {
    var (f, r) := Wait(s.forks[i], s.phils[i].pid);
    Goto(s.(forks := s.forks[i := f]), i, if r == Enqueued then ForkQueued else Eats)
  }

  const TICKS_RESTING := 20
  const TICKS_REMOVING := 1
  const TICKS_AT_PROMPT := 10

  function FallAsleep(s: Sys, pid: int, ticks: nat): Sys {
    s.(sleepers := SleepQueue.Add(s.sleepers, SleepQueue.Entry(pid, s.now + ticks)))
  }

  function PhilSleeps(s: Sys, i: nat, asleep: Pc): Sys
    requires i < |s.phils|
  {
    Goto(FallAsleep(s, s.phils[i].pid, TICKS_RESTING), i, asleep)
  }

  function MainSleeps(s: Sys, ticks: nat, asleep: MainPc): Sys {
    FallAsleep(s, s.mainPid, ticks).(main := asleep)
  }

  function WakeAll(s: Sys, pids: seq<int>): Sys {
    if pids == [] then s else Wake(WakeAll(s, pids[..|pids| - 1]), pids[|pids| - 1])
  }

  /** A timer tick: entries whose pid is not live are dropped, and those that are due wake whoever has their pid now. */
  function TickStep(s: Sys): Sys {
    var (rest, woken) := SleepQueue.Sweep(s.sleepers, Alive(s), s.now + 1);
    WakeAll(s.(sleepers := rest, now := s.now + 1), woken)
  }

  predicate Sound(s: Sys) {
    ValidTable(s.table) && |s.forks| == MAX_DINER && s.table.count <= |s.phils| <= MAX_DINER
  }

  /** The next step of philosopher i; a blocked one has none. */
  function PhilStep(s: Sys, i: nat): Sys
    requires Sound(s) && i < |s.phils| && (Inside(s.phils[i].pc) ==> i < s.table.count)
  {
    match s.phils[i].pc
    case Fresh => Goto(s.(table := Set(s.table, i, Thinking)), i, Rests)
    case Rests => PhilSleeps(s, i, Dozes)
    case Hungry => PhilWaits(s, i, TakeQueued, TakeIn)
    case TakeIn =>
      var (t, post) := Take(s.table, i);
      Goto(s.(table := t), i, if post then TakePostFork else TakePostGlobal)
    case TakePostFork => PostFork(Goto(s, i, TakePostGlobal), i)
    case TakePostGlobal => PostGlobal(Goto(s, i, WantsFork))
    case WantsFork => WaitFork(s, i)
    case Eats => PhilSleeps(s, i, Savours)
    case Full => PhilWaits(s, i, LeaveQueued, LeaveIn)
    case LeaveIn =>
      var (t, post) := LeaveLeft(s.table, i);
      Goto(s.(table := t), i, if post then LeavePostLeft else LeaveServeRight)
    case LeavePostLeft => PostFork(Goto(s, i, LeaveServeRight), Pred(i, s.table.count))
    case LeaveServeRight =>
      var (t, post) := LeaveRight(s.table, i);
      Goto(s.(table := t), i, if post then LeavePostRight else LeavePostGlobal)
    case LeavePostRight => PostFork(Goto(s, i, LeavePostGlobal), Succ(i, s.table.count))
    case LeavePostGlobal => PostGlobal(Goto(s, i, Rests))
    case _ => s
  }

  datatype Command = Add(pid: int) | Remove | Quit | Look

  /** The next step of phylo_main; a command matters at the prompt, and the pid of a new process when it is created. */
  function MainStep(s: Sys, c: Command): Sys
    requires Sound(s)
  {
    match s.main
    case AtPrompt => (
      match c
      case Add(_) => if s.table.count < MAX_DINER && !s.quitting then MainWaits(s, JoinQueued, JoinIn) else s
      case Remove => if s.table.count > (if s.quitting then 0 else MIN_DINER) then MainWaits(s, RemoveQueued, RemoveIn) else s
      case Quit => s.(quitting := true)
      case Look => MainSleeps(s, TICKS_AT_PROMPT, PromptAsleep))
    case JoinIn =>
      if c.Add? && |s.phils| < MAX_DINER then
        s.(forks := s.forks[s.table.count := Open(s.forks[s.table.count], 0)], phils := s.phils + [Phil(c.pid, Fresh)], main := JoinCount)
      else s
    case JoinCount => if s.table.count < MAX_DINER then s.(table := Join(s.table), main := JoinPost) else s
    case JoinPost => PostGlobal(s.(main := AtPrompt))
    case RemoveIn => PostGlobal(s.(main := RemoveAway))
    case RemoveAway => MainSleeps(s, TICKS_REMOVING, RemoveAsleep)
    case RemoveBack => MainWaits(s, CheckQueued, CheckIn)
    case CheckIn =>
      if s.table.count == 0 then s
      else
        var last := s.table.count - 1;
        if MustStay(s.table, last) then PostGlobal(s.(main := RemoveAway))
        else
          s.(table := Depart(s.table, last), phils := s.phils[..last],
             forks := s.forks[last := Close(s.forks[last], Alive(s) - {s.phils[last].pid}).0], main := RemovePost)
    case RemovePost => PostGlobal(s.(main := AtPrompt))
    case _ => s
  }

  /** OtherDies: a process that has nothing to do with the table ends while it is asleep. */
  datatype Event = PhilActs(i: nat) | MainActs(c: Command) | Tick | OtherDies(pid: int, wake: int)

  /** A new process gets a pid from 1 to 20 that is free. */
  predicate Enabled(s: Sys, e: Event) {
    match e
    case PhilActs(i) => i < |s.phils|
    case MainActs(c) =>
      s.main == JoinIn ==> c.Add? && c.pid !in Alive(s) && 1 <= c.pid <= MAX_PROCESSES
    case Tick => true
    case OtherDies(pid, _) => pid !in Alive(s)
  }

  /** The pid of a new philosopher is none that the sleep list still holds. */
  ghost predicate Prudent(s: Sys, e: Event) {
    e.MainActs? && s.main == JoinIn && e.c.Add? ==> !SleepQueue.Has(s.sleepers, e.c.pid)
  }

  function Next(s: Sys, e: Event): Sys
    requires Sound(s) && Enabled(s, e) && (e.PhilActs? && Inside(s.phils[e.i].pc) ==> e.i < s.table.count)
  {
    match e
    case PhilActs(i) => PhilStep(s, i)
    case MainActs(c) => MainStep(s, c)
    case Tick => TickStep(s)
    case OtherDies(pid, wake) => s.(sleepers := SleepQueue.Add(s.sleepers, SleepQueue.Entry(pid, wake)))
  }

  // ----- the invariant -----

  /** Until it is counted, a new philosopher has got no further than the queue of the global semaphore. */
  predicate NewcomerOut(s: Sys) {
    s.main == JoinCount && s.table.count < |s.phils| ==>
      var pc := s.phils[s.table.count].pc; pc.Fresh? || pc.Rests? || pc.Dozes? || pc.Hungry? || pc.TakeQueued?
  }

  ghost predicate Shape(s: Sys) {
    && Sound(s) && |s.phils| == s.table.count + (if s.main == JoinCount then 1 else 0)
    && (forall j | |s.phils| <= j < MAX_DINER :: s.table.states[j] == Absent && s.forks[j] == Sem(CLOSED, []))
    && (s.main.JoinQueued? || s.main.JoinIn? ==> s.table.count < MAX_DINER)
    && (MainRemoving(s.main) ==> s.table.count > if s.quitting then 0 else MIN_DINER)
    && NewcomerOut(s)
  }

  /** The global semaphore has a unit left exactly when nobody is inside, and only its owner is inside. */
  ghost predicate Owned(s: Sys) {
    && s.global.value == (if s.owner == Nobody then 1 else 0)
    && (s.owner.PhilOwns? ==> s.owner.i < s.table.count)
    && (forall i | 0 <= i < |s.phils| :: Inside(s.phils[i].pc) <==> s.owner == PhilOwns(i))
    && (MainInside(s.main) <==> s.owner == MainOwns)
  }

  ghost predicate Pids(s: Sys) {
    && 1 <= s.mainPid <= MAX_PROCESSES
    && (forall i | 0 <= i < |s.phils| :: 1 <= s.phils[i].pid <= MAX_PROCESSES && s.phils[i].pid != s.mainPid)
    && forall i, j | 0 <= i < j < |s.phils| :: s.phils[i].pid != s.phils[j].pid
  }

  /** Of the processes alive, exactly those that wait for the global semaphore are in its queue. */
  ghost predicate Queues(s: Sys) {
    && Pids(s) && SemInv(s.global) && Distinct(s.global.queue)
    && (forall p <- s.global.queue :: 1 <= p <= MAX_PROCESSES)
    && (s.mainPid in s.global.queue <==> MainQueued(s.main))
    && forall i | 0 <= i < |s.phils| :: s.phils[i].pid in s.global.queue <==> Queued(s.phils[i].pc)
  }

  /** Philosopher i has been given the forks by whoever is inside, who has yet to post its semaphore. */
  ghost predicate Pending(s: Sys, i: nat) {
    && s.owner.PhilOwns? && s.owner.i < |s.phils| && s.owner.i < s.table.count
    && match s.phils[s.owner.i].pc
       case TakePostFork => i == s.owner.i
       case LeavePostLeft => i == Pred(s.owner.i, s.table.count)
       case LeavePostRight => i == Succ(s.owner.i, s.table.count)
       case _ => false
  }

  /** The state of a philosopher that goes with each point of its program. */
  predicate Fits(st: State, pc: Pc) {
    match pc
    case Fresh => st == Absent
    case Rests => st == Thinking
    case Dozes => st == Thinking
    case Hungry => st == Thinking
    case TakeQueued => st == Thinking
    case TakeIn => st == Thinking
    case TakePostFork => st == Eating
    case TakePostGlobal => st == Waiting || st == Eating
    case WantsFork => st == Waiting || st == Eating
    case ForkQueued => st == Waiting || st == Eating
    case Eats => st == Eating
    case Savours => st == Eating
    case Full => st == Eating
    case LeaveQueued => st == Eating
    case LeaveIn => st == Eating
    case _ => st == Thinking
  }

  /** Between the return of take_forks and the call of leave_forks. */
  predicate AtMeal(pc: Pc) { pc.Eats? || pc.Savours? || pc.Full? }

  predicate HasFork(pc: Pc) { AtMeal(pc) || pc.LeaveQueued? || pc.LeaveIn? }

  /**
   A philosopher's own semaphore carries the right to eat: one unit, held, left or about
   to be posted, exactly while its state is Eating.
   */
  predicate ForkOk(st: State, f: Sem, p: Phil, pending: bool) {
    && Fits(st, p.pc)
    && (pending ==> st == Eating && !HasFork(p.pc))
    && f.value == (if st == Eating && !HasFork(p.pc) && !pending then 1 else 0)
    && f.queue == (if p.pc == ForkQueued then [p.pid] else [])
    && (p.pc == ForkQueued ==> f.value == 0)
  }

  ghost predicate Forks(s: Sys)
    requires Sound(s)
  {
    forall i | 0 <= i < |s.phils| :: ForkOk(s.table.states[i], s.forks[i], s.phils[i], Pending(s, i))
  }

  ghost predicate SysInv(s: Sys) {
    Shape(s) && Owned(s) && Queues(s) && Forks(s) && Apart(s.table)
  }

  /** main has come in by the queue, or found it empty, and has removed nobody since. */
  predicate MainCameIn(pc: MainPc) {
    pc.JoinIn? || pc.JoinCount? || pc.JoinPost? || pc.RemoveIn? || pc.CheckIn?
  }

  /**
   The pid of a philosopher that main has removed may stand in the queue of the global
   semaphore, but only in front of main: once main is inside again it is gone.
   */
  ghost predicate StaleInFront(s: Sys) {
    OnlyInFront(s.global.queue, s.mainPid, Alive(s), MainCameIn(s.main))
  }

  ghost predicate OnlyInFront(queue: seq<int>, pid: int, alive: set<int>, all: bool) {
    forall j | 0 <= j < |queue| && (all || pid in queue[..j]) :: queue[j] in alive
  }

  /** Of the processes alive, exactly those that are asleep have an entry in the sleep list, and only one. */
  ghost predicate SleepersMatch(s: Sys) {
    && (forall i | 0 <= i < |s.phils| :: SleepQueue.Has(s.sleepers, s.phils[i].pid) <==> Asleep(s.phils[i].pc))
    && (SleepQueue.Has(s.sleepers, s.mainPid) <==> MainAsleep(s.main))
    && OneEach(s.sleepers, Alive(s))
  }

  ghost predicate OneEach(q: seq<SleepQueue.Entry>, alive: set<int>) {
    forall e, f | e in q && f in q && e.pid == f.pid && e.pid in alive :: e == f
  }

  /** What every state satisfies that a run reaches in which no pid is reused too soon. */
  ghost predicate FullInv(s: Sys) {
    SysInv(s) && StaleInFront(s) && SleepersMatch(s)
  }

  // ----- what a step leaves alone -----

  lemma ShapeFrame(s: Sys, t: Sys)
    requires Shape(s) && Sound(t) && NewcomerOut(t)
    requires t.main == s.main && t.quitting == s.quitting && t.table.count == s.table.count && |t.phils| == |s.phils|
    requires forall j | |s.phils| <= j < MAX_DINER :: t.table.states[j] == s.table.states[j] && t.forks[j] == s.forks[j]
    ensures Shape(t)
  {
  }

  lemma OwnedFrame(s: Sys, t: Sys)
    requires Owned(s) && t.global == s.global && t.owner == s.owner && t.main == s.main && t.table.count == s.table.count
    requires |t.phils| == |s.phils| && forall j | 0 <= j < |s.phils| :: Inside(t.phils[j].pc) == Inside(s.phils[j].pc)
    ensures Owned(t)
  {
  }

  ghost predicate SamePids(s: Sys, t: Sys) {
    && t.mainPid == s.mainPid && |t.phils| == |s.phils|
    && forall j | 0 <= j < |s.phils| :: t.phils[j].pid == s.phils[j].pid
  }

  lemma QueuesFrame(s: Sys, t: Sys)
    requires Queues(s) && t.global == s.global && t.main == s.main && SamePids(s, t)
    requires forall j | 0 <= j < |s.phils| :: Queued(t.phils[j].pc) == Queued(s.phils[j].pc)
    ensures Queues(t)
  {
    hide Pids;
    PidsFrame(s, t);
  }

  lemma Facts(s: Sys, i: nat)
    requires SysInv(s) && i < |s.phils|
    ensures Sound(s) && NewcomerOut(s) && ForkOk(s.table.states[i], s.forks[i], s.phils[i], Pending(s, i))
    ensures Inside(s.phils[i].pc) <==> s.owner == PhilOwns(i)
    ensures s.owner == PhilOwns(i) ==> i < s.table.count && s.main != JoinCount && |s.phils| == s.table.count
    ensures 1 <= s.phils[i].pid <= MAX_PROCESSES && (s.phils[i].pid in s.global.queue <==> Queued(s.phils[i].pc))
    ensures s.main == JoinCount && i == s.table.count ==>
              var pc := s.phils[i].pc; pc.Fresh? || pc.Rests? || pc.Dozes? || pc.Hungry? || pc.TakeQueued?
  {
  }

  // ----- every step keeps the invariant -----

  lemma FindPidAt(phils: seq<Phil>, i: nat)
    requires i < |phils| && forall j, k | 0 <= j < k < |phils| :: phils[j].pid != phils[k].pid
    ensures FindPid(phils, phils[i].pid) == i
  {
  }

  predicate Knocks(pc: Pc, queued: Pc, inside: Pc) {
    (pc == Hungry && queued == TakeQueued && inside == TakeIn) || (pc == Full && queued == LeaveQueued && inside == LeaveIn)
  }

  lemma WaitsOwned(s: Sys, i: nat, queued: Pc, inside: Pc)
    requires Shape(s) && Owned(s) && Queues(s) && i < |s.phils| && Knocks(s.phils[i].pc, queued, inside)
    ensures var t := PhilWaits(s, i, queued, inside); Owned(t) && Queues(t)
  {
    RingNeverFull(s.global, s.phils[i].pid);
    var t := PhilWaits(s, i, queued, inside);
    WaitsQueues(s, i, queued, inside);
  }

  lemma WaitsQueues(s: Sys, i: nat, queued: Pc, inside: Pc)
    requires Queues(s) && i < |s.phils| && Knocks(s.phils[i].pc, queued, inside) && s.global.value >= 0
    ensures Queues(PhilWaits(s, i, queued, inside))
  {
    RingNeverFull(s.global, s.phils[i].pid);
    var t := PhilWaits(s, i, queued, inside);
    forall j | 0 <= j < |s.phils|
      ensures t.phils[j].pid == s.phils[j].pid && (t.phils[j].pid in t.global.queue <==> Queued(t.phils[j].pc)) { }
  }

  lemma WaitsForks(s: Sys, i: nat, queued: Pc, inside: Pc)
    requires Sound(s) && Owned(s) && Forks(s) && i < |s.phils| && Knocks(s.phils[i].pc, queued, inside)
    requires s.global.value == 0 ==> |s.global.queue| < MAX_PROCESSES
    ensures Forks(PhilWaits(s, i, queued, inside))
  {
    hide ForkOk;
    var t := PhilWaits(s, i, queued, inside);
    forall j | 0 <= j < |s.phils| ensures Pending(t, j) == Pending(s, j) { }
    forall j | 0 <= j < |t.phils| ensures ForkOk(t.table.states[j], t.forks[j], t.phils[j], Pending(t, j)) {
      assert ForkOk(s.table.states[j], s.forks[j], s.phils[j], Pending(s, j));
      if j == i { ForkSame(s.table.states[i], s.forks[i], s.phils[i], t.phils[i].pc, Pending(s, i)); }
    }
  }

  /** A philosopher's semaphore is as it must be whether it waits to come in or is inside, is asleep or awake. */
  predicate SameFork(pc: Pc, next: Pc) {
    || SameDuty(pc, next)
    || ((pc == Hungry || pc == TakeQueued) && (next == TakeQueued || next == TakeIn))
    || ((pc == Full || pc == LeaveQueued) && (next == LeaveQueued || next == LeaveIn))
  }

  lemma ForkSame(st: State, f: Sem, p: Phil, next: Pc, pending: bool)
    requires ForkOk(st, f, p, pending) && SameFork(p.pc, next)
    ensures ForkOk(st, f, p.(pc := next), pending)
  {
  }

  lemma PhilWaitsKeeps(s: Sys, i: nat, queued: Pc, inside: Pc)
    requires SysInv(s) && i < |s.phils| && Knocks(s.phils[i].pc, queued, inside)
    ensures SysInv(PhilWaits(s, i, queued, inside))
  {
    hide Shape, Owned, Queues, Forks, Apart, PhilWaits, NewcomerOut, Pending;
    Facts(s, i);
    WaitsOwned(s, i, queued, inside);
    RoomInRing(s, s.phils[i].pid);
    WaitsForks(s, i, queued, inside);
    WaitsOut(s, i, queued, inside);
    WaitsSame(s, i, queued, inside);
    ShapeFrame(s, PhilWaits(s, i, queued, inside));
  }

  lemma WaitsSame(s: Sys, i: nat, queued: Pc, inside: Pc)
    requires i < |s.phils|
    ensures Unmoved(s, PhilWaits(s, i, queued, inside))
  {
    hide Wait, Goto;
    var (g, r) := Wait(s.global, s.phils[i].pid);
    GotoUnmoved(s, s.(global := g), i, queued);
    GotoUnmoved(s, s.(global := g, owner := PhilOwns(i)), i, inside);
  }

  /** The table, the philosophers' semaphores and main are as they were. */
  ghost predicate Unmoved(s: Sys, t: Sys) {
    t.table == s.table && t.forks == s.forks && |t.phils| == |s.phils| && t.main == s.main && t.quitting == s.quitting
  }

  lemma GotoUnmoved(s: Sys, t: Sys, i: nat, pc: Pc)
    requires Unmoved(s, t) && i < |t.phils|
    ensures Unmoved(s, Goto(t, i, pc))
  {
  }

  lemma RoomInRing(s: Sys, pid: int)
    requires Queues(s) && pid !in s.global.queue && 1 <= pid <= MAX_PROCESSES
    ensures |s.global.queue| < MAX_PROCESSES
  {
    RingNeverFull(s.global, pid);
  }

  lemma WaitsOut(s: Sys, i: nat, queued: Pc, inside: Pc)
    requires SysInv(s) && i < |s.phils| && Knocks(s.phils[i].pc, queued, inside)
    requires |s.global.queue| < MAX_PROCESSES
    ensures NewcomerOut(PhilWaits(s, i, queued, inside))
  {
    hide Forks, Queues, Apart;
  }

  // ----- posting the global semaphore -----

  /** The owner of the global semaphore has finished inside and is about to post it. */
  ghost predicate Leaving(t: Sys) {
    && Shape(t) && Queues(t) && Apart(t.table) && QuietForks(t)
    && t.global.value == 0 && !MainInside(t.main) && NobodyInside(t)
  }

  ghost predicate NobodyInside(t: Sys) {
    forall j | 0 <= j < |t.phils| :: !Inside(t.phils[j].pc)
  }

  ghost predicate QuietForks(t: Sys)
    requires Sound(t)
  {
    forall j | 0 <= j < |t.phils| :: ForkOk(t.table.states[j], t.forks[j], t.phils[j], false)
  }

  /** What a post of the global semaphore comes to: it goes to main, to a queued philosopher, or to nobody. */
  lemma PostGlobalForm(t: Sys) returns (k: nat)
    requires Queues(t) && t.global.value == 0
    ensures match Post(t.global, Alive(t)).1
      case Rejected => false
      case Counted => PostGlobal(t) == t.(global := Sem(1, []), owner := Nobody)
      case Handed(p) =>
        if p == t.mainPid then
          MainQueued(t.main) && PostGlobal(t) == t.(global := Post(t.global, Alive(t)).0, owner := MainOwns, main := WokenMain(t.main))
        else
          k < |t.phils| && p == t.phils[k].pid && Queued(t.phils[k].pc)
          && PostGlobal(t) == Goto(t.(global := Post(t.global, Alive(t)).0, owner := PhilOwns(k)), k, Woken(t.phils[k].pc))
  {
    k := 0;
    PostServesFirstLive(t.global, Alive(t));
    var r := Post(t.global, Alive(t)).1;
    if r.Handed? && r.pid != t.mainPid {
      assert r.pid in Alive(t);
      k :| k < |t.phils| && t.phils[k].pid == r.pid;
      FindPidAt(t.phils, k);
    }
  }

  lemma AliveHas(t: Sys)
    ensures t.mainPid in Alive(t) && forall j | 0 <= j < |t.phils| :: t.phils[j].pid in Alive(t)
  {
  }

  lemma PidsFrame(s: Sys, t: Sys)
    requires Pids(s) && SamePids(s, t)
    ensures Pids(t)
  {
  }

  lemma PostGlobalQueues(t: Sys)
    requires Queues(t) && t.global.value == 0
    ensures Queues(PostGlobal(t))
  {
    hide PostGlobal, Post, Wake, FindPid, Alive, Distinct, Pids, SemInv;
    var k := PostGlobalForm(t);
    var u := PostGlobal(t);
    PostedQueue(t.global, Alive(t));
    PidsFrame(t, u);
    PostGlobalMain(t);
    forall j | 0 <= j < |t.phils| ensures u.phils[j].pid in u.global.queue <==> Queued(u.phils[j].pc) { PostGlobalQueued(t, j); }
  }

  lemma PostedQueue(g: Sem, alive: set<int>)
    requires SemInv(g) && Distinct(g.queue) && g.value == 0
    ensures var (u, r) := Post(g, alive);
            && SemInv(u) && Distinct(u.queue) && (forall p <- u.queue :: p in g.queue) && (r == Counted ==> u == Sem(1, []))
  {
    hide Post, Distinct;
    PostServesFirstLive(g, alive);
    PostKeepsDistinct(g, alive);
    forall p | p in Post(g, alive).0.queue ensures p in g.queue { PostKeepsQueue(g, alive, p); }
  }

  lemma PostGlobalMain(t: Sys)
    requires Queues(t) && t.global.value == 0
    ensures var u := PostGlobal(t); u.mainPid == t.mainPid && (t.mainPid in u.global.queue <==> MainQueued(u.main))
  {
    hide PostGlobal, Post, Wake, FindPid, Alive, Distinct, Pids;
    var k := PostGlobalForm(t);
    AliveHas(t);
    PidsDiffer(t);
    PostServesFirstLive(t.global, Alive(t));
    PostKeepsQueue(t.global, Alive(t), t.mainPid);
  }

  lemma PostGlobalQueued(t: Sys, j: nat)
    requires Queues(t) && t.global.value == 0 && j < |t.phils|
    ensures var u := PostGlobal(t); |u.phils| == |t.phils| && (u.phils[j].pid in u.global.queue <==> Queued(u.phils[j].pc))
  {
    hide PostGlobal, Post, Wake, FindPid, Alive, Distinct, Pids;
    var k := PostGlobalForm(t);
    AliveHas(t);
    PidsDiffer(t);
    PostServesFirstLive(t.global, Alive(t));
    PostKeepsQueue(t.global, Alive(t), t.phils[j].pid);
  }

  lemma PidsDiffer(s: Sys)
    requires Pids(s)
    ensures forall i | 0 <= i < |s.phils| :: s.phils[i].pid != s.mainPid
    ensures forall i, j | 0 <= i < |s.phils| && 0 <= j < |s.phils| && i != j :: s.phils[i].pid != s.phils[j].pid
  {
  }

  lemma PostGlobalOwned(t: Sys)
    requires Queues(t) && t.global.value == 0 && !MainInside(t.main) && NobodyInside(t)
    requires |t.phils| == t.table.count
    ensures Owned(PostGlobal(t))
  {
    hide PostGlobal, Post, Wake, FindPid, Alive, Queues;
    var k := PostGlobalForm(t);
    PostServesFirstLive(t.global, Alive(t));
  }

  lemma PostGlobalForks(t: Sys)
    requires Queues(t) && t.global.value == 0 && Sound(t) && QuietForks(t)
    ensures Sound(PostGlobal(t)) && Forks(PostGlobal(t)) && PostGlobal(t).table == t.table
  {
    hide ForkOk, PostGlobal, Post, Alive, Queues;
    var k := PostGlobalForm(t);
    var u := PostGlobal(t);
    forall j | 0 <= j < |u.phils| ensures ForkOk(u.table.states[j], u.forks[j], u.phils[j], Pending(u, j)) {
      assert ForkOk(t.table.states[j], t.forks[j], t.phils[j], false);
      if u.phils[j].pc != t.phils[j].pc {
        ForkSame(t.table.states[j], t.forks[j], t.phils[j], u.phils[j].pc, false);
      }
    }
  }

  lemma PostGlobalShape(t: Sys)
    requires Shape(t) && Queues(t) && t.global.value == 0 && !MainInside(t.main)
    ensures Shape(PostGlobal(t))
  {
    var k := PostGlobalForm(t);
  }

  lemma PostGlobalKeeps(t: Sys)
    requires Leaving(t)
    ensures SysInv(PostGlobal(t))
  {
    hide Shape, Owned, Queues, Forks, Apart, QuietForks, NobodyInside;
    LeavingFacts(t);
    PostGlobalShape(t);
    PostGlobalOwned(t);
    PostGlobalQueues(t);
    PostGlobalForks(t);
  }

  lemma LeavingFacts(t: Sys)
    requires Leaving(t)
    ensures Sound(t) && |t.phils| == t.table.count
  {
  }

  /** A philosopher inside with nothing left to post but the global semaphore. */
  lemma PhilLeaves(s: Sys, i: nat, next: Pc)
    requires SysInv(s) && i < |s.phils|
    requires (s.phils[i].pc == TakePostGlobal && next == WantsFork) || (s.phils[i].pc == LeavePostGlobal && next == Rests)
    ensures Leaving(Goto(s, i, next))
  {
    hide Shape, Queues, Forks, Apart;
    Facts(s, i);
    var t := Goto(s, i, next);
    QueuesFrame(s, t);
    ShapeFrame(s, t);
    forall j | 0 <= j < |t.phils| ensures ForkOk(t.table.states[j], t.forks[j], t.phils[j], false) { Facts(s, j); }
  }

  lemma MainLeaves(s: Sys, next: MainPc)
    requires SysInv(s) && (next == AtPrompt || next == RemoveAway)
    requires match s.main
      case JoinPost => next == AtPrompt
      case RemovePost => next == AtPrompt
      case RemoveIn => next == RemoveAway
      case CheckIn => next == RemoveAway
      case _ => false
    ensures Leaving(s.(main := next))
  {
    var t := s.(main := next);
    forall j | 0 <= j < |t.phils| ensures ForkOk(t.table.states[j], t.forks[j], t.phils[j], false) { Facts(s, j); }
  }

  // ----- posting and waiting for a philosopher's own semaphore -----

  predicate Serves(pc: Pc, next: Pc, i: nat, k: nat, n: nat)
    requires i < n
  {
    || (pc == TakePostFork && next == TakePostGlobal && k == i)
    || (pc == LeavePostLeft && next == LeaveServeRight && k == Pred(i, n))
    || (pc == LeavePostRight && next == LeavePostGlobal && k == Succ(i, n))
  }

  /** A post to a philosopher that has been given the forks lets it eat, now or when it comes to wait. */
  lemma PostForkForm(s: Sys, i: nat, k: nat, next: Pc)
    requires SysInv(s) && i < s.table.count && i < |s.phils| && Serves(s.phils[i].pc, next, i, k, s.table.count)
    ensures k < |s.phils| && k < |s.forks| && Pending(s, k) && s.owner == PhilOwns(i)
    ensures PostFork(Goto(s, i, next), k) ==
            if s.phils[k].pc == ForkQueued then Goto(Goto(s.(forks := s.forks[k := Sem(0, [])]), i, next), k, Eats)
            else Goto(s.(forks := s.forks[k := Sem(1, [])]), i, next)
    ensures s.phils[k].pc == ForkQueued ==> k != i
  {
    hide Apart, Queues, Shape, Forks, Owned, FindPid, Alive, Post;
    Facts(s, i);
    Facts(s, k);
    var alive := Alive(Goto(s, i, next));
    PostToOne(s.phils[k].pid, alive);
    if s.phils[k].pc == ForkQueued { FindAfterGoto(s, i, next, k); }
  }

  lemma PostToOne(p: int, alive: set<int>)
    ensures p in alive ==> Post(Sem(0, [p]), alive) == (Sem(0, []), Handed(p))
    ensures Post(Sem(0, []), alive) == (Sem(1, []), Counted)
  {
    assert p in alive ==> Taken([p], alive) == 1 && [p][1..] == [];
  }

  lemma FindAfterGoto(s: Sys, i: nat, next: Pc, k: nat)
    requires Queues(s) && i < |s.phils| && k < |s.phils|
    ensures var t := Goto(s, i, next);
            t.phils[k].pid == s.phils[k].pid && s.phils[k].pid in Alive(t) && s.phils[k].pid != s.mainPid
            && FindPid(t.phils, s.phils[k].pid) == k
  {
    FindPidAt(Goto(s, i, next).phils, k);
  }

  lemma PostForkFields(s: Sys, i: nat, k: nat, next: Pc)
    requires SysInv(s) && i < s.table.count && i < |s.phils| && Serves(s.phils[i].pc, next, i, k, s.table.count)
    ensures k < |s.phils| && k < |s.forks| && k < |Goto(s, i, next).forks| && Pending(s, k) && s.owner == PhilOwns(i)
    ensures var u := PostFork(Goto(s, i, next), k);
            && u.table == s.table && u.owner == s.owner && |u.phils| == |s.phils| && |u.forks| == |s.forks|
            && u.phils[i].pc == next
            && (forall j | 0 <= j < |u.phils| ::
                  u.phils[j] == if j == i then s.phils[j].(pc := next)
                                else if j == k && s.phils[j].pc == ForkQueued then s.phils[j].(pc := Eats)
                                else s.phils[j])
            && forall j | 0 <= j < |u.forks| ::
                 u.forks[j] == if j == k then Sem(if s.phils[k].pc == ForkQueued then 0 else 1, []) else s.forks[j]
  {
    hide SysInv, PostFork, Pending;
    PostForkForm(s, i, k, next);
  }

  lemma PostForkForks(s: Sys, i: nat, k: nat, next: Pc)
    requires SysInv(s) && i < s.table.count && i < |s.phils| && Serves(s.phils[i].pc, next, i, k, s.table.count)
    ensures k < |s.forks| && Sound(PostFork(Goto(s, i, next), k)) && Forks(PostFork(Goto(s, i, next), k))
  {
    hide Apart, Queues, Shape, Owned, SysInv, PostFork, Pending, ForkOk, Goto;
    Facts(s, i);
    PostForkFields(s, i, k, next);
    var u := PostFork(Goto(s, i, next), k);
    forall j | 0 <= j < |u.phils| ensures ForkOk(u.table.states[j], u.forks[j], u.phils[j], Pending(u, j)) {
      ForkFacts(s, j);
      NothingPending(u, j);
      PendingOnly(s, i, k, next, j);
      if j == k { ForkServed(s.table.states[k], s.forks[k], s.phils[k]); }
      if j == i { ForkMoved(s.table.states[i], u.forks[i], s.phils[i], next, i, k, s.table.count); }
    }
  }

  /** The unit that was pending is held or left once it has been posted. */
  lemma ForkServed(st: State, f: Sem, p: Phil)
    requires ForkOk(st, f, p, true)
    ensures if p.pc == ForkQueued then ForkOk(st, Sem(0, []), p.(pc := Eats), false) else ForkOk(st, Sem(1, []), p, false)
  {
  }

  /** The one who posts goes on, which makes no difference to its own semaphore. */
  lemma ForkMoved(st: State, f: Sem, p: Phil, next: Pc, i: nat, k: nat, n: nat)
    requires i < n && Serves(p.pc, next, i, k, n)
    ensures ForkOk(st, f, p, false) ==> ForkOk(st, f, p.(pc := next), false)
  {
  }

  lemma ForkFacts(s: Sys, j: nat)
    requires SysInv(s) && j < |s.phils|
    ensures Sound(s) && ForkOk(s.table.states[j], s.forks[j], s.phils[j], Pending(s, j))
  {
  }

  lemma NothingPending(u: Sys, j: nat)
    requires u.owner.PhilOwns? && u.owner.i < |u.phils|
    requires var pc := u.phils[u.owner.i].pc; pc == TakePostGlobal || pc == LeaveServeRight || pc == LeavePostGlobal
    ensures !Pending(u, j)
  {
  }

  lemma PendingOnly(s: Sys, i: nat, k: nat, next: Pc, j: nat)
    requires s.owner == PhilOwns(i) && i < s.table.count && i < |s.phils| && Serves(s.phils[i].pc, next, i, k, s.table.count)
    ensures Pending(s, j) <==> j == k
  {
  }

  lemma PostForkInside(s: Sys, i: nat, k: nat, next: Pc)
    requires SysInv(s) && i < s.table.count && i < |s.phils| && Serves(s.phils[i].pc, next, i, k, s.table.count)
    ensures k < |Goto(s, i, next).forks|
    ensures var u := PostFork(Goto(s, i, next), k);
            && |u.phils| == |s.phils| && NewcomerOut(u)
            && (forall j | 0 <= j < |s.phils| ::
                  Inside(u.phils[j].pc) == Inside(s.phils[j].pc) && Queued(u.phils[j].pc) == Queued(s.phils[j].pc))
  {
    hide Shape, Owned, Queues, Forks, Apart, PostFork;
    Facts(s, i);
    PostForkForm(s, i, k, next);
  }

  lemma PostForkKeeps(s: Sys, i: nat, k: nat, next: Pc)
    requires SysInv(s) && i < s.table.count && i < |s.phils| && Serves(s.phils[i].pc, next, i, k, s.table.count)
    ensures k < |s.forks| && SysInv(PostFork(Goto(s, i, next), k))
  {
    hide Shape, Owned, Queues, Forks, Apart, PostFork;
    Facts(s, i);
    PostForkForm(s, i, k, next);
    var u := PostFork(Goto(s, i, next), k);
    PostForkForks(s, i, k, next);
    PostForkInside(s, i, k, next);
    ShapeFrame(s, u);
    OwnedFrame(s, u);
    QueuesFrame(s, u);
  }

  lemma WaitForkForks(s: Sys, i: nat)
    requires SysInv(s) && i < |s.phils| && s.phils[i].pc == WantsFork
    ensures i < |s.forks| && Sound(WaitFork(s, i)) && Forks(WaitFork(s, i))
  {
    hide Shape, Owned, Queues, Apart;
    Facts(s, i);
    var u := WaitFork(s, i);
    forall j | 0 <= j < |u.phils| ensures ForkOk(u.table.states[j], u.forks[j], u.phils[j], Pending(u, j)) {
      Facts(s, j);
      PendingFrame(s, u, j);
    }
  }

  lemma WaitForkKeeps(s: Sys, i: nat)
    requires SysInv(s) && i < |s.phils| && s.phils[i].pc == WantsFork
    ensures i < |s.forks| && SysInv(WaitFork(s, i))
  {
    hide Shape, Owned, Queues, Forks, Apart;
    Facts(s, i);
    var u := WaitFork(s, i);
    ShapeFrame(s, u);
    OwnedFrame(s, u);
    QueuesFrame(s, u);
    WaitForkForks(s, i);
  }

  lemma PendingFrame(s: Sys, t: Sys, j: nat)
    requires t.owner == s.owner && t.table.count == s.table.count && |t.phils| == |s.phils|
    requires s.owner.PhilOwns? && s.owner.i < |s.phils| ==> t.phils[s.owner.i].pc == s.phils[s.owner.i].pc
    ensures Pending(t, j) == Pending(s, j)
  {
  }

  // ----- changing the table -----

  /** A step of a philosopher that changes states only, and its own place in its program. */
  lemma TableStepKeeps(s: Sys, i: nat, t: Table, next: Pc)
    requires SysInv(s) && i < |s.phils| && ValidTable(t) && t.count == s.table.count && Apart(t)
    requires Inside(next) == Inside(s.phils[i].pc) && Queued(next) == Queued(s.phils[i].pc)
    requires forall j | |s.phils| <= j < MAX_DINER :: t.states[j] == s.table.states[j]
    requires NewcomerOut(Goto(s.(table := t), i, next))
    requires Forks(Goto(s.(table := t), i, next))
    ensures SysInv(Goto(s.(table := t), i, next))
  {
    hide Shape, Owned, Queues, Forks, Apart;
    Facts(s, i);
    var u := Goto(s.(table := t), i, next);
    ShapeFrame(s, u);
    OwnedFrame(s, u);
    QueuesFrame(s, u);
  }

  lemma FreshKeeps(s: Sys, i: nat)
    requires SysInv(s) && i < |s.phils| && s.phils[i].pc == Fresh
    ensures Sound(s) && SysInv(PhilStep(s, i))
  {
    hide Shape, Owned, Queues;
    Facts(s, i);
    var t := Set(s.table, i, Thinking);
    var u := Goto(s.(table := t), i, Rests);
    forall j | 0 <= j < |u.phils| ensures ForkOk(u.table.states[j], u.forks[j], u.phils[j], Pending(u, j)) {
      Facts(s, j);
      PendingFrame(s, u, j);
    }
    TableStepKeeps(s, i, t, Rests);
  }

  lemma TakeForks(s: Sys, i: nat)
    requires SysInv(s) && i < |s.phils| && s.phils[i].pc == TakeIn
    ensures i < s.table.count && Sound(s)
    ensures Forks(PhilStep(s, i))
  {
    hide Shape, Owned, Queues, Apart;
    Facts(s, i);
    var u := PhilStep(s, i);
    forall j | 0 <= j < |u.phils| ensures ForkOk(u.table.states[j], u.forks[j], u.phils[j], Pending(u, j)) {
      Facts(s, j);
    }
  }

  lemma TakeKeeps(s: Sys, i: nat)
    requires SysInv(s) && i < |s.phils| && s.phils[i].pc == TakeIn
    ensures i < s.table.count && Sound(s) && SysInv(PhilStep(s, i))
  {
    hide Shape, Owned, Queues, Forks, Apart;
    Facts(s, i);
    TakeApart(s.table, i);
    TakeForks(s, i);
    var (t, post) := Take(s.table, i);
    TableStepKeeps(s, i, t, if post then TakePostFork else TakePostGlobal);
  }

  /** Putting the forks down. */
  lemma DownForks(s: Sys, i: nat)
    requires SysInv(s) && i < |s.phils| && s.phils[i].pc == LeaveIn
    ensures i < s.table.count && Sound(s) && Forks(Goto(s.(table := Set(s.table, i, Thinking)), i, LeaveServeRight))
  {
    hide Shape, Owned, Queues, Apart;
    Facts(s, i);
    var u := Goto(s.(table := Set(s.table, i, Thinking)), i, LeaveServeRight);
    forall j | 0 <= j < |u.phils| ensures ForkOk(u.table.states[j], u.forks[j], u.phils[j], Pending(u, j)) {
      Facts(s, j);
      NobodyServed(s, i, j);
      NobodyServed(u, i, j);
    }
  }

  lemma NobodyServed(s: Sys, i: nat, j: nat)
    requires s.owner == PhilOwns(i) && i < |s.phils| && (s.phils[i].pc == LeaveIn || s.phils[i].pc == LeaveServeRight)
    ensures !Pending(s, j)
  {
  }

  /** A waiting philosopher that is given the forks has been waiting outside. */
  lemma ServeForks(s: Sys, i: nat, next: Pc, k: nat)
    requires Sound(s) && Forks(s) && i < s.table.count && k < s.table.count && s.owner == PhilOwns(i)
    requires s.phils[i].pc == LeaveServeRight && s.table.states[k] == Waiting
    requires (next == LeavePostLeft && k == Pred(i, s.table.count)) || (next == LeavePostRight && k == Succ(i, s.table.count))
    requires forall j | 0 <= j < |s.phils| :: Inside(s.phils[j].pc) <==> j == i
    ensures Forks(Goto(s.(table := Set(s.table, k, Eating)), i, next))
  {
    var u := Goto(s.(table := Set(s.table, k, Eating)), i, next);
    forall j | 0 <= j < |u.phils| ensures ForkOk(u.table.states[j], u.forks[j], u.phils[j], Pending(u, j)) {
      assert ForkOk(s.table.states[j], s.forks[j], s.phils[j], Pending(s, j));
      NobodyServed(s, i, j);
    }
  }

  lemma LeaveLeftKeeps(s: Sys, i: nat)
    requires SysInv(s) && i < |s.phils| && s.phils[i].pc == LeaveIn
    ensures i < s.table.count && Sound(s) && SysInv(PhilStep(s, i))
  {
    hide Shape, Owned, Queues, Forks, Apart;
    Facts(s, i);
    LeaveLeftApart(s.table, i);
    var (t, post) := LeaveLeft(s.table, i);
    DownForks(s, i);
    forall j | 0 <= j < |s.phils| ensures Inside(s.phils[j].pc) <==> j == i { Facts(s, j); }
    if post {
      var d := Goto(s.(table := Set(s.table, i, Thinking)), i, LeaveServeRight);
      ServeForks(d, i, LeavePostLeft, Pred(i, s.table.count));
      assert Goto(s.(table := t), i, LeavePostLeft) == Goto(d.(table := t), i, LeavePostLeft);
    }
    TableStepKeeps(s, i, t, if post then LeavePostLeft else LeaveServeRight);
  }

  lemma LeaveRightKeeps(s: Sys, i: nat)
    requires SysInv(s) && i < |s.phils| && s.phils[i].pc == LeaveServeRight
    ensures i < s.table.count && Sound(s) && SysInv(PhilStep(s, i))
  {
    hide Shape, Owned, Queues, Forks, Apart;
    Facts(s, i);
    LeaveRightApart(s.table, i);
    var (t, post) := LeaveRight(s.table, i);
    forall j | 0 <= j < |s.phils| ensures Inside(s.phils[j].pc) <==> j == i { Facts(s, j); }
    if post {
      ServeForks(s, i, LeavePostRight, Succ(i, s.table.count));
    } else {
      DoneForks(s, i);
    }
    TableStepKeeps(s, i, t, if post then LeavePostRight else LeavePostGlobal);
  }

  lemma DoneForks(s: Sys, i: nat)
    requires SysInv(s) && i < |s.phils| && s.phils[i].pc == LeaveServeRight
    ensures Sound(s) && Forks(Goto(s, i, LeavePostGlobal))
  {
    hide Shape, Owned, Queues, Apart;
    Facts(s, i);
    var u := Goto(s, i, LeavePostGlobal);
    forall j | 0 <= j < |u.phils| ensures ForkOk(u.table.states[j], u.forks[j], u.phils[j], Pending(u, j)) {
      Facts(s, j);
    }
  }

  // ----- main -----

  predicate MainKnocks(s: Sys, queued: MainPc, inside: MainPc) {
    || (s.main == AtPrompt && queued == JoinQueued && inside == JoinIn && s.table.count < MAX_DINER)
    || (s.main == AtPrompt && queued == RemoveQueued && inside == RemoveIn && s.table.count > if s.quitting then 0 else MIN_DINER)
    || (s.main == RemoveBack && queued == CheckQueued && inside == CheckIn)
  }

  lemma MainWaitsQueues(s: Sys, queued: MainPc, inside: MainPc)
    requires Queues(s) && s.global.value >= 0 && MainKnocks(s, queued, inside)
    ensures Queues(MainWaits(s, queued, inside))
  {
    RingNeverFull(s.global, s.mainPid);
    var u := MainWaits(s, queued, inside);
    forall j | 0 <= j < |u.phils| ensures u.phils[j].pid in u.global.queue <==> Queued(u.phils[j].pc) { }
  }

  lemma MainWaitsRest(s: Sys, queued: MainPc, inside: MainPc)
    requires SysInv(s) && MainKnocks(s, queued, inside) && |s.global.queue| < MAX_PROCESSES
    ensures var u := MainWaits(s, queued, inside); Shape(u) && Owned(u) && Forks(u)
  {
    hide Queues, Apart;
    var u := MainWaits(s, queued, inside);
    forall j | 0 <= j < |u.phils| ensures ForkOk(u.table.states[j], u.forks[j], u.phils[j], Pending(u, j)) {
      Facts(s, j);
    }
  }

  lemma MainWaitsKeeps(s: Sys, queued: MainPc, inside: MainPc)
    requires SysInv(s) && MainKnocks(s, queued, inside)
    ensures SysInv(MainWaits(s, queued, inside))
  {
    hide Shape, Owned, Forks, Apart;
    OwnedValue(s);
    RoomInRing(s, s.mainPid);
    MainWaitsQueues(s, queued, inside);
    MainWaitsRest(s, queued, inside);
  }

  lemma OwnedValue(s: Sys)
    requires Owned(s)
    ensures s.global.value >= 0
  {
  }

  lemma JoinInQueues(s: Sys, pid: int)
    requires Sound(s) && Queues(s) && s.main == JoinIn
    requires pid !in Alive(s) && pid !in s.global.queue && 1 <= pid <= MAX_PROCESSES
    ensures Queues(MainStep(s, Add(pid)))
  {
    var u := MainStep(s, Add(pid));
    AliveHas(s);
    forall j | 0 <= j < |s.phils| ensures s.phils[j].pid != pid { }
  }

  lemma JoinInKeeps(s: Sys, pid: int)
    requires SysInv(s) && s.main == JoinIn
    requires pid !in Alive(s) && pid !in s.global.queue && 1 <= pid <= MAX_PROCESSES
    ensures Sound(s) && SysInv(MainStep(s, Add(pid)))
  {
    hide Queues, Alive, Apart;
    var u := MainStep(s, Add(pid));
    JoinInQueues(s, pid);
    forall j | 0 <= j < |u.phils| ensures ForkOk(u.table.states[j], u.forks[j], u.phils[j], Pending(u, j)) {
      if j < |s.phils| { Facts(s, j); }
    }
  }

  lemma JoinCountKeeps(s: Sys, c: Command)
    requires SysInv(s) && s.main == JoinCount
    ensures Sound(s) && SysInv(MainStep(s, c))
  {
    hide Queues;
    var u := MainStep(s, c);
    var n := s.table.count;
    Facts(s, n);
    JoinApart(s.table);
    MainMovesQueues(s, u);
    forall j | 0 <= j < |u.phils| ensures ForkOk(u.table.states[j], u.forks[j], u.phils[j], Pending(u, j)) {
      Facts(s, j);
    }
  }

  lemma MainMovesQueues(s: Sys, u: Sys)
    requires Queues(s) && u.global == s.global && u.mainPid == s.mainPid && u.phils <= s.phils
    requires MainQueued(u.main) == MainQueued(s.main)
    ensures Queues(u)
  {
  }

  predicate Departs(s: Sys) {
    ValidTable(s.table) && s.main == CheckIn && s.table.count > 0 && !MustStay(s.table, s.table.count - 1)
  }

  lemma DepartShape(s: Sys, c: Command)
    requires Shape(s) && Forks(s) && Departs(s)
    ensures Shape(MainStep(s, c))
  {
    hide Forks, FindPid, Alive;
    ForkOpen(s, s.table.count - 1);
  }

  lemma ForkOpen(s: Sys, j: nat)
    requires Sound(s) && Forks(s) && j < |s.phils|
    ensures s.forks[j].value != CLOSED
  {
    assert ForkOk(s.table.states[j], s.forks[j], s.phils[j], Pending(s, j));
  }

  lemma DepartOwned(s: Sys, c: Command)
    requires Sound(s) && Owned(s) && Departs(s)
    ensures Owned(MainStep(s, c))
  {
  }

  lemma DepartForks(s: Sys, c: Command)
    requires Shape(s) && Owned(s) && Forks(s) && Departs(s)
    ensures Sound(MainStep(s, c)) && Forks(MainStep(s, c))
  {
    hide ForkOk, Alive, Pids, Wake;
    var u := MainStep(s, c);
    forall j | 0 <= j < |u.phils| ensures ForkOk(u.table.states[j], u.forks[j], u.phils[j], Pending(u, j)) {
      assert ForkOk(s.table.states[j], s.forks[j], s.phils[j], Pending(s, j));
    }
  }

  lemma DepartKeeps(s: Sys, c: Command)
    requires SysInv(s) && Departs(s)
    ensures Sound(s) && SysInv(MainStep(s, c))
  {
    hide Shape, Owned, Queues, Forks, Apart;
    SoundOf(s);
    RemoveLastApart(s.table);
    MainMovesQueues(s, MainStep(s, c));
    DepartShape(s, c);
    DepartOwned(s, c);
    DepartForks(s, c);
  }

  lemma QueuedAreAlive(s: Sys, pid: int)
    requires StaleInFront(s) && s.main == JoinIn && pid !in Alive(s)
    ensures pid !in s.global.queue
  {
  }

  lemma MainStepKeeps(s: Sys, c: Command)
    requires FullInv(s) && Enabled(s, MainActs(c))
    ensures Sound(s) && SysInv(MainStep(s, c))
  {
    hide Owned, Queues, Forks, Apart, PostGlobal, MainWaits, MainSleeps;
    match s.main
    case AtPrompt =>
      if c.Add? && s.table.count < MAX_DINER && !s.quitting { MainWaitsKeeps(s, JoinQueued, JoinIn); }
      if c.Remove? && s.table.count > (if s.quitting then 0 else MIN_DINER) { MainWaitsKeeps(s, RemoveQueued, RemoveIn); }
      if c.Quit? { QuitKeeps(s); }
      if c.Look? { MainSleepsKeeps(s, TICKS_AT_PROMPT, PromptAsleep); }
    case JoinIn => QueuedAreAlive(s, c.pid); JoinInKeeps(s, c.pid);
    case JoinCount => JoinCountKeeps(s, c);
    case JoinPost => MainLeaves(s, AtPrompt); PostGlobalKeeps(s.(main := AtPrompt));
    case RemoveIn => MainLeaves(s, RemoveAway); PostGlobalKeeps(s.(main := RemoveAway));
    case RemoveAway => MainSleepsKeeps(s, TICKS_REMOVING, RemoveAsleep);
    case RemoveBack => MainWaitsKeeps(s, CheckQueued, CheckIn);
    case CheckIn =>
      if MustStay(s.table, s.table.count - 1) {
        MainLeaves(s, RemoveAway);
        PostGlobalKeeps(s.(main := RemoveAway));
      } else {
        DepartKeeps(s, c);
      }
    case RemovePost => MainLeaves(s, AtPrompt); PostGlobalKeeps(s.(main := AtPrompt));
    case _ =>
  }

  // ----- sleeping and ticks -----

  /** The sleep list is nothing to the semaphores and the table. */
  lemma ListIsApart(s: Sys, q: seq<SleepQueue.Entry>, now: int)
    requires SysInv(s)
    ensures SysInv(s.(sleepers := q, now := now))
  {
    var t := s.(sleepers := q, now := now);
    forall j | 0 <= j < |t.phils| ensures ForkOk(t.table.states[j], t.forks[j], t.phils[j], Pending(t, j)) {
      assert Pending(t, j) == Pending(s, j);
    }
  }

  /** Falling asleep or waking up makes no difference to what a philosopher's semaphore must be. */
  predicate SameDuty(pc: Pc, next: Pc) {
    || next == pc || (pc == Rests && next == Dozes) || (pc == Dozes && next == Hungry)
    || (pc == Eats && next == Savours) || (pc == Savours && next == Full)
  }

  lemma DutyKeeps(s: Sys, i: nat, next: Pc)
    requires SysInv(s) && i < |s.phils| && SameDuty(s.phils[i].pc, next)
    ensures SysInv(Goto(s, i, next))
  {
    hide Shape, Owned, Queues, Apart, ForkOk, Pending, SameDuty;
    Facts(s, i);
    DutyFacts(s, i, next);
    var u := Goto(s, i, next);
    forall j | 0 <= j < |u.phils| ensures ForkOk(u.table.states[j], u.forks[j], u.phils[j], Pending(u, j)) {
      ForkFacts(s, j);
      PendingFrame(s, u, j);
    }
    TableStepKeeps(s, i, s.table, next);
  }

  lemma DutyFacts(s: Sys, i: nat, next: Pc)
    requires SysInv(s) && i < |s.phils| && SameDuty(s.phils[i].pc, next)
    ensures Inside(next) == Inside(s.phils[i].pc) && Queued(next) == Queued(s.phils[i].pc)
    ensures ForkOk(s.table.states[i], s.forks[i], s.phils[i].(pc := next), Pending(s, i))
    ensures s.owner == PhilOwns(i) ==> next == s.phils[i].pc
    ensures NewcomerOut(Goto(s, i, next)) && Apart(s.table)
  {
    hide Shape, Queues, Pending, Apart;
    Facts(s, i);
  }

  predicate SameMainDuty(pc: MainPc, next: MainPc) {
    || next == pc || (pc == AtPrompt && next == PromptAsleep) || (pc == PromptAsleep && next == AtPrompt)
    || (pc == RemoveAway && next == RemoveAsleep) || (pc == RemoveAsleep && next == RemoveBack)
  }

  lemma MainDutyKeeps(s: Sys, next: MainPc)
    requires SysInv(s) && SameMainDuty(s.main, next)
    ensures SysInv(s.(main := next))
  {
    hide Apart;
    var u := s.(main := next);
    MainMovesQueues(s, u);
    forall j | 0 <= j < |u.phils| ensures ForkOk(u.table.states[j], u.forks[j], u.phils[j], Pending(u, j)) {
      Facts(s, j);
    }
  }

  lemma PhilSleepsKeeps(s: Sys, i: nat, next: Pc)
    requires SysInv(s) && i < |s.phils| && SameDuty(s.phils[i].pc, next)
    ensures SysInv(PhilSleeps(s, i, next))
  {
    hide SysInv, SameDuty;
    var t := FallAsleep(s, s.phils[i].pid, TICKS_RESTING);
    ListIsApart(s, t.sleepers, s.now);
    DutyKeeps(t, i, next);
  }

  lemma MainSleepsKeeps(s: Sys, ticks: nat, next: MainPc)
    requires SysInv(s) && SameMainDuty(s.main, next)
    ensures SysInv(MainSleeps(s, ticks, next))
  {
    hide SysInv, SameMainDuty;
    var t := FallAsleep(s, s.mainPid, ticks);
    ListIsApart(s, t.sleepers, s.now);
    MainDutyKeeps(t, next);
  }

  /** The process of that pid, if it is one of the system's, is not waiting for a semaphore. */
  ghost predicate NotQueued(s: Sys, pid: int) {
    && (pid == s.mainPid ==> !MainQueued(s.main))
    && forall i | 0 <= i < |s.phils| && s.phils[i].pid == pid :: !Blocked(s.phils[i].pc)
  }

  lemma WakeKeeps(s: Sys, pid: int)
    requires SysInv(s) && NotQueued(s, pid)
    ensures SysInv(Wake(s, pid)) && forall q | NotQueued(s, q) :: NotQueued(Wake(s, pid), q)
  {
    hide SysInv;
    var i := FindPid(s.phils, pid);
    if pid == s.mainPid {
      MainDutyKeeps(s, WokenMain(s.main));
    } else if i < |s.phils| {
      DutyKeeps(s, i, Woken(s.phils[i].pc));
    }
  }

  lemma {:induction false} WakeAllKeeps(s: Sys, pids: seq<int>)
    requires SysInv(s) && forall p <- pids :: NotQueued(s, p)
    ensures SysInv(WakeAll(s, pids)) && forall q | NotQueued(s, q) :: NotQueued(WakeAll(s, pids), q)
  {
    hide SysInv, NotQueued, Wake;
    if pids != [] {
      var n := |pids| - 1;
      assert pids[n] in pids && forall p <- pids[..n] :: p in pids;
      WakeAllKeeps(s, pids[..n]);
      WakeKeeps(WakeAll(s, pids[..n]), pids[n]);
    }
  }

  lemma WakeTwice()
    ensures forall pc: Pc {:trigger Woken(Woken(pc))} :: Woken(Woken(pc)) == Woken(pc)
    ensures forall pc: MainPc {:trigger WokenMain(WokenMain(pc))} :: WokenMain(WokenMain(pc)) == WokenMain(pc)
  {
  }

  /** Who is woken and who is not. */
  lemma {:induction false} WakeAllForm(s: Sys, pids: seq<int>)
    requires Pids(s)
    ensures var t := WakeAll(s, pids);
            && t == s.(phils := t.phils, main := t.main) && SamePids(s, t)
            && t.main == (if s.mainPid in pids then WokenMain(s.main) else s.main)
            && forall i | 0 <= i < |s.phils| :: t.phils[i].pc == if s.phils[i].pid in pids then Woken(s.phils[i].pc) else s.phils[i].pc
  {
    hide Wake, Pids, Woken, WokenMain;
    WakeTwice();
    if pids != [] {
      var n := |pids| - 1;
      WakeAllForm(s, pids[..n]);
      var u := WakeAll(s, pids[..n]);
      assert pids == pids[..n] + [pids[n]];
      PidsFrame(s, u);
      WakeForm(u, pids[n]);
    }
  }

  lemma WakeForm(s: Sys, pid: int)
    requires Pids(s)
    ensures var t := Wake(s, pid);
            && t == s.(phils := t.phils, main := t.main) && SamePids(s, t)
            && t.main == (if s.mainPid == pid then WokenMain(s.main) else s.main)
            && forall i | 0 <= i < |s.phils| :: t.phils[i].pc == if s.phils[i].pid == pid then Woken(s.phils[i].pc) else s.phils[i].pc
  {
    PidsDiffer(s);
  }

  lemma QuitKeeps(s: Sys)
    requires SysInv(s)
    ensures SysInv(s.(quitting := true))
  {
    hide Apart;
    var u := s.(quitting := true);
    forall j | 0 <= j < |u.phils| ensures ForkOk(u.table.states[j], u.forks[j], u.phils[j], Pending(u, j)) {
      Facts(s, j);
    }
  }

  lemma PhilStepKeeps(s: Sys, i: nat)
    requires SysInv(s) && i < |s.phils|
    ensures Sound(s) && (Inside(s.phils[i].pc) ==> i < s.table.count) && SysInv(PhilStep(s, i))
  {
    hide Shape, Owned, Queues, Forks, Apart, PostGlobal, PhilWaits, PhilSleeps, PostFork, WaitFork;
    Facts(s, i);
    match s.phils[i].pc
    case Fresh => FreshKeeps(s, i);
    case Rests => PhilSleepsKeeps(s, i, Dozes);
    case Hungry => PhilWaitsKeeps(s, i, TakeQueued, TakeIn);
    case TakeIn => TakeKeeps(s, i);
    case TakePostFork => PostForkKeeps(s, i, i, TakePostGlobal);
    case TakePostGlobal => PhilLeaves(s, i, WantsFork); PostGlobalKeeps(Goto(s, i, WantsFork));
    case WantsFork => WaitForkKeeps(s, i);
    case Eats => PhilSleepsKeeps(s, i, Savours);
    case Full => PhilWaitsKeeps(s, i, LeaveQueued, LeaveIn);
    case LeaveIn => LeaveLeftKeeps(s, i);
    case LeavePostLeft => PostForkKeeps(s, i, Pred(i, s.table.count), LeaveServeRight);
    case LeaveServeRight => LeaveRightKeeps(s, i);
    case LeavePostRight => PostForkKeeps(s, i, Succ(i, s.table.count), LeavePostGlobal);
    case LeavePostGlobal => PhilLeaves(s, i, Rests); PostGlobalKeeps(Goto(s, i, Rests));
    case _ =>
  }

  // ----- stale pids stay in front of main -----

  lemma StaleFrame(s: Sys, t: Sys)
    requires StaleInFront(s) && t.global.queue == s.global.queue && t.mainPid == s.mainPid && Alive(s) <= Alive(t)
    requires MainCameIn(t.main) ==> MainCameIn(s.main)
    ensures StaleInFront(t)
  {
  }

  lemma AliveFrame(s: Sys, t: Sys)
    requires SamePids(s, t)
    ensures Alive(t) == Alive(s)
  {
    AliveHas(s);
    AliveHas(t);
    forall p ensures p in Alive(t) <==> p in Alive(s) {
      if p in Alive(s) && p != s.mainPid { var j :| 0 <= j < |s.phils| && s.phils[j].pid == p; assert t.phils[j].pid == p; }
      if p in Alive(t) && p != s.mainPid { var j :| 0 <= j < |t.phils| && t.phils[j].pid == p; assert s.phils[j].pid == p; }
    }
  }

  lemma PhilWaitsStale(s: Sys, i: nat, queued: Pc, inside: Pc)
    requires StaleInFront(s) && i < |s.phils|
    ensures StaleInFront(PhilWaits(s, i, queued, inside))
  {
    hide Alive, OnlyInFront, PhilWaits, SamePids;
    PhilWaitsForm(s, i, queued, inside);
    AliveHas(s);
    AliveFrame(s, PhilWaits(s, i, queued, inside));
    LiveAtTheEnd(s.global.queue, s.mainPid, Alive(s), MainCameIn(s.main), s.phils[i].pid);
  }

  lemma PhilWaitsForm(s: Sys, i: nat, queued: Pc, inside: Pc)
    requires i < |s.phils|
    ensures var u := PhilWaits(s, i, queued, inside);
            && SamePids(s, u) && u.main == s.main && u.mainPid == s.mainPid
            && (u.global.queue == s.global.queue || u.global.queue == s.global.queue + [s.phils[i].pid])
  {
    hide SamePids;
    var (g, r) := Wait(s.global, s.phils[i].pid);
    GotoPids(s, s.(global := g), i, queued);
    GotoPids(s, s.(global := g, owner := PhilOwns(i)), i, inside);
  }

  lemma GotoPids(s: Sys, t: Sys, i: nat, pc: Pc)
    requires i < |t.phils| && t.phils == s.phils && t.mainPid == s.mainPid
    ensures SamePids(s, Goto(t, i, pc))
  {
  }

  lemma LiveAtTheEnd(queue: seq<int>, pid: int, alive: set<int>, all: bool, p: int)
    requires OnlyInFront(queue, pid, alive, all) && p in alive
    ensures OnlyInFront(queue + [p], pid, alive, all)
  {
    forall j | 0 <= j < |queue + [p]| && (all || pid in (queue + [p])[..j]) ensures (queue + [p])[j] in alive {
      assert (queue + [p])[..j] == queue[..j];
    }
  }

  /** Those behind main are all alive, so once it is served nobody else is left. */
  lemma ServedFromTheFront(queue: seq<int>, pid: int, alive: set<int>, n: nat)
    requires OnlyInFront(queue, pid, alive, false) && n < |queue|
    ensures OnlyInFront(queue[n + 1..], pid, alive, queue[n] == pid)
  {
    var rest := queue[n + 1..];
    forall j | 0 <= j < |rest| && (queue[n] == pid || pid in rest[..j]) ensures rest[j] in alive {
      assert queue[..n + 1 + j] == queue[..n + 1] + rest[..j];
      assert queue[n] in queue[..n + 1];
      assert queue[n + 1 + j] in alive;
    }
  }

  lemma MainWaitsStale(s: Sys, queued: MainPc, inside: MainPc)
    requires SysInv(s) && StaleInFront(s) && MainKnocks(s, queued, inside)
    ensures StaleInFront(MainWaits(s, queued, inside))
  {
    hide Shape, Forks, Apart, Alive, OnlyInFront;
    RoomInRing(s, s.mainPid);
    AliveHas(s);
    AliveFrame(s, MainWaits(s, queued, inside));
    LiveAtTheEnd(s.global.queue, s.mainPid, Alive(s), MainCameIn(s.main), s.mainPid);
    NobodyStale(s.mainPid, Alive(s));
  }

  lemma NobodyStale(pid: int, alive: set<int>)
    ensures OnlyInFront([], pid, alive, true)
  {
  }

  /** A post that reaches main has taken everybody in front of it off the queue. */
  lemma PostGlobalStale(t: Sys)
    requires Queues(t) && t.global.value == 0 && StaleInFront(t) && !MainCameIn(t.main)
    ensures StaleInFront(PostGlobal(t))
  {
    hide PostGlobal, Wake, FindPid, Alive, Post, OnlyInFront;
    var k := PostGlobalForm(t);
    PostServesFirstLive(t.global, Alive(t));
    AliveFrame(t, PostGlobal(t));
    NobodyStale(t.mainPid, Alive(t));
    NobodyStaleOutside(t.mainPid, Alive(t));
    var q := t.global.queue;
    if Post(t.global, Alive(t)).1.Handed? {
      var n :| 0 <= n < |q| && q[n] == Post(t.global, Alive(t)).1.pid && PostGlobal(t).global.queue == q[n + 1..];
      ServedFromTheFront(q, t.mainPid, Alive(t), n);
      WeakerStale(q[n + 1..], t.mainPid, Alive(t));
    }
  }

  lemma NobodyStaleOutside(pid: int, alive: set<int>)
    ensures OnlyInFront([], pid, alive, false)
  {
  }

  lemma WeakerStale(queue: seq<int>, pid: int, alive: set<int>)
    ensures OnlyInFront(queue, pid, alive, true) ==> OnlyInFront(queue, pid, alive, false)
  {
  }

  lemma PostForkStale(s: Sys, i: nat, k: nat, next: Pc)
    requires SysInv(s) && i < s.table.count && i < |s.phils| && Serves(s.phils[i].pc, next, i, k, s.table.count)
    requires StaleInFront(s)
    ensures k < |s.forks| && StaleInFront(PostFork(Goto(s, i, next), k))
  {
    hide SysInv, PostFork, Alive;
    Facts(s, i);
    PostForkForm(s, i, k, next);
    var u := PostFork(Goto(s, i, next), k);
    AliveFrame(s, u);
    StaleFrame(s, u);
  }

  lemma PhilLeavesStale(s: Sys, i: nat, next: Pc)
    requires SysInv(s) && StaleInFront(s) && i < |s.phils|
    requires (s.phils[i].pc == TakePostGlobal && next == WantsFork) || (s.phils[i].pc == LeavePostGlobal && next == Rests)
    ensures StaleInFront(PostGlobal(Goto(s, i, next)))
  {
    hide Shape, Queues, Forks, Apart, Alive, PostGlobal;
    Facts(s, i);
    var t := Goto(s, i, next);
    PhilLeaves(s, i, next);
    AliveFrame(s, t);
    StaleFrame(s, t);
    PostGlobalStale(t);
  }

  lemma MainLeavesStale(s: Sys, next: MainPc)
    requires SysInv(s) && StaleInFront(s) && (next == AtPrompt || next == RemoveAway)
    requires Leaving(s.(main := next))
    ensures StaleInFront(PostGlobal(s.(main := next)))
  {
    hide Shape, Queues, Forks, Apart, Alive, PostGlobal;
    var t := s.(main := next);
    AliveFrame(s, t);
    StaleFrame(s, t);
    PostGlobalStale(t);
  }

  lemma PhilStepStale(s: Sys, i: nat)
    requires FullInv(s) && i < |s.phils|
    ensures Sound(s) && (Inside(s.phils[i].pc) ==> i < s.table.count) && StaleInFront(PhilStep(s, i))
  {
    hide Shape, Owned, Queues, Forks, Apart, PostGlobal, PhilWaits, PostFork, StaleInFront, Alive;
    Facts(s, i);
    match s.phils[i].pc
    case Hungry => PhilWaitsStale(s, i, TakeQueued, TakeIn);
    case Full => PhilWaitsStale(s, i, LeaveQueued, LeaveIn);
    case TakePostFork => PostForkStale(s, i, i, TakePostGlobal);
    case TakePostGlobal => PhilLeavesStale(s, i, WantsFork);
    case LeavePostLeft => PostForkStale(s, i, Pred(i, s.table.count), LeaveServeRight);
    case LeavePostRight => PostForkStale(s, i, Succ(i, s.table.count), LeavePostGlobal);
    case LeavePostGlobal => PhilLeavesStale(s, i, Rests);
    case _ => AliveFrame(s, PhilStep(s, i)); StaleFrame(s, PhilStep(s, i));
  }

  /** The one step after which a dead pid can be in the queue: main is inside, and not in the queue itself. */
  lemma DepartStale(s: Sys, c: Command)
    requires SysInv(s) && Departs(s) && s.main == CheckIn
    ensures Sound(s) && StaleInFront(MainStep(s, c))
  {
    hide Shape, Owned, Forks, Apart, Alive;
    SoundOf(s);
  }

  lemma NewcomerAlive(s: Sys, c: Command)
    requires Sound(s) && s.main == JoinIn
    ensures Alive(s) <= Alive(MainStep(s, c))
  {
    var u := MainStep(s, c);
    forall p | p in Alive(s) ensures p in Alive(u) {
      if p != s.mainPid { var j :| 0 <= j < |s.phils| && s.phils[j].pid == p; assert u.phils[j].pid == p; }
    }
  }

  lemma MainStepStale(s: Sys, c: Command)
    requires FullInv(s) && Enabled(s, MainActs(c))
    ensures Sound(s) && StaleInFront(MainStep(s, c))
  {
    hide Owned, Queues, Forks, Apart, PostGlobal, MainWaits, StaleInFront;
    match s.main
    case AtPrompt =>
      if c.Add? && s.table.count < MAX_DINER && !s.quitting { MainWaitsStale(s, JoinQueued, JoinIn); }
      else if c.Remove? && s.table.count > (if s.quitting then 0 else MIN_DINER) { MainWaitsStale(s, RemoveQueued, RemoveIn); }
      else { StaleFrame(s, MainStep(s, c)); }
    case JoinIn => NewcomerAlive(s, c); StaleFrame(s, MainStep(s, c));
    case JoinCount => StaleFrame(s, MainStep(s, c));
    case JoinPost => MainLeaves(s, AtPrompt); MainLeavesStale(s, AtPrompt);
    case RemoveIn => MainLeaves(s, RemoveAway); MainLeavesStale(s, RemoveAway);
    case RemoveAway => StaleFrame(s, MainStep(s, c));
    case RemoveBack => MainWaitsStale(s, CheckQueued, CheckIn);
    case CheckIn =>
      if MustStay(s.table, s.table.count - 1) {
        MainLeaves(s, RemoveAway);
        MainLeavesStale(s, RemoveAway);
      } else {
        DepartStale(s, c);
      }
    case RemovePost => MainLeaves(s, AtPrompt); MainLeavesStale(s, AtPrompt);
    case _ =>
  }

  // ----- the sleep list -----

  lemma AddMembers(q: seq<SleepQueue.Entry>, e: SleepQueue.Entry)
    ensures forall x :: x in SleepQueue.Add(q, e) <==> x in q || x == e
    ensures forall p :: SleepQueue.Has(SleepQueue.Add(q, e), p) <==> SleepQueue.Has(q, p) || p == e.pid
  {
    var k := SleepQueue.Place(q, e.wake);
    assert q == q[..k] + q[k..];
    assert SleepQueue.Add(q, e)[k] == e;
    forall p ensures SleepQueue.Has(SleepQueue.Add(q, e), p) <==> SleepQueue.Has(q, p) || p == e.pid {
      if p != e.pid { SleepQueue.AddOther(q, e, p); }
    }
  }

  lemma SleepersFrame(s: Sys, t: Sys)
    requires SleepersMatch(s) && SamePids(s, t) && t.sleepers == s.sleepers
    requires forall i | 0 <= i < |s.phils| :: Asleep(t.phils[i].pc) == Asleep(s.phils[i].pc)
    requires MainAsleep(t.main) == MainAsleep(s.main)
    ensures SleepersMatch(t)
  {
    AliveFrame(s, t);
  }

  /** One process of the system falls asleep, which had no entry. */
  lemma FallsAsleep(s: Sys, t: Sys, pid: int, wake: int)
    requires Pids(s) && SleepersMatch(s) && SamePids(s, t) && pid in Alive(s) && !SleepQueue.Has(s.sleepers, pid)
    requires t.sleepers == SleepQueue.Add(s.sleepers, SleepQueue.Entry(pid, wake))
    requires forall i | 0 <= i < |s.phils| :: Asleep(t.phils[i].pc) == (Asleep(s.phils[i].pc) || s.phils[i].pid == pid)
    requires MainAsleep(t.main) == (MainAsleep(s.main) || s.mainPid == pid)
    ensures SleepersMatch(t)
  {
    AliveFrame(s, t);
    AddMembers(s.sleepers, SleepQueue.Entry(pid, wake));
    forall e, f | e in t.sleepers && f in t.sleepers && e.pid == f.pid && e.pid in Alive(t) ensures e == f {
      EntryIsHeld(s.sleepers, e);
      EntryIsHeld(s.sleepers, f);
    }
  }

  lemma EntryIsHeld(q: seq<SleepQueue.Entry>, e: SleepQueue.Entry)
    ensures e in q ==> SleepQueue.Has(q, e.pid)
  {
  }

  /** A philosopher rests and eats for 20 ticks; main sleeps for 1 tick before it removes one, and for 10 at the prompt. */
  lemma SleepLengths(s: Sys, i: nat, c: Command)
    requires Sound(s)
    ensures i < |s.phils| && (s.phils[i].pc == Rests || s.phils[i].pc == Eats) ==>
              SleepQueue.Entry(s.phils[i].pid, s.now + 20) in PhilStep(s, i).sleepers && Asleep(PhilStep(s, i).phils[i].pc)
    ensures s.main == RemoveAway ==>
              SleepQueue.Entry(s.mainPid, s.now + 1) in MainStep(s, c).sleepers && MainAsleep(MainStep(s, c).main)
    ensures s.main == AtPrompt && c == Look ==>
              SleepQueue.Entry(s.mainPid, s.now + 10) in MainStep(s, c).sleepers && MainAsleep(MainStep(s, c).main)
  {
    hide PostGlobal, PostFork, Alive;
    if i < |s.phils| { AddMembers(s.sleepers, SleepQueue.Entry(s.phils[i].pid, s.now + 20)); }
    AddMembers(s.sleepers, SleepQueue.Entry(s.mainPid, s.now + 1));
    AddMembers(s.sleepers, SleepQueue.Entry(s.mainPid, s.now + 10));
  }

  lemma PhilSleepsMatch(s: Sys, i: nat, next: Pc)
    requires Pids(s) && SleepersMatch(s) && i < |s.phils| && !Asleep(s.phils[i].pc) && Asleep(next)
    ensures SleepersMatch(PhilSleeps(s, i, next))
  {
    hide Alive, SleepersMatch;
    AliveHas(s);
    PidsDiffer(s);
    SleeperHeld(s, i);
    FallsAsleep(s, PhilSleeps(s, i, next), s.phils[i].pid, s.now + TICKS_RESTING);
  }

  lemma SleeperHeld(s: Sys, i: nat)
    requires SleepersMatch(s) && i < |s.phils|
    ensures SleepQueue.Has(s.sleepers, s.phils[i].pid) <==> Asleep(s.phils[i].pc)
  {
  }

  lemma MainSleepsMatch(s: Sys, ticks: nat, next: MainPc)
    requires Pids(s) && SleepersMatch(s) && !MainAsleep(s.main) && MainAsleep(next)
    ensures SleepersMatch(MainSleeps(s, ticks, next))
  {
    hide Alive, SleepersMatch;
    AliveHas(s);
    MainHeld(s);
    FallsAsleep(s, MainSleeps(s, ticks, next), s.mainPid, s.now + ticks);
  }

  lemma MainHeld(s: Sys)
    requires SleepersMatch(s)
    ensures SleepQueue.Has(s.sleepers, s.mainPid) <==> MainAsleep(s.main)
  {
  }

  lemma PostGlobalMatch(t: Sys)
    requires Queues(t) && t.global.value == 0 && SleepersMatch(t)
    ensures SleepersMatch(PostGlobal(t))
  {
    hide PostGlobal, Wake, FindPid, Alive, Post, SleepersMatch;
    var k := PostGlobalForm(t);
    SleepersFrame(t, PostGlobal(t));
  }

  lemma PostForkMatch(s: Sys, i: nat, k: nat, next: Pc)
    requires SysInv(s) && i < s.table.count && i < |s.phils| && Serves(s.phils[i].pc, next, i, k, s.table.count)
    requires SleepersMatch(s)
    ensures k < |s.forks| && SleepersMatch(PostFork(Goto(s, i, next), k))
  {
    hide SysInv, PostFork, SleepersMatch, Goto;
    PostForkFields(s, i, k, next);
    PostForkList(s, i, k, next);
    SleepersFrame(s, PostFork(Goto(s, i, next), k));
  }

  lemma PostForkList(s: Sys, i: nat, k: nat, next: Pc)
    requires SysInv(s) && i < s.table.count && i < |s.phils| && Serves(s.phils[i].pc, next, i, k, s.table.count)
    ensures k < |Goto(s, i, next).forks|
    ensures var u := PostFork(Goto(s, i, next), k); u.sleepers == s.sleepers && u.main == s.main && SamePids(s, u)
  {
    hide SysInv, PostFork;
    PostForkForm(s, i, k, next);
  }

  lemma PhilStepSleepers(s: Sys, i: nat)
    requires FullInv(s) && i < |s.phils|
    ensures Sound(s) && (Inside(s.phils[i].pc) ==> i < s.table.count) && SleepersMatch(PhilStep(s, i))
  {
    hide Shape, Owned, Queues, Forks, Apart, PostGlobal, PhilWaits, PhilSleeps, PostFork, SleepersMatch, Alive;
    Facts(s, i);
    PidsOf(s);
    match s.phils[i].pc
    case Rests => PhilSleepsMatch(s, i, Dozes);
    case Hungry => PhilWaitsMatch(s, i, TakeQueued, TakeIn);
    case Eats => PhilSleepsMatch(s, i, Savours);
    case Full => PhilWaitsMatch(s, i, LeaveQueued, LeaveIn);
    case TakePostFork => PostForkMatch(s, i, i, TakePostGlobal);
    case TakePostGlobal => PhilLeavesMatch(s, i, WantsFork);
    case LeavePostLeft => PostForkMatch(s, i, Pred(i, s.table.count), LeaveServeRight);
    case LeavePostRight => PostForkMatch(s, i, Succ(i, s.table.count), LeavePostGlobal);
    case LeavePostGlobal => PhilLeavesMatch(s, i, Rests);
    case _ => QuietMatch(s, i);
  }

  lemma QuietMatch(s: Sys, i: nat)
    requires Sound(s) && SleepersMatch(s) && i < |s.phils| && (Inside(s.phils[i].pc) ==> i < s.table.count)
    requires var pc := s.phils[i].pc;
      !pc.Rests? && !pc.Hungry? && !pc.Eats? && !pc.Full? && !pc.TakePostFork? && !pc.TakePostGlobal?
      && !pc.LeavePostLeft? && !pc.LeavePostRight? && !pc.LeavePostGlobal?
    ensures SleepersMatch(PhilStep(s, i))
  {
    hide SleepersMatch, Alive;
    SleepersFrame(s, PhilStep(s, i));
  }

  lemma PhilWaitsMatch(s: Sys, i: nat, queued: Pc, inside: Pc)
    requires SleepersMatch(s) && i < |s.phils| && Knocks(s.phils[i].pc, queued, inside)
    ensures SleepersMatch(PhilWaits(s, i, queued, inside))
  {
    hide SleepersMatch;
    SleepersFrame(s, PhilWaits(s, i, queued, inside));
  }

  lemma PhilLeavesMatch(s: Sys, i: nat, next: Pc)
    requires SysInv(s) && SleepersMatch(s) && i < |s.phils|
    requires (s.phils[i].pc == TakePostGlobal && next == WantsFork) || (s.phils[i].pc == LeavePostGlobal && next == Rests)
    ensures SleepersMatch(PostGlobal(Goto(s, i, next)))
  {
    hide Shape, Queues, Forks, Apart, PostGlobal, SleepersMatch;
    PhilLeaves(s, i, next);
    SleepersFrame(s, Goto(s, i, next));
    PostGlobalMatch(Goto(s, i, next));
  }

  lemma MainLeavesMatch(s: Sys, next: MainPc)
    requires SleepersMatch(s) && !MainAsleep(s.main) && !MainAsleep(next) && Leaving(s.(main := next))
    ensures SleepersMatch(PostGlobal(s.(main := next)))
  {
    hide Shape, Queues, Apart, PostGlobal, SleepersMatch;
    SleepersFrame(s, s.(main := next));
    PostGlobalMatch(s.(main := next));
  }

  lemma MainWaitsMatch(s: Sys, queued: MainPc, inside: MainPc)
    requires SleepersMatch(s) && MainKnocks(s, queued, inside)
    ensures SleepersMatch(MainWaits(s, queued, inside))
  {
    hide SleepersMatch;
    SleepersFrame(s, MainWaits(s, queued, inside));
  }

  lemma NewcomerMatch(s: Sys, c: Command)
    requires Sound(s) && SleepersMatch(s) && s.main == JoinIn && Enabled(s, MainActs(c)) && Prudent(s, MainActs(c))
    ensures SleepersMatch(MainStep(s, c))
  {
    var u := MainStep(s, c);
    forall e, f | e in u.sleepers && f in u.sleepers && e.pid == f.pid && e.pid in Alive(u) ensures e == f {
      EntryIsHeld(s.sleepers, e);
    }
  }

  /** A new philosopher fits in with the sleep list if and only if its pid is none that the list still holds. */
  lemma OnlyPrudentFits(s: Sys, c: Command)
    requires FullInv(s) && s.main == JoinIn && c.Add? && Enabled(s, MainActs(c))
    ensures Sound(s) && (FullInv(MainStep(s, c)) <==> Prudent(s, MainActs(c)))
  {
    hide Owned, Forks, Apart, Queues, StaleInFront;
    if Prudent(s, MainActs(c)) {
      MainStepKeeps(s, c);
      MainStepStale(s, c);
      MainStepSleepers(s, c);
    } else {
      var u := MainStep(s, c);
      assert u.phils[|s.phils|] == Phil(c.pid, Fresh);
      assert SleepQueue.Has(u.sleepers, u.phils[|s.phils|].pid);
    }
  }

  lemma DepartMatch(s: Sys, c: Command)
    requires SysInv(s) && SleepersMatch(s) && Departs(s)
    ensures Sound(s) && SleepersMatch(MainStep(s, c))
  {
    hide Owned, Forks, Apart, Queues;
    SoundOf(s);
    var u := MainStep(s, c);
    FewerAlive(s, u);
  }

  lemma FewerAlive(s: Sys, u: Sys)
    requires u.mainPid == s.mainPid && u.phils <= s.phils
    ensures Alive(u) <= Alive(s)
  {
    forall p | p in Alive(u) ensures p in Alive(s) {
      if p != u.mainPid { var j :| 0 <= j < |u.phils| && u.phils[j].pid == p; assert s.phils[j].pid == p; }
    }
  }

  lemma MainStepSleepers(s: Sys, c: Command)
    requires FullInv(s) && Enabled(s, MainActs(c)) && Prudent(s, MainActs(c))
    ensures Sound(s) && SleepersMatch(MainStep(s, c))
  {
    hide Owned, Forks, Apart, PostGlobal, MainWaits, MainSleeps, SleepersMatch, StaleInFront;
    match s.main
    case AtPrompt =>
      if c.Add? && s.table.count < MAX_DINER && !s.quitting { MainWaitsMatch(s, JoinQueued, JoinIn); }
      else if c.Remove? && s.table.count > (if s.quitting then 0 else MIN_DINER) { MainWaitsMatch(s, RemoveQueued, RemoveIn); }
      else if c.Look? { MainSleepsMatch(s, TICKS_AT_PROMPT, PromptAsleep); }
      else { SleepersFrame(s, MainStep(s, c)); }
    case JoinIn => NewcomerMatch(s, c);
    case JoinCount => SleepersFrame(s, MainStep(s, c));
    case JoinPost => MainLeaves(s, AtPrompt); MainLeavesMatch(s, AtPrompt);
    case RemoveIn => MainLeaves(s, RemoveAway); MainLeavesMatch(s, RemoveAway);
    case RemoveAway => MainSleepsMatch(s, TICKS_REMOVING, RemoveAsleep);
    case RemoveBack => MainWaitsMatch(s, CheckQueued, CheckIn);
    case CheckIn =>
      if MustStay(s.table, s.table.count - 1) {
        MainLeaves(s, RemoveAway);
        MainLeavesMatch(s, RemoveAway);
      } else {
        DepartMatch(s, c);
      }
    case RemovePost => MainLeaves(s, AtPrompt); MainLeavesMatch(s, AtPrompt);
    case _ =>
  }

  lemma OtherDiesKeeps(s: Sys, pid: int, wake: int)
    requires FullInv(s) && pid !in Alive(s)
    ensures FullInv(s.(sleepers := SleepQueue.Add(s.sleepers, SleepQueue.Entry(pid, wake))))
  {
    hide SysInv;
    var t := s.(sleepers := SleepQueue.Add(s.sleepers, SleepQueue.Entry(pid, wake)));
    ListIsApart(s, t.sleepers, s.now);
    AliveHas(s);
    AliveFrame(s, t);
    AddMembers(s.sleepers, SleepQueue.Entry(pid, wake));
  }

  /** Of those alive, a sweep wakes exactly those who leave the list, and they were asleep. */
  lemma SweptWereAsleep(q: seq<SleepQueue.Entry>, alive: set<int>, now: int, p: int)
    requires OneEach(q, alive) && p in alive
    ensures var (rest, woken) := SleepQueue.Sweep(q, alive, now);
            (SleepQueue.Has(rest, p) <==> SleepQueue.Has(q, p) && p !in woken) && (p in woken ==> SleepQueue.Has(q, p))
  {
    var (rest, woken) := SleepQueue.Sweep(q, alive, now);
    if SleepQueue.Has(q, p) {
      var i :| 0 <= i < |q| && q[i].pid == p;
      SleepQueue.SweepMembers(q, alive, now, q[i]);
      if SleepQueue.Has(rest, p) {
        var k :| 0 <= k < |rest| && rest[k].pid == p;
        SleepQueue.SweepMembers(q, alive, now, rest[k]);
      }
      if p in woken { var k := SleepQueue.SweepWoken(q, alive, now, p); assert q[k] == q[i]; }
    } else {
      if SleepQueue.Has(rest, p) {
        var k :| 0 <= k < |rest| && rest[k].pid == p;
        SleepQueue.SweepMembers(q, alive, now, rest[k]);
        EntryIsHeld(q, rest[k]);
      }
      if p in woken { var k := SleepQueue.SweepWoken(q, alive, now, p); }
    }
  }

  lemma SweptOneEach(q: seq<SleepQueue.Entry>, alive: set<int>, now: int)
    requires OneEach(q, alive)
    ensures OneEach(SleepQueue.Sweep(q, alive, now).0, alive)
  {
    forall e | e in SleepQueue.Sweep(q, alive, now).0 ensures e in q { SleepQueue.SweepMembers(q, alive, now, e); }
  }

  lemma WokenAreAlive(q: seq<SleepQueue.Entry>, alive: set<int>, now: int)
    ensures forall p <- SleepQueue.Sweep(q, alive, now).1 :: p in alive
  {
    forall p | p in SleepQueue.Sweep(q, alive, now).1 ensures p in alive {
      var k := SleepQueue.SweepWoken(q, alive, now, p);
    }
  }

  /** With one entry for each, a sweep wakes those whose entry it takes. */
  lemma SweepApart(q: seq<SleepQueue.Entry>, alive: set<int>, now: int)
    requires OneEach(q, alive)
    ensures var (rest, woken) := SleepQueue.Sweep(q, alive, now);
            && OneEach(rest, alive) && (forall p <- woken :: p in alive && SleepQueue.Has(q, p))
            && forall p <- alive :: SleepQueue.Has(rest, p) <==> SleepQueue.Has(q, p) && p !in woken
  {
    hide OneEach, SleepQueue.Has, SleepQueue.Sweep;
    var (rest, woken) := SleepQueue.Sweep(q, alive, now);
    forall p | p in alive ensures (SleepQueue.Has(rest, p) <==> SleepQueue.Has(q, p) && p !in woken)
                                  && (p in woken ==> SleepQueue.Has(q, p)) {
      SweptWereAsleep(q, alive, now, p);
    }
    SweptOneEach(q, alive, now);
    WokenAreAlive(q, alive, now);
  }

  /** A tick keeps everything: whoever it wakes was asleep. */
  lemma TickKeeps(s: Sys)
    requires FullInv(s)
    ensures FullInv(TickStep(s))
  {
    hide SysInv, Alive, OneEach, SleepQueue.Has, SleepQueue.Sweep, Pids, StaleInFront, Wake;
    PidsOf(s);
    AliveHas(s);
    var (rest, woken) := SleepQueue.Sweep(s.sleepers, Alive(s), s.now + 1);
    var u, t := s.(sleepers := rest, now := s.now + 1), TickStep(s);
    ListIsApart(s, rest, s.now + 1);
    SweepApart(s.sleepers, Alive(s), s.now + 1);
    PidsFrame(s, u);
    forall p | p in woken ensures NotQueued(u, p) { }
    WakeAllKeeps(u, woken);
    WakeAllForm(u, woken);
    AliveFrame(s, t);
    TickStale(s, t);
  }

  lemma PidsOf(s: Sys)
    requires SysInv(s)
    ensures Pids(s)
  {
  }

  lemma TickStale(s: Sys, t: Sys)
    requires StaleInFront(s) && t.global == s.global && t.mainPid == s.mainPid && Alive(t) == Alive(s)
    requires MainCameIn(t.main) ==> MainCameIn(s.main)
    ensures StaleInFront(t)
  {
    StaleFrame(s, t);
  }

  /** Once a tick has passed, the sleep list holds no pid of a dead process, so that every free pid is a prudent choice. */
  ghost predicate NoneDead(s: Sys) {
    forall e <- s.sleepers :: e.pid in Alive(s)
  }

  lemma TickClears(s: Sys)
    requires Pids(s)
    ensures NoneDead(TickStep(s))
  {
    hide Alive, Pids;
    var (rest, woken) := SleepQueue.Sweep(s.sleepers, Alive(s), s.now + 1);
    var u := s.(sleepers := rest, now := s.now + 1);
    PidsFrame(s, u);
    WakeAllForm(u, woken);
    AliveFrame(s, TickStep(s));
    forall e | e in rest ensures e.pid in Alive(s) { SleepQueue.SweepMembers(s.sleepers, Alive(s), s.now + 1, e); }
  }

  /** Then every free pid is a prudent choice. */
  lemma ClearedIsPrudent(s: Sys, e: Event)
    requires NoneDead(s) && Enabled(s, e)
    ensures Prudent(s, e)
  {
    if e.MainActs? && s.main == JoinIn {
      forall i | 0 <= i < |s.sleepers| ensures s.sleepers[i].pid != e.c.pid { assert s.sleepers[i] in s.sleepers; }
    }
  }

  /** It stays so until somebody dies. */
  lemma NoneDeadStays(s: Sys, e: Event)
    requires NoneDead(s) && Enabled(s, e) && Sound(s) && !e.OtherDies?
    requires (e.PhilActs? && Inside(s.phils[e.i].pc) ==> e.i < s.table.count) && (e.Tick? ==> Pids(s))
    requires Alive(s) <= Alive(Next(s, e))
    ensures NoneDead(Next(s, e))
  {
    hide Alive, PhilStep, MainStep, TickStep;
    AliveHas(s);
    match e
    case Tick => TickClears(s);
    case PhilActs(i) => PhilList(s, i); NoneDeadAdd(s, s.phils[i].pid, s.now + TICKS_RESTING);
    case MainActs(c) =>
      MainList(s, c);
      NoneDeadAdd(s, s.mainPid, s.now + TICKS_AT_PROMPT);
      NoneDeadAdd(s, s.mainPid, s.now + TICKS_REMOVING);
  }

  lemma NoneDeadAdd(s: Sys, pid: int, wake: int)
    requires NoneDead(s) && pid in Alive(s)
    ensures forall e <- SleepQueue.Add(s.sleepers, SleepQueue.Entry(pid, wake)) :: e.pid in Alive(s)
  {
    AddMembers(s.sleepers, SleepQueue.Entry(pid, wake));
  }

  /** What the steps do to the sleep list. */
  lemma PhilList(s: Sys, i: nat)
    requires Sound(s) && i < |s.phils| && (Inside(s.phils[i].pc) ==> i < s.table.count)
    ensures PhilStep(s, i).sleepers == s.sleepers
            || PhilStep(s, i).sleepers == SleepQueue.Add(s.sleepers, SleepQueue.Entry(s.phils[i].pid, s.now + TICKS_RESTING))
  {
    hide Take, LeaveLeft, LeaveRight, PhilWaits, PostGlobal, PostFork, WaitFork;
    match s.phils[i].pc
    case Hungry => WaitsList(s, i, TakeQueued, TakeIn);
    case Full => WaitsList(s, i, LeaveQueued, LeaveIn);
    case TakePostFork => PostList(Goto(s, i, TakePostGlobal), i);
    case TakePostGlobal => PostList(Goto(s, i, WantsFork), i);
    case WantsFork => WaitForkList(s, i);
    case LeavePostLeft => PostList(Goto(s, i, LeaveServeRight), Pred(i, s.table.count));
    case LeavePostRight => PostList(Goto(s, i, LeavePostGlobal), Succ(i, s.table.count));
    case LeavePostGlobal => PostList(Goto(s, i, Rests), i);
    case _ =>
  }

  lemma WaitsList(s: Sys, i: nat, queued: Pc, inside: Pc)
    requires i < |s.phils|
    ensures PhilWaits(s, i, queued, inside).sleepers == s.sleepers
  {
  }

  lemma WaitForkList(s: Sys, i: nat)
    requires i < |s.forks| && i < |s.phils|
    ensures WaitFork(s, i).sleepers == s.sleepers
  {
  }

  lemma WakeList(s: Sys, pid: int)
    ensures Wake(s, pid).sleepers == s.sleepers
  {
  }

  lemma PostList(s: Sys, i: nat)
    requires i < |s.forks|
    ensures PostGlobal(s).sleepers == s.sleepers && PostFork(s, i).sleepers == s.sleepers
  {
    hide Wake, FindPid, Alive, Post;
    var (g, r) := Post(s.global, Alive(s));
    if r.Handed? {
      WakeList(s.(global := g, owner := if r.pid == s.mainPid then MainOwns else PhilOwns(FindPid(s.phils, r.pid))), r.pid);
    }
    var (f, q) := Post(s.forks[i], Alive(s));
    if q.Handed? { WakeList(s.(forks := s.forks[i := f]), q.pid); }
  }

  lemma MainList(s: Sys, c: Command)
    requires Sound(s)
    ensures var q := MainStep(s, c).sleepers;
            || q == s.sleepers || q == SleepQueue.Add(s.sleepers, SleepQueue.Entry(s.mainPid, s.now + TICKS_AT_PROMPT))
            || q == SleepQueue.Add(s.sleepers, SleepQueue.Entry(s.mainPid, s.now + TICKS_REMOVING))
  {
    hide Alive, PostGlobal, MainWaits, Depart, MustStay, SleepQueue.Add;
    match s.main
    case AtPrompt => MainWaitsList(s, JoinQueued, JoinIn); MainWaitsList(s, RemoveQueued, RemoveIn);
    case RemoveBack => MainWaitsList(s, CheckQueued, CheckIn);
    case JoinPost => PostList(s.(main := AtPrompt), 0);
    case RemoveIn => PostList(s.(main := RemoveAway), 0);
    case CheckIn => PostList(s.(main := RemoveAway), 0);
    case RemovePost => PostList(s.(main := AtPrompt), 0);
    case _ =>
  }

  lemma MainWaitsList(s: Sys, queued: MainPc, inside: MainPc)
    ensures MainWaits(s, queued, inside).sleepers == s.sleepers
  {
  }

  // ----- runs -----

  /** What phylo_main has set up when it is about to let the first philosopher join. */
  function Start(mainPid: int): Sys {
    Sys(Table(seq(MAX_DINER, _ => Absent), 0), Sem(1, []), seq(MAX_DINER, _ => Sem(CLOSED, [])), [], mainPid, AtPrompt, Nobody, false, [], 0)
  }

  /** Some run leads from s to t; prudent tells that no new philosopher gets a pid that the sleep list still holds. */
  ghost predicate Reaches(prudent: bool, s: Sys, es: seq<Event>, t: Sys)
    decreases |es|
  {
    if es == [] then t == s
    else
      Sound(s) && Enabled(s, es[0]) && (es[0].PhilActs? && Inside(s.phils[es[0].i].pc) ==> es[0].i < s.table.count)
      && (prudent ==> Prudent(s, es[0])) && Reaches(prudent, Next(s, es[0]), es[1..], t)
  }

  lemma NextKeeps(s: Sys, e: Event)
    requires FullInv(s) && Enabled(s, e) && Prudent(s, e)
    ensures Sound(s) && (e.PhilActs? && Inside(s.phils[e.i].pc) ==> e.i < s.table.count) && FullInv(Next(s, e))
  {
    hide SysInv, StaleInFront, SleepersMatch, PhilStep, MainStep, TickStep;
    SoundOf(s);
    match e
    case PhilActs(i) => PhilStepKeeps(s, i); PhilStepStale(s, i); PhilStepSleepers(s, i);
    case MainActs(c) => MainStepKeeps(s, c); MainStepStale(s, c); MainStepSleepers(s, c);
    case Tick => TickKeeps(s);
    case OtherDies(pid, wake) => OtherDiesKeeps(s, pid, wake);
  }

  lemma {:induction false} RunKeeps(s: Sys, es: seq<Event>, t: Sys)
    requires FullInv(s) && Reaches(true, s, es, t)
    ensures FullInv(t)
    decreases |es|
  {
    hide SysInv, StaleInFront, SleepersMatch, Next, Prudent;
    if es != [] {
      NextKeeps(s, es[0]);
      RunKeeps(Next(s, es[0]), es[1..], t);
    }
  }

  lemma StartKeeps(mainPid: int)
    requires 1 <= mainPid <= MAX_PROCESSES
    ensures FullInv(Start(mainPid))
  {
  }

  /**
   Safety with changing membership: in every state that any interleaving of taking,
   leaving, sleeping, joining and removing reaches, as long as no new philosopher gets a
   pid that the sleep list still holds, no two neighbours are both between the return of
   take_forks and the call of leave_forks.
   */
  lemma NoTwoNeighboursEat(mainPid: int, es: seq<Event>, t: Sys, i: nat)
    requires 1 <= mainPid <= MAX_PROCESSES && Reaches(true, Start(mainPid), es, t)
    ensures t.table.count <= |t.phils|
    ensures i < t.table.count && 2 <= t.table.count ==> !(AtMeal(t.phils[i].pc) && AtMeal(t.phils[Succ(i, t.table.count)].pc))
  {
    hide Reaches, Shape, Owned, Queues, Forks, Start;
    StartKeeps(mainPid);
    RunKeeps(Start(mainPid), es, t);
    SoundOf(t);
    if i < t.table.count && 2 <= t.table.count {
      Facts(t, i);
      Facts(t, Succ(i, t.table.count));
    }
  }

  lemma SoundOf(t: Sys)
    requires SysInv(t)
    ensures Sound(t)
  {
  }

  /** At most one process is ever inside the section that the global semaphore guards. */
  lemma OneInside(mainPid: int, es: seq<Event>, t: Sys, i: nat, j: nat)
    requires 1 <= mainPid <= MAX_PROCESSES && Reaches(true, Start(mainPid), es, t)
    ensures i < |t.phils| && Inside(t.phils[i].pc) ==>
              !MainInside(t.main) && t.global.value == 0 && (j < |t.phils| && Inside(t.phils[j].pc) ==> j == i)
  {
    hide Reaches, Shape, Queues, Forks, Apart, Start;
    StartKeeps(mainPid);
    RunKeeps(Start(mainPid), es, t);
  }

  // ----- progress -----

  /** Whoever is halfway through leave_forks has yet to look at its right neighbour. */
  ghost predicate Exempt(s: Sys, j: nat) {
    && s.owner.PhilOwns? && s.owner.i < |s.phils| && s.owner.i < s.table.count
    && (s.phils[s.owner.i].pc == LeavePostLeft || s.phils[s.owner.i].pc == LeaveServeRight)
    && j == Succ(s.owner.i, s.table.count)
  }

  /** Philosopher j does not wait for nobody. */
  ghost predicate FedHere(s: Sys, j: nat) {
    ValidTable(s.table) && j < s.table.count && (Exempt(s, j) || FedAt(s.table, j))
  }

  lemma PostGlobalFed(t: Sys, j: nat)
    requires Leaving(t) && j < t.table.count && FedAt(t.table, j)
    ensures FedHere(PostGlobal(t), j)
  {
    hide Shape, Apart, QuietForks, NobodyInside, PostGlobal;
    LeavingFacts(t);
    PostGlobalForks(t);
  }

  lemma PostForkFed(s: Sys, i: nat, k: nat, next: Pc, j: nat)
    requires SysInv(s) && i < s.table.count && i < |s.phils| && Serves(s.phils[i].pc, next, i, k, s.table.count)
    requires FedHere(s, j)
    ensures k < |s.forks| && FedHere(PostFork(Goto(s, i, next), k), j)
  {
    hide Shape, Owned, Queues, Forks, Apart, PostFork;
    Facts(s, i);
    PostForkForm(s, i, k, next);
  }

  /** A step of a philosopher leaves nobody waiting for nobody: taking looks at both sides, and leaving serves both. */
  lemma PhilStepFed(s: Sys, i: nat, j: nat)
    requires SysInv(s) && i < |s.phils| && FedHere(s, j)
    ensures Sound(s) && (Inside(s.phils[i].pc) ==> i < s.table.count) && FedHere(PhilStep(s, i), j)
  {
    hide Shape, Owned, Queues, Forks, Apart, PostGlobal, PostFork, FedHere;
    Facts(s, i);
    match s.phils[i].pc
    case TakeIn => TableFed(s, i, j);
    case TakePostFork => PostForkFed(s, i, i, TakePostGlobal, j);
    case TakePostGlobal => LeavesFed(s, i, WantsFork, j);
    case LeaveIn => TableFed(s, i, j);
    case LeavePostLeft => PostForkFed(s, i, Pred(i, s.table.count), LeaveServeRight, j);
    case LeaveServeRight => TableFed(s, i, j);
    case LeavePostRight => PostForkFed(s, i, Succ(i, s.table.count), LeavePostGlobal, j);
    case LeavePostGlobal => LeavesFed(s, i, Rests, j);
    case _ => OutsideFed(s, i, j);
  }

  lemma TableFed(s: Sys, i: nat, j: nat)
    requires SysInv(s) && i < |s.phils| && FedHere(s, j)
    requires s.phils[i].pc == TakeIn || s.phils[i].pc == LeaveIn || s.phils[i].pc == LeaveServeRight
    ensures Sound(s) && i < s.table.count && FedHere(PhilStep(s, i), j)
  {
    hide Shape, Owned, Queues, Forks, Apart;
    Facts(s, i);
    match s.phils[i].pc
    case TakeIn => TakeFed(s.table, i, j);
    case LeaveIn => if j != Succ(i, s.table.count) { LeaveLeftFed(s.table, i, j); }
    case LeaveServeRight => LeaveRightFed(s.table, i, j);
  }

  lemma LeavesFed(s: Sys, i: nat, next: Pc, j: nat)
    requires SysInv(s) && i < |s.phils| && FedHere(s, j)
    requires (s.phils[i].pc == TakePostGlobal && next == WantsFork) || (s.phils[i].pc == LeavePostGlobal && next == Rests)
    ensures FedHere(PostGlobal(Goto(s, i, next)), j)
  {
    hide Shape, Owned, Queues, Forks, Apart, PostGlobal;
    Facts(s, i);
    PhilLeaves(s, i, next);
    PostGlobalFed(Goto(s, i, next), j);
  }

  lemma OutsideFed(s: Sys, i: nat, j: nat)
    requires SysInv(s) && i < |s.phils| && FedHere(s, j) && !Inside(s.phils[i].pc)
    ensures Sound(s) && FedHere(PhilStep(s, i), j)
  {
    hide Shape, Forks, Apart;
    Facts(s, i);
    if s.phils[i].pc == Hungry || s.phils[i].pc == Full { RoomInRing(s, s.phils[i].pid); }
  }

  lemma MainWaitsFed(s: Sys, queued: MainPc, inside: MainPc, j: nat)
    requires SysInv(s) && MainKnocks(s, queued, inside) && FedHere(s, j)
    ensures FedHere(MainWaits(s, queued, inside), j)
  {
    hide Shape, Forks, Apart;
    RoomInRing(s, s.mainPid);
  }

  /** Nor does a step of main that does not change who sits at the table. */
  lemma MainStepFed(s: Sys, c: Command, j: nat)
    requires SysInv(s) && Enabled(s, MainActs(c)) && FedHere(s, j) && Sound(s)
    requires MainStep(s, c).table == s.table
    ensures FedHere(MainStep(s, c), j)
  {
    hide Owned, Queues, Forks, Apart, PostGlobal, MainWaits;
    if MainInside(s.main) { MainNotHalfway(s, j); }
    match s.main
    case AtPrompt =>
      if c.Add? && s.table.count < MAX_DINER && !s.quitting { MainWaitsFed(s, JoinQueued, JoinIn, j); }
      if c.Remove? && s.table.count > (if s.quitting then 0 else MIN_DINER) { MainWaitsFed(s, RemoveQueued, RemoveIn, j); }
    case JoinPost => MainLeaves(s, AtPrompt); PostGlobalFed(s.(main := AtPrompt), j);
    case RemoveIn => MainLeaves(s, RemoveAway); PostGlobalFed(s.(main := RemoveAway), j);
    case RemoveBack => MainWaitsFed(s, CheckQueued, CheckIn, j);
    case CheckIn => MainLeaves(s, RemoveAway); PostGlobalFed(s.(main := RemoveAway), j);
    case RemovePost => MainLeaves(s, AtPrompt); PostGlobalFed(s.(main := AtPrompt), j);
    case _ =>
  }

  lemma MainNotHalfway(s: Sys, j: nat)
    requires SysInv(s) && FedHere(s, j) && MainInside(s.main)
    ensures FedAt(s.table, j)
  {
  }

  /** When main comes back to the table, the last philosopher goes if and only if not both its neighbours are eating. */
  lemma RemovalWaitsIff(s: Sys, c: Command)
    requires SysInv(s) && s.main == CheckIn
    ensures Sound(s) && s.table.count > 0
    ensures var (st, n, u) := (s.table.states, s.table.count, MainStep(s, c));
            var left := if n > 1 then n - 2 else 0;
            u.table.count == (if st[left] == Eating && st[0] == Eating then n else n - 1)
            && (u.main == RemovePost <==> !(st[left] == Eating && st[0] == Eating))
  {
    hide Owned, Forks, Apart, Alive, Wake;
    SoundOf(s);
    if MustStay(s.table, s.table.count - 1) { LeavingBackAway(s); }
  }

  lemma LeavingBackAway(s: Sys)
    requires SysInv(s) && s.main == CheckIn
    ensures PostGlobal(s.(main := RemoveAway)).main == RemoveAway && PostGlobal(s.(main := RemoveAway)).table == s.table
  {
    hide PostGlobal, Shape, Owned, Forks, Apart, Alive;
    MainLeaves(s, RemoveAway);
    var k := PostGlobalForm(s.(main := RemoveAway));
  }

  /** Philosophers join one at a time up to ten, and leave one at a time, in the absence of a quit only from more than three. */
  lemma DinersBounded(s: Sys, e: Event)
    requires SysInv(s) && Enabled(s, e)
    ensures Sound(s) && (e.PhilActs? && Inside(s.phils[e.i].pc) ==> e.i < s.table.count)
    ensures var (n, u) := (s.table.count, Next(s, e).table.count);
            && u <= 10 && n <= u + 1 && u <= n + 1 && (u > n ==> e.MainActs? && s.main == JoinCount)
            && (u < n ==> e.MainActs? && s.main == CheckIn && n > if s.quitting then 0 else 3)
  {
    hide Owned, Queues, Forks, Apart, PhilStep, TickStep, Alive;
    SoundOf(s);
    match e
    case PhilActs(i) => CountKept(s, i);
    case Tick => TickTable(s);
    case OtherDies(_, _) =>
    case MainActs(c) =>
      if s.main == CheckIn { RemovalWaitsIff(s, c); }
      else if s.main != JoinCount { MainKeepsTable(s, c); }
  }

  /** A run in which nobody joins or leaves. */
  ghost predicate Steady(s: Sys, es: seq<Event>, t: Sys)
    decreases |es|
  {
    if es == [] then t == s
    else
      Sound(s) && Enabled(s, es[0]) && (es[0].PhilActs? && Inside(s.phils[es[0].i].pc) ==> es[0].i < s.table.count)
      && (es[0].MainActs? ==> Next(s, es[0]).table == s.table && |Next(s, es[0]).phils| == |s.phils|)
      && Steady(Next(s, es[0]), es[1..], t)
  }

  lemma NobodyCreated(s: Sys, e: Event)
    requires FullInv(s) && Enabled(s, e) && Sound(s)
    requires e.MainActs? ==> |MainStep(s, e.c).phils| == |s.phils|
    ensures Prudent(s, e)
  {
    hide Owned, Queues, Forks, Apart, StaleInFront, SleepersMatch;
  }

  lemma TickFed(s: Sys, j: nat)
    requires SysInv(s) && FedHere(s, j)
    ensures FedHere(TickStep(s), j) && TickStep(s).table == s.table && TickStep(s).quitting == s.quitting
  {
    hide Shape, Forks, Apart, Alive;
    PidsOf(s);
    var (rest, woken) := SleepQueue.Sweep(s.sleepers, Alive(s), s.now + 1);
    var u := s.(sleepers := rest, now := s.now + 1);
    PidsFrame(s, u);
    WakeAllForm(u, woken);
  }

  lemma TickTable(s: Sys)
    requires SysInv(s)
    ensures TickStep(s).table == s.table && TickStep(s).quitting == s.quitting
  {
    hide Shape, Forks, Apart, Alive;
    PidsOf(s);
    var (rest, woken) := SleepQueue.Sweep(s.sleepers, Alive(s), s.now + 1);
    var u := s.(sleepers := rest, now := s.now + 1);
    PidsFrame(s, u);
    WakeAllForm(u, woken);
  }

  /** A step of a philosopher, a tick, or somebody else's end. */
  lemma OutsideKept(s: Sys, e: Event, j: nat)
    requires SysInv(s) && Enabled(s, e) && !e.MainActs?
    ensures Sound(s) && (e.PhilActs? && Inside(s.phils[e.i].pc) ==> e.i < s.table.count)
    ensures Next(s, e).table.count == s.table.count && Next(s, e).quitting == s.quitting
    ensures FedHere(s, j) ==> FedHere(Next(s, e), j)
  {
    hide SysInv, FedHere, PhilStep, TickStep;
    SoundOf(s);
    match e
    case PhilActs(i) =>
      CountKept(s, i);
      PhilKeepsQuitting(s, i);
      if FedHere(s, j) { PhilStepFed(s, i, j); }
    case Tick =>
      TickTable(s);
      if FedHere(s, j) { TickFed(s, j); }
    case OtherDies(_, _) => ListNotFed(s, Next(s, e), j);
  }

  lemma ListNotFed(s: Sys, t: Sys, j: nat)
    requires t == s.(sleepers := t.sleepers)
    ensures FedHere(s, j) ==> FedHere(t, j)
  {
  }

  lemma CountKept(s: Sys, i: nat)
    requires SysInv(s) && i < |s.phils|
    ensures Sound(s) && (Inside(s.phils[i].pc) ==> i < s.table.count) && PhilStep(s, i).table.count == s.table.count
  {
    hide Shape, Owned, Queues, Forks, Apart;
    Facts(s, i);
  }

  lemma {:induction false} SteadyFed(s: Sys, es: seq<Event>, t: Sys, j: nat)
    requires FullInv(s) && Steady(s, es, t) && FedHere(s, j)
    ensures FullInv(t) && FedHere(t, j) && t.table.count == s.table.count
    decreases |es|
  {
    hide SysInv, StaleInFront, SleepersMatch, FedHere, PhilStep, MainStep, TickStep;
    if es != [] {
      NobodyCreated(s, es[0]);
      NextKeeps(s, es[0]);
      if es[0].MainActs? { MainStepFed(s, es[0].c, j); } else { OutsideKept(s, es[0], j); }
      SteadyFed(Next(s, es[0]), es[1..], t, j);
    }
  }

  /**
   Progress with fixed membership: if everyone who waits has a neighbour that eats, as
   when all are thinking, then after any interleaving this is so again whenever the
   global semaphore is free.
   */
  lemma WaitingHaveEatingNeighbours(s: Sys, es: seq<Event>, t: Sys)
    requires FullInv(s) && Steady(s, es, t) && Fed(s.table)
    ensures ValidTable(t.table) && t.table.count == s.table.count
    ensures t.owner == Nobody ==> Fed(t.table)
  {
    hide SysInv, Steady;
    SoundOf(s);
    SteadyCount(s, es, t);
    SoundOf(t);
    forall j | 0 <= j < t.table.count ensures t.owner == Nobody ==> FedAt(t.table, j) {
      assert FedAt(s.table, j);
      SteadyFed(s, es, t, j);
    }
  }

  lemma {:induction false} SteadyCount(s: Sys, es: seq<Event>, t: Sys)
    requires FullInv(s) && Steady(s, es, t)
    ensures FullInv(t) && t.table.count == s.table.count
    decreases |es|
  {
    hide SysInv, StaleInFront, SleepersMatch, PhilStep, MainStep, TickStep;
    if es != [] {
      NobodyCreated(s, es[0]);
      NextKeeps(s, es[0]);
      if !es[0].MainActs? { OutsideKept(s, es[0], 0); }
      SteadyCount(Next(s, es[0]), es[1..], t);
    }
  }

  // ----- no deadlock while philosophers come and go -----

  /** The second philosopher, as long as there is one, does not wait for nobody. */
  ghost predicate SecondFed(s: Sys) {
    !s.quitting && (s.table.count >= 2 ==> FedHere(s, 1))
  }

  lemma MainStepSecond(s: Sys, c: Command)
    requires SysInv(s) && Enabled(s, MainActs(c)) && Sound(s) && SecondFed(s) && c != Quit
    ensures SecondFed(MainStep(s, c))
  {
    hide Owned, Queues, Forks, Apart, PostGlobal, MainWaits;
    MainKeepsQuitting(s, c);
    if s.main == JoinCount || (s.main == CheckIn && !MustStay(s.table, s.table.count - 1)) {
      MainCountsSecond(s, c);
    } else {
      MainKeepsTable(s, c);
      if s.table.count >= 2 { MainStepFed(s, c, 1); }
    }
  }

  lemma MainCountsSecond(s: Sys, c: Command)
    requires SysInv(s) && Enabled(s, MainActs(c)) && Sound(s) && SecondFed(s) && c != Quit
    requires s.main == JoinCount || (s.main == CheckIn && s.table.count > 0 && !MustStay(s.table, s.table.count - 1))
    ensures SecondFed(MainStep(s, c))
  {
    hide MainStep, SysInv, SecondFed;
    if s.main == JoinCount { JoinSecond(s, c); } else { DepartSecond(s, c); }
  }

  lemma JoinSecond(s: Sys, c: Command)
    requires SysInv(s) && Sound(s) && SecondFed(s) && s.main == JoinCount
    ensures SecondFed(MainStep(s, c))
  {
    hide Owned, Queues, Forks, Apart, Alive;
    Facts(s, s.table.count);
    if s.table.count >= 2 {
      MainNotHalfway(s, 1);
      SecondNeverOrphaned(s.table);
    }
  }

  lemma DepartSecond(s: Sys, c: Command)
    requires SysInv(s) && Sound(s) && SecondFed(s)
    requires s.main == CheckIn && s.table.count > 0 && !MustStay(s.table, s.table.count - 1)
    ensures SecondFed(MainStep(s, c))
  {
    hide Owned, Queues, Forks, Apart, Alive;
    MainNotHalfway(s, 1);
    SecondNeverOrphaned(s.table);
  }

  lemma MainKeepsQuitting(s: Sys, c: Command)
    requires Sound(s) && c != Quit
    ensures MainStep(s, c).quitting == s.quitting
  {
    hide Wait, Post, FindPid, Depart, MustStay;
  }

  lemma MainKeepsTable(s: Sys, c: Command)
    requires Sound(s) && s.main != JoinCount && (s.main == CheckIn && s.table.count > 0 ==> MustStay(s.table, s.table.count - 1))
    ensures MainStep(s, c).table == s.table
  {
  }

  lemma PhilKeepsQuitting(s: Sys, i: nat)
    requires Sound(s) && i < |s.phils| && (Inside(s.phils[i].pc) ==> i < s.table.count)
    ensures PhilStep(s, i).quitting == s.quitting
  {
    hide Wait, Post, FindPid, Take, LeaveLeft, LeaveRight;
  }

  lemma {:induction false} RunSecond(s: Sys, es: seq<Event>, t: Sys)
    requires FullInv(s) && Reaches(true, s, es, t) && SecondFed(s) && forall e <- es :: e != MainActs(Quit)
    ensures FullInv(t) && SecondFed(t)
    decreases |es|
  {
    hide SysInv, StaleInFront, SleepersMatch, FedHere, PhilStep, MainStep, TickStep;
    if es != [] {
      NextKeeps(s, es[0]);
      assert es[0] in es;
      if es[0].MainActs? { MainStepSecond(s, es[0].c); } else { OutsideKept(s, es[0], 1); }
      forall e | e in es[1..] ensures e != MainActs(Quit) { assert e in es; }
      RunSecond(Next(s, es[0]), es[1..], t);
    }
  }

  predicate Blocked(pc: Pc) { pc.TakeQueued? || pc.LeaveQueued? || pc.ForkQueued? }

  /** Waits for no semaphore, and if it is asleep the sleep list has its entry. */
  ghost predicate GoesOn(t: Sys, p: Phil) {
    !Blocked(p.pc) && (Asleep(p.pc) ==> SleepQueue.Has(t.sleepers, p.pid))
  }

  /** Whoever waits for its own semaphore while nobody is inside is in the state Waiting. */
  lemma BlockedIsWaiting(t: Sys, i: nat)
    requires SysInv(t) && i < t.table.count && t.owner == Nobody
    ensures i < |t.phils|
    ensures Blocked(t.phils[i].pc) ==> t.table.states[i] == Waiting
  {
    hide Shape, Forks, Apart;
    SoundOf(t);
    Facts(t, i);
  }

  /**
   No deadlock: before main quits, whoever has joined and left, as long as two or more
   sit at the table either the process inside can go on, or nobody is inside and some
   philosopher is not waiting for a semaphore: a step or a tick takes it further.
   */
  lemma SomebodyCanMove(mainPid: int, es: seq<Event>, t: Sys)
    requires 1 <= mainPid <= MAX_PROCESSES && Reaches(true, Start(mainPid), es, t) && forall e <- es :: e != MainActs(Quit)
    requires t.table.count >= 2
    ensures t.table.count <= |t.phils|
    ensures match t.owner
      case Nobody => exists i :: 0 <= i < t.table.count && GoesOn(t, t.phils[i])
      case MainOwns => MainInside(t.main)
      case PhilOwns(h) => h < t.table.count && Inside(t.phils[h].pc)
  {
    hide Reaches, Shape, Queues, Forks, Apart, Start;
    StartKeeps(mainPid);
    StartSecond(mainPid);
    RunSecond(Start(mainPid), es, t);
    SoundOf(t);
    if t.owner == Nobody {
      var n := t.table.count;
      BlockedIsWaiting(t, 1);
      BlockedIsWaiting(t, 0);
      BlockedIsWaiting(t, Succ(1, n));
      assert FedAt(t.table, 1);
      assert !Blocked(t.phils[1].pc) || !Blocked(t.phils[0].pc) || !Blocked(t.phils[Succ(1, n)].pc);
      assert GoesOn(t, t.phils[1]) || GoesOn(t, t.phils[0]) || GoesOn(t, t.phils[Succ(1, n)]);
    }
  }

  lemma StartSecond(mainPid: int)
    ensures SecondFed(Start(mainPid))
  {
  }
}
