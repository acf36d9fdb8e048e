/**
 The scheduler as functions on values: the process table, the circular ready list
 from its first node on, the node that owns the processor, and the current process.
 */
module SchedulerSpec {
  import opened Circle

  datatype Status = Running | Ready | Blocked

  /** A live process.  A terminated one is no longer in the table. */
  datatype Proc = Proc(status: Status, priority: int, sp: int)

  datatype Node = Node(pid: int, counter: int)

  datatype Sched = Sched(procs: map<int, Proc>, ring: seq<Node>, cur: nat, current: int)

  const INIT_PID := 1

  predicate Listed(ring: seq<Node>, pid: int) {
    exists i :: 0 <= i < |ring| && ring[i].pid == pid
  }

  function IndexOf(ring: seq<Node>, pid: int): (i: nat)
    requires Listed(ring, pid)
    ensures i < |ring| && ring[i].pid == pid && forall j | 0 <= j < i :: ring[j].pid != pid
  {
    if ring[0].pid == pid then 0 else
      assert exists j :: 0 <= j < |ring[1..]| && ring[1..][j].pid == pid by {
        var j :| 0 <= j < |ring| && ring[j].pid == pid;
        assert ring[1..][j - 1].pid == pid;
      }
      1 + IndexOf(ring[1..], pid)
  }

  // ----- the operations -----

  /** The current node is one of the list. */
  predicate CurOk(s: Sched) {
    s.ring != [] ==> s.cur < |s.ring|
  }

  function AddReady(s: Sched, pid: int): (r: Sched)
    requires pid in s.procs
    ensures CurOk(s) ==> CurOk(r)
  {
    if Listed(s.ring, pid) then s
    else s.(ring := s.ring + [Node(pid, s.procs[pid].priority)], cur := if s.ring == [] then 0 else s.cur)
  }

  /** Where the current node stands once the i-th node is gone; a removed current node is succeeded by the next. */
  function CurAfterRemove(n: nat, cur: nat, i: nat): (c: nat)
    requires i < n && cur < n
    ensures n > 1 ==> c < n - 1
  {
    if i < cur then cur - 1
    else if i == cur && i + 1 == n then 0
    else cur
  }

  function RemoveReady(s: Sched, pid: int): (r: Sched)
    requires CurOk(s)
    ensures CurOk(r)
  {
    if !Listed(s.ring, pid) then s
    else
      var i := IndexOf(s.ring, pid);
      s.(ring := Remove(s.ring, i), cur := CurAfterRemove(|s.ring|, s.cur, i))
  }

  function SetStatus(s: Sched, pid: int, st: Status): Sched
    requires pid in s.procs
  {
    s.(procs := s.procs[pid := s.procs[pid].(status := st)])
  }

  /** block_process; the flag tells whether it succeeded. */
  function Block(s: Sched, pid: int): (r: (Sched, bool))
    requires CurOk(s)
    ensures CurOk(r.0)
  {
    if pid !in s.procs || s.procs[pid].status == Blocked then (s, false)
    else (RemoveReady(SetStatus(s, pid, Blocked), pid), true)
  }

  /** unblock_process */
  function Unblock(s: Sched, pid: int): (r: (Sched, bool))
    ensures CurOk(s) ==> CurOk(r.0)
  {
    if pid == INIT_PID || pid !in s.procs || s.procs[pid].status != Blocked then (s, false)
    else (AddReady(SetStatus(s, pid, Ready), pid), true)
  }

  /** createProcess, as far as the scheduler sees it */
  function Create(s: Sched, pid: int, priority: int, sp: int): Sched {
    AddReady(s.(procs := s.procs[pid := Proc(Ready, priority, sp)]), pid)
  }

  /** Removing a process for good, as kill_process and exit_process do before they reschedule. */
  function Terminate(s: Sched, pid: int): (r: Sched)
    requires CurOk(s)
    ensures CurOk(r)
  {
    RemoveReady(s, pid).(procs := s.procs - {pid})
  }

  const PRIORITIES := {8, 4, 2, 1}

  /** modify_priority: an unknown priority is stored, but leaves the running quantum alone. */
  function SetPriority(s: Sched, pid: int, priority: int): (Sched, bool) {
    if pid !in s.procs then (s, false)
    else
      var t := s.(procs := s.procs[pid := s.procs[pid].(priority := priority)]);
      if priority !in PRIORITIES then (t, false)
      else if Listed(s.ring, pid) then
        (t.(ring := s.ring[IndexOf(s.ring, pid) := Node(pid, priority)]), true)
      else (t, true)
  }

  /** How many ticks a quantum lasts: a process whose counter starts below 1 still runs until the next tick. */
  function Quantum(n: int): (q: nat)
    ensures q >= 1
  {
    if n < 1 then 1 else n
  }

  predicate IsReady(s: Sched, i: nat)
    requires i < |s.ring|
  {
    s.ring[i].pid in s.procs && s.procs[s.ring[i].pid].status == Ready
  }

  /** The search of scheduler(): the first ready node after i, looking at no more than left nodes. */
  function Search(s: Sched, i: nat, left: nat): (j: int)
    requires i < |s.ring|
    ensures j == -1 || (0 <= j < |s.ring| && IsReady(s, j))
    decreases left
  {
    if left == 0 then -1
    else
      var j := Succ(i, |s.ring|);
      if IsReady(s, j) then j else Search(s, j, left - 1)
  }

  predicate CurrentIs(s: Sched, st: Status) {
    s.current in s.procs && s.procs[s.current].status == st
  }

  function SaveSp(s: Sched, sp: int): Sched
    requires s.current in s.procs
  {
    s.(procs := s.procs[s.current := s.procs[s.current].(sp := sp)])
  }

  /** Gives the processor to the process of node j. */
  function RunNode(s: Sched, j: nat): (Sched, int)
    requires j < |s.ring| && s.ring[j].pid in s.procs
  {
    var p := s.ring[j].pid;
    (s.(procs := s.procs[p := s.procs[p].(status := Running)],
        ring := s.ring[j := Node(p, s.procs[p].priority)], cur := j, current := p),
     s.procs[p].sp)
  }

  /** scheduler(): the state after it and the stack pointer it returns. */
  function Dispatch(s: Sched, sp: int): (Sched, int)
    requires CurOk(s)
  {
    if s.ring == [] then (s, sp)
    else if CurrentIs(s, Running) then
      var t := SaveSp(s, sp);
      var u := t.(ring := t.ring[t.cur := t.ring[t.cur].(counter := t.ring[t.cur].counter - 1)]);
      if u.ring[u.cur].counter > 0 then (u, sp) else Choose(SetStatus(u, s.current, Ready), sp)
    else if CurrentIs(s, Blocked) then Choose(SaveSp(s, sp), sp)
    else Choose(s, sp)
  }

  /** The search loop and what follows when it finds nothing. */
  function Choose(s: Sched, sp: int): (Sched, int)
    requires s.ring != [] && s.cur < |s.ring|
  {
    var j := Search(s, s.cur, |s.ring|);
    if j >= 0 then RunNode(s, j)
    else if s.current in s.procs then
      (SetStatus(s, s.current, Running).(ring := s.ring[s.cur := s.ring[s.cur].(counter := s.procs[s.current].priority)]),
       s.procs[s.current].sp)
    else (s, sp)
  }

  // ----- what every state keeps -----

  ghost predicate DistinctPids(ring: seq<Node>) {
    forall i, j | 0 <= i < j < |ring| :: ring[i].pid != ring[j].pid
  }

  /** The ready list is one cycle of exactly the processes that can run. */
  ghost predicate RingMatches(s: Sched) {
    DistinctPids(s.ring)
    && forall p :: Listed(s.ring, p) <==> p in s.procs && s.procs[p].status != Blocked
  }

  /** A running process is the current one and owns the current node. */
  ghost predicate OwnerMatches(s: Sched) {
    s.cur < |s.ring|
    && forall p | p in s.procs && s.procs[p].status == Running ::
      p == s.current && s.ring[s.cur].pid == p
  }

  ghost predicate Inv(s: Sched, idle: int) {
    && idle in s.procs && s.procs[idle].status != Blocked
    && RingMatches(s) && OwnerMatches(s)
  }

  /** Between system calls the current process is the one running. */
  ghost predicate Settled(s: Sched) {
    CurrentIs(s, Running)
  }

  // ----- the invariant over every operation -----

  lemma ListedRemove(ring: seq<Node>, i: nat, p: int)
    requires i < |ring| && DistinctPids(ring)
    ensures Listed(Remove(ring, i), p) <==> Listed(ring, p) && p != ring[i].pid
    ensures DistinctPids(Remove(ring, i))
  {
    var r := Remove(ring, i);
    if Listed(r, p) {
      var j :| 0 <= j < |r| && r[j].pid == p;
      assert ring[if j < i then j else j + 1].pid == p;
    }
    if Listed(ring, p) && p != ring[i].pid {
      var j :| 0 <= j < |ring| && ring[j].pid == p;
      assert r[if j < i then j else j - 1].pid == p;
    }
  }

  lemma ListedAppend(ring: seq<Node>, n: Node, p: int)
    ensures Listed(ring + [n], p) <==> Listed(ring, p) || p == n.pid
  {
    var r := ring + [n];
    if Listed(ring, p) { var j :| 0 <= j < |ring| && ring[j].pid == p; assert r[j].pid == p; }
    if p == n.pid { assert r[|ring|].pid == p; }
  }

  lemma ListedUpdate(ring: seq<Node>, i: nat, n: Node, p: int)
    requires i < |ring| && n.pid == ring[i].pid
    ensures Listed(ring[i := n], p) <==> Listed(ring, p)
  {
    var r := ring[i := n];
    if Listed(ring, p) { var j :| 0 <= j < |ring| && ring[j].pid == p; assert r[j].pid == p; }
    if Listed(r, p) { var j :| 0 <= j < |r| && r[j].pid == p; assert ring[j].pid == p; }
  }

  /** The process that owns the current node keeps owning it when another node is removed. */
  lemma OwnerAfterRemove(ring: seq<Node>, cur: nat, i: nat)
    requires i < |ring| && cur < |ring| && i != cur
    ensures var r, c := Remove(ring, i), CurAfterRemove(|ring|, cur, i); c < |r| && r[c] == ring[cur]
  {
  }

  lemma BlockInv(s: Sched, idle: int, pid: int)
    requires Inv(s, idle) && pid != idle
    ensures Inv(Block(s, pid).0, idle)
  {
    if Block(s, pid).1 {
      var t := SetStatus(s, pid, Blocked);
      var u := RemoveReady(t, pid);
      assert Listed(s.ring, pid);
      var i := IndexOf(s.ring, pid);
      forall p ensures Listed(u.ring, p) <==> p in u.procs && u.procs[p].status != Blocked { ListedRemove(s.ring, i, p); }
      assert Listed(u.ring, idle);
      if i != s.cur { OwnerAfterRemove(s.ring, s.cur, i); }
    }
  }

  lemma TerminateInv(s: Sched, idle: int, pid: int)
    requires Inv(s, idle) && pid != idle
    ensures Inv(Terminate(s, pid), idle)
  {
    var u := Terminate(s, pid);
    if Listed(s.ring, pid) {
      var i := IndexOf(s.ring, pid);
      forall p ensures Listed(u.ring, p) <==> p in u.procs && u.procs[p].status != Blocked { ListedRemove(s.ring, i, p); }
      assert Listed(u.ring, idle);
      if i != s.cur { OwnerAfterRemove(s.ring, s.cur, i); }
    }
  }

  lemma AddInv(s: Sched, t: Sched, idle: int, pid: int)
    requires Inv(s, idle) && !Listed(s.ring, pid)
    requires pid in t.procs && t.procs[pid].status == Ready
    requires t == s.(procs := s.procs[pid := t.procs[pid]])
    ensures Inv(AddReady(t, pid), idle)
  {
    var u := AddReady(t, pid);
    var n := Node(pid, t.procs[pid].priority);
    forall p ensures Listed(u.ring, p) <==> p in u.procs && u.procs[p].status != Blocked { ListedAppend(s.ring, n, p); }
    assert DistinctPids(u.ring) by {
      forall i, j | 0 <= i < j < |u.ring| ensures u.ring[i].pid != u.ring[j].pid {
        if j == |s.ring| { assert s.ring[i].pid == u.ring[i].pid; }
      }
    }
  }

  lemma UnblockInv(s: Sched, idle: int, pid: int)
    requires Inv(s, idle)
    ensures Inv(Unblock(s, pid).0, idle)
  {
    if Unblock(s, pid).1 { AddInv(s, SetStatus(s, pid, Ready), idle, pid); }
  }

  lemma CreateInv(s: Sched, idle: int, pid: int, priority: int, sp: int)
    requires Inv(s, idle) && pid !in s.procs
    ensures Inv(Create(s, pid, priority, sp), idle)
  {
    AddInv(s, s.(procs := s.procs[pid := Proc(Ready, priority, sp)]), idle, pid);
  }

  lemma SetPriorityInv(s: Sched, idle: int, pid: int, priority: int)
    requires Inv(s, idle)
    ensures Inv(SetPriority(s, pid, priority).0, idle)
  {
    var u := SetPriority(s, pid, priority).0;
    if pid in s.procs && priority in PRIORITIES && Listed(s.ring, pid) {
      var i := IndexOf(s.ring, pid);
      forall p ensures Listed(u.ring, p) <==> p in u.procs && u.procs[p].status != Blocked {
        ListedUpdate(s.ring, i, Node(pid, priority), p);
      }
    }
  }

  /** A priority is always stored, and a known one becomes the counter of the process's node; nothing else changes. */
  lemma SetPriorityTakesEffect(s: Sched, idle: int, pid: int, priority: int)
    requires Inv(s, idle)
    ensures var (t, ok) := SetPriority(s, pid, priority);
            && (ok <==> pid in s.procs && priority in PRIORITIES)
            && t.procs == (if pid in s.procs then s.procs[pid := s.procs[pid].(priority := priority)] else s.procs)
            && |t.ring| == |s.ring| && t.cur == s.cur && t.current == s.current
            && forall i | 0 <= i < |s.ring| :: t.ring[i] == if ok && s.ring[i].pid == pid then Node(pid, priority) else s.ring[i]
  {
    if pid in s.procs && priority in PRIORITIES && !Listed(s.ring, pid) {
      forall i | 0 <= i < |s.ring| ensures s.ring[i].pid != pid { assert Listed(s.ring, s.ring[i].pid); }
    }
  }

  // ----- what the operations change, and what they leave alone -----

  /** The same processes with the same priorities and stack pointers; only the status of pid may differ. */
  ghost predicate OnlyStatus(a: map<int, Proc>, b: map<int, Proc>, pid: int, st: Status) {
    && b.Keys == a.Keys
    && forall p <- a.Keys :: b[p].priority == a[p].priority && b[p].sp == a[p].sp
                             && b[p].status == if p == pid then st else a[p].status
  }

  /** The node of pid, if there is one, has left the ring; the current node stays, or the next one comes up. */
  ghost predicate NodeLeft(s: Sched, t: Sched, pid: int) {
    if !Listed(s.ring, pid) then t.ring == s.ring && t.cur == s.cur
    else exists i :: 0 <= i < |s.ring| && s.ring[i].pid == pid && t.ring == s.ring[..i] + s.ring[i + 1..]
                     && (|s.ring| > 1 && 0 <= s.cur < |s.ring| ==>
                           t.cur < |t.ring| && t.ring[t.cur] == s.ring[if i == s.cur then Succ(s.cur, |s.ring|) else s.cur])
  }

  /** A node with a full quantum has come behind the last one. */
  ghost predicate NodeJoined(s: Sched, t: Sched, pid: int, priority: int) {
    t.ring == s.ring + [Node(pid, priority)] && t.cur == s.cur
  }

  lemma RemoveReadyLeaves(s: Sched, pid: int)
    requires CurOk(s)
    ensures NodeLeft(s, RemoveReady(s, pid), pid)
  {
    if Listed(s.ring, pid) {
      var i := IndexOf(s.ring, pid);
      assert Remove(s.ring, i) == s.ring[..i] + s.ring[i + 1..];
    }
  }

  /** Blocking succeeds for a live process that is not blocked, changes that status alone, and takes its node away. */
  lemma BlockChanges(s: Sched, idle: int, pid: int)
    requires Inv(s, idle)
    ensures CurOk(s)
    ensures var (t, ok) := Block(s, pid);
            && (ok <==> pid in s.procs && s.procs[pid].status != Blocked) && t.current == s.current
            && if ok then OnlyStatus(s.procs, t.procs, pid, Blocked) && NodeLeft(s, t, pid) else t == s
  {
    if Block(s, pid).1 { RemoveReadyLeaves(SetStatus(s, pid, Blocked), pid); }
  }

  /** Waking succeeds for a blocked process other than the first, and makes it ready with the priority it has. */
  lemma UnblockChanges(s: Sched, idle: int, pid: int)
    requires Inv(s, idle)
    ensures var (t, ok) := Unblock(s, pid);
            && (ok <==> pid in s.procs && s.procs[pid].status == Blocked && pid != 1) && t.current == s.current
            && if ok then OnlyStatus(s.procs, t.procs, pid, Ready) && NodeJoined(s, t, pid, s.procs[pid].priority) else t == s
  {
  }

  /** A new process is ready, with the priority and the stack pointer it is given, and the others are as they were. */
  lemma CreateChanges(s: Sched, idle: int, pid: int, priority: int, sp: int)
    requires Inv(s, idle) && pid !in s.procs
    ensures var t := Create(s, pid, priority, sp);
            && t.procs == s.procs[pid := Proc(Ready, priority, sp)] && t.current == s.current
            && NodeJoined(s, t, pid, priority)
  {
  }

  /** A process that is taken away leaves the table and the list, and the others are as they were. */
  lemma TerminateChanges(s: Sched, idle: int, pid: int)
    requires Inv(s, idle)
    ensures CurOk(s)
    ensures var t := Terminate(s, pid); t.procs == s.procs - {pid} && t.current == s.current && NodeLeft(s, t, pid)
  {
    RemoveReadyLeaves(s, pid);
  }

  /** When no process is running, every node is ready, so the search stops at the first one it looks at. */
  lemma SearchFindsNext(s: Sched)
    requires s.cur < |s.ring| && RingMatches(s)
    requires forall p <- s.procs :: s.procs[p].status != Running
    ensures Search(s, s.cur, |s.ring|) == Succ(s.cur, |s.ring|)
  {
    var j := Succ(s.cur, |s.ring|);
    assert Listed(s.ring, s.ring[j].pid);
    assert IsReady(s, j);
  }

  lemma RunNodeInv(s: Sched, idle: int, j: nat)
    requires Inv(s, idle) && j < |s.ring| && IsReady(s, j)
    requires forall p <- s.procs :: s.procs[p].status != Running
    ensures Inv(RunNode(s, j).0, idle) && Settled(RunNode(s, j).0)
  {
    var u := RunNode(s, j).0;
    var n := u.ring[j];
    forall p ensures Listed(u.ring, p) <==> p in u.procs && u.procs[p].status != Blocked {
      ListedUpdate(s.ring, j, n, p);
    }
  }

  /** The state in which scheduler() starts its search, when it does. */
  function BeforeSearch(s: Sched, sp: int): Sched
    requires s.cur < |s.ring|
  {
    if CurrentIs(s, Running) then
      var t := SaveSp(s, sp);
      SetStatus(t.(ring := t.ring[t.cur := t.ring[t.cur].(counter := t.ring[t.cur].counter - 1)]), s.current, Ready)
    else if CurrentIs(s, Blocked) then SaveSp(s, sp)
    else s
  }

  lemma BeforeSearchInv(s: Sched, idle: int, sp: int)
    requires Inv(s, idle)
    ensures Inv(BeforeSearch(s, sp), idle)
    ensures var t := BeforeSearch(s, sp);
            t.current == s.current && t.cur == s.cur && |t.ring| == |s.ring|
            && forall p <- t.procs :: t.procs[p].status != Running
  {
    var t := BeforeSearch(s, sp);
    if CurrentIs(s, Running) {
      var n := t.ring[s.cur];
      forall p ensures Listed(t.ring, p) <==> p in t.procs && t.procs[p].status != Blocked {
        ListedUpdate(s.ring, s.cur, n, p);
      }
    }
  }

  /** A tick that only uses up some of the running process's quantum. */
  function Ticked(s: Sched, sp: int): Sched
    requires s.cur < |s.ring| && s.current in s.procs
  {
    SaveSp(s, sp).(ring := s.ring[s.cur := s.ring[s.cur].(counter := s.ring[s.cur].counter - 1)])
  }

  /** The two things that scheduler() comes to. */
  lemma DispatchForm(s: Sched, idle: int, sp: int)
    requires Inv(s, idle)
    ensures CurOk(s) && s.cur < |s.ring|
    ensures if CurrentIs(s, Running) && s.ring[s.cur].counter > 1 then Dispatch(s, sp) == (Ticked(s, sp), sp)
            else var j := Succ(s.cur, |s.ring|); var t := BeforeSearch(s, sp);
                 |t.ring| == |s.ring| && t.ring[j].pid in t.procs && t.procs[t.ring[j].pid].status == Ready
                 && Dispatch(s, sp) == RunNode(t, j)
  {
    if !(CurrentIs(s, Running) && s.ring[s.cur].counter > 1) {
      BeforeSearchInv(s, idle, sp);
      SearchFindsNext(BeforeSearch(s, sp));
    }
  }

  /**
   scheduler() keeps the invariant and always leaves a process running: the one it
   found running while its quantum lasts, and otherwise the very next one on the ready
   list, so the fall-back after the search is never reached.
   */
  lemma DispatchInv(s: Sched, idle: int, sp: int)
    requires Inv(s, idle)
    ensures Inv(Dispatch(s, sp).0, idle) && Settled(Dispatch(s, sp).0)
    ensures var u := Dispatch(s, sp).0;
            if CurrentIs(s, Running) && s.ring[s.cur].counter > 1
            then u.current == s.current && u.cur == s.cur
            else Search(BeforeSearch(s, sp), s.cur, |s.ring|) == Succ(s.cur, |s.ring|)
                 && u.cur == Succ(s.cur, |s.ring|) && u.current == s.ring[u.cur].pid
  {
    DispatchForm(s, idle, sp);
    if CurrentIs(s, Running) && s.ring[s.cur].counter > 1 {
      TickedInv(s, idle, sp);
    } else {
      BeforeSearchInv(s, idle, sp);
      var t := BeforeSearch(s, sp);
      SearchFindsNext(t);
      RunNodeInv(t, idle, Succ(s.cur, |s.ring|));
    }
  }

  lemma TickedInv(s: Sched, idle: int, sp: int)
    requires Inv(s, idle) && CurrentIs(s, Running) && s.ring[s.cur].counter > 1
    ensures Inv(Ticked(s, sp), idle) && Settled(Ticked(s, sp))
  {
    var u := Ticked(s, sp);
    var n := u.ring[s.cur];
    forall p ensures Listed(u.ring, p) <==> p in u.procs && u.procs[p].status != Blocked {
      ListedUpdate(s.ring, s.cur, n, p);
    }
  }

  /** scheduler() leaves processes and priorities alone, and goes on to the next node when the quantum is used up. */
  lemma DispatchMoves(s: Sched, idle: int, sp: int)
    requires Inv(s, idle)
    ensures var u := Dispatch(s, sp).0;
            && Inv(u, idle) && Settled(u) && |u.ring| == |s.ring|
            && (forall i | 0 <= i < |s.ring| :: u.ring[i].pid == s.ring[i].pid)
            && (forall p :: p in u.procs <==> p in s.procs)
            && (forall p <- s.procs :: u.procs[p].priority == s.procs[p].priority)
            && if CurrentIs(s, Running) && s.ring[s.cur].counter > 1
               then u.cur == s.cur && u.current == s.current && u.ring[u.cur].counter == s.ring[s.cur].counter - 1
               else u.cur == Succ(s.cur, |s.ring|) && u.ring[u.cur].counter == u.procs[u.current].priority
  {
    hide Dispatch, Search;
    DispatchForm(s, idle, sp);
    DispatchInv(s, idle, sp);
  }

  // ----- stack pointers -----

  /** Every process that is not running is stored with the stack pointer it had when it last ran. */
  ghost predicate SpKept(s: Sched, last: map<int, int>) {
    forall p <- s.procs :: p in last && (s.procs[p].status != Running ==> s.procs[p].sp == last[p])
  }

  /**
   The process chosen is resumed with exactly the stack pointer it was preempted with,
   and the one left behind is stored with the one it has now.
   */
  lemma DispatchKeepsSp(s: Sched, idle: int, sp: int, last: map<int, int>)
    requires Inv(s, idle)
    requires forall p <- s.procs :: p in last && (p != s.current ==> s.procs[p].sp == last[p])
    requires s.current in s.procs ==> s.procs[s.current].status != Ready
    ensures var (u, r) := Dispatch(s, sp); var last' := last[s.current := sp];
            SpKept(u, last') && u.current in last' && r == last'[u.current]
  {
    hide Dispatch, Search;
    DispatchForm(s, idle, sp);
  }
}
