/**
 How long a ready process can be kept from the processor.  Every tick brings it nearer
 by one, unless the process running just before it leaves the ready list: then it is
 passed over, and that can happen for ever.
 */
module Fairness {
  import opened Circle
  import opened SchedulerSpec
  import Kernel
  import Semaphores
  import SleepQueue

  function Pids(ring: seq<Node>): (r: seq<int>)
    ensures |r| == |ring| && forall i | 0 <= i < |r| :: r[i] == ring[i].pid
  {
    seq(|ring|, i requires 0 <= i < |ring| => ring[i].pid)
  }

  /** A circular list read from another place. */
  function From(r: seq<int>, c: nat): (o: seq<int>)
    requires c < |r|
    ensures |o| == |r| && forall j | 0 <= j < |o| :: o[j] == r[if c + j < |r| then c + j else c + j - |r|]
  {
    r[c..] + r[..c]
  }

  /** The processes on the ready list in the order in which the scheduler comes to them, from the current node on. */
  function Order(s: Sched): (r: seq<int>)
    requires s.cur < |s.ring|
    ensures |r| == |s.ring| && r[0] == s.ring[s.cur].pid
  {
    From(Pids(s.ring), s.cur)
  }

  /** The ticks of the quantum that a process is given. */
  function Due(procs: map<int, Proc>, q: int): nat {
    if q in procs then Quantum(procs[q].priority) else 0
  }

  /** The ticks due to those that stand before p. */
  function Before(procs: map<int, Proc>, order: seq<int>, p: int): nat {
    if order == [] || order[0] == p then 0 else Due(procs, order[0]) + Before(procs, order[1..], p)
  }

  /** The ticks due before p comes to run: what is left of the running quantum, and the quanta of those in between. */
  function Wait(s: Sched, p: int): nat
    requires s.cur < |s.ring|
  {
    Quantum(s.ring[s.cur].counter) + Before(s.procs, Order(s)[1..], p)
  }

  /** The process is ready, but another one has the processor. */
  predicate IsWaiting(s: Sched, p: int) {
    p in s.procs && s.procs[p].status == Ready && p != s.current
  }

  // ----- sums over the order -----

  predicate SamePriorities(a: map<int, Proc>, b: map<int, Proc>, order: seq<int>) {
    forall q <- order :: Due(a, q) == Due(b, q)
  }

  lemma {:induction false} BeforeSame(a: map<int, Proc>, b: map<int, Proc>, order: seq<int>, p: int)
    requires SamePriorities(a, b, order)
    ensures Before(a, order, p) == Before(b, order, p)
  {
    if order != [] { BeforeSame(a, b, order[1..], p); }
  }

  /** What stands behind p does not matter. */
  lemma {:induction false} BeforeStops(procs: map<int, Proc>, a: seq<int>, b: seq<int>, p: int)
    requires p in a
    ensures Before(procs, a + b, p) == Before(procs, a, p)
  {
    assert (a + b)[0] == a[0] && (a + b)[1..] == a[1..] + b;
    if a[0] != p { BeforeStops(procs, a[1..], b, p); }
  }

  lemma {:induction false} BeforeInsert(procs: map<int, Proc>, a: seq<int>, q: int, b: seq<int>, p: int)
    requires q != p
    ensures Before(procs, a + b, p) <= Before(procs, a + [q] + b, p) <= Before(procs, a + b, p) + Due(procs, q)
  {
    if a == [] {
      assert a + [q] + b == [q] + b && a + b == b && ([q] + b)[1..] == b;
    } else {
      assert (a + b)[1..] == a[1..] + b && (a + [q] + b)[1..] == a[1..] + [q] + b;
      BeforeInsert(procs, a[1..], q, b, p);
    }
  }

  /** Of distinct processes, one with a new priority adds no more than its new quantum. */
  lemma {:induction false} BeforeChanged(a: map<int, Proc>, b: map<int, Proc>, order: seq<int>, p: int, q: int)
    requires Distinct(order) && forall x <- order | x != q :: Due(a, x) == Due(b, x)
    ensures Before(b, order, p) <= Before(a, order, p) + Due(b, q)
  {
    if order != [] {
      if order[0] == q {
        assert SamePriorities(a, b, order[1..]);
        BeforeSame(a, b, order[1..], p);
      } else {
        BeforeChanged(a, b, order[1..], p, q);
      }
    }
  }

  // ----- what the scheduler's operations do to the order -----

  lemma InOrder(s: Sched, idle: int)
    requires Inv(s, idle)
    ensures s.cur < |s.ring| && Distinct(Order(s)) && CurOk(s)
    ensures forall p :: p in Order(s) <==> Listed(s.ring, p)
    ensures forall p <- Order(s) :: p in s.procs
  {
    var r := Pids(s.ring);
    forall p ensures p in Order(s) <==> Listed(s.ring, p) {
      if Listed(s.ring, p) {
        var i :| 0 <= i < |s.ring| && s.ring[i].pid == p;
        assert r[i] == p && r == r[..s.cur] + r[s.cur..];
      }
    }
  }

  lemma AddedOrder(s: Sched, pid: int)
    requires s.cur < |s.ring| && pid in s.procs && !Listed(s.ring, pid)
    ensures var t, k := AddReady(s, pid), |s.ring| - s.cur;
            t.cur < |t.ring| && t.ring[t.cur] == s.ring[s.cur] && 1 <= k <= |Order(s)|
            && Order(t) == Order(s)[..k] + [pid] + Order(s)[k..]
  {
    var t := AddReady(s, pid);
    assert Pids(t.ring) == Pids(s.ring) + [pid];
  }

  /** The place of the i-th node when the list is read from c. */
  function PlaceFrom(n: nat, c: nat, i: nat): (k: nat)
    requires c < n && i < n
    ensures k < n && (k == 0 <==> i == c)
  {
    if i >= c then i - c else i + n - c
  }

  lemma FromRemoved(r: seq<int>, c: nat, i: nat)
    requires c < |r| && i < |r| && |r| > 1
    ensures From(r, c)[PlaceFrom(|r|, c, i)] == r[i]
    ensures From(Remove(r, i), CurAfterRemove(|r|, c, i)) == Remove(From(r, c), PlaceFrom(|r|, c, i))
  {
    var a, b := From(Remove(r, i), CurAfterRemove(|r|, c, i)), Remove(From(r, c), PlaceFrom(|r|, c, i));
    forall j | 0 <= j < |a| ensures a[j] == b[j] { }
  }

  /** The removed process leaves the order; the current node stays unless it is the one that goes. */
  lemma RemovedOrder(s: Sched, pid: int) returns (k: nat)
    requires s.cur < |s.ring| && Listed(s.ring, pid) && DistinctPids(s.ring) && |s.ring| > 1
    ensures k < |Order(s)| && Order(s)[k] == pid && (k == 0 <==> s.ring[s.cur].pid == pid)
    ensures var t := RemoveReady(s, pid);
            t.cur < |t.ring| && Order(t) == Remove(Order(s), k)
            && (k > 0 ==> t.ring[t.cur] == s.ring[s.cur])
  {
    hide From, Order;
    var i, n := IndexOf(s.ring, pid), |s.ring|;
    k := PlaceFrom(n, s.cur, i);
    FromRemoved(Pids(s.ring), s.cur, i);
    assert Pids(RemoveReady(s, pid).ring) == Remove(Pids(s.ring), i);
    OrderIs(s);
    OrderIs(RemoveReady(s, pid));
    if i != s.cur { OwnerAfterRemove(s.ring, s.cur, i); }
  }

  lemma OrderIs(s: Sched)
    requires s.cur < |s.ring|
    ensures Order(s) == From(Pids(s.ring), s.cur)
  {
  }

  lemma RemovedWait(s: Sched, pid: int, p: int)
    requires s.cur < |s.ring| && DistinctPids(s.ring) && pid != p && Listed(s.ring, p) && Listed(s.ring, pid)
    ensures var t := RemoveReady(s, pid);
            t.cur < |t.ring|
            && if s.ring[s.cur].pid == pid then Order(t) == Order(s)[1..] else Wait(t, p) <= Wait(s, p)
  {
    hide Order, RemoveReady;
    OrderLength(s, pid, p);
    var k := RemovedOrder(s, pid);
    var o := Order(s);
    if k > 0 {
      RemoveReadyKeepsTable(s, pid);
      assert o[1..] == o[1..k] + [pid] + o[k + 1..];
      assert Remove(o, k)[1..] == o[1..k] + o[k + 1..];
      BeforeInsert(s.procs, o[1..k], pid, o[k + 1..], p);
    } else {
      assert Remove(o, 0) == o[1..];
    }
  }

  lemma RemoveReadyKeepsTable(s: Sched, pid: int)
    requires CurOk(s)
    ensures RemoveReady(s, pid).procs == s.procs
  {
  }

  lemma OrderLength(s: Sched, q: int, p: int)
    requires Listed(s.ring, q) && Listed(s.ring, p) && p != q
    ensures |s.ring| > 1
  {
  }

  /** The order after scheduler(), which keeps the current node or goes on to the next. */
  lemma MovedOrder(s: Sched, u: Sched)
    requires s.cur < |s.ring| && |u.ring| == |s.ring| && forall i | 0 <= i < |s.ring| :: u.ring[i].pid == s.ring[i].pid
    ensures u.cur == s.cur ==> Order(u) == Order(s)
    ensures u.cur == Succ(s.cur, |s.ring|) ==> Order(u) == Order(s)[1..] + [Order(s)[0]]
  {
    assert Pids(u.ring) == Pids(s.ring);
    if u.cur == Succ(s.cur, |s.ring|) {
      var a, b := Order(u), Order(s)[1..] + [Order(s)[0]];
      forall j | 0 <= j < |a| ensures a[j] == b[j] { }
    }
  }

  lemma WaitingInOrder(s: Sched, idle: int, p: int)
    requires Inv(s, idle) && IsWaiting(s, p)
    ensures s.cur < |s.ring| && p in Order(s)
    ensures Settled(s) ==> Order(s)[0] == s.current && p in Order(s)[1..]
  {
    InOrder(s, idle);
    assert Listed(s.ring, p);
    assert Order(s) == [Order(s)[0]] + Order(s)[1..];
  }

  /** scheduler() while a process is running: a tick nearer. */
  lemma TickedWait(s: Sched, idle: int, sp: int, p: int)
    requires Inv(s, idle) && Settled(s) && IsWaiting(s, p)
    ensures CurOk(s) && s.cur < |s.ring|
    ensures var u := Dispatch(s, sp).0;
            u.current == p || (u.cur < |u.ring| && Wait(u, p) <= Wait(s, p) - 1)
  {
    hide Dispatch, Order, RingMatches, DistinctPids;
    InOrder(s, idle);
    WaitingInOrder(s, idle, p);
    DispatchMoves(s, idle, sp);
    var u, o := Dispatch(s, sp).0, Order(s);
    InOrder(u, idle);
    MovedOrder(s, u);
    assert SamePriorities(s.procs, u.procs, o[1..]);
    BeforeSame(s.procs, u.procs, o[1..], p);
    if s.ring[s.cur].counter <= 1 { WaitAfterMove(u, idle, o, p); }
  }

  /** Once the next process of the order o runs, the ticks due before p are those that stood before it in o. */
  lemma WaitAfterMove(u: Sched, idle: int, o: seq<int>, p: int)
    requires Inv(u, idle) && Settled(u) && u.ring[u.cur].counter == u.procs[u.current].priority
    requires o != [] && Order(u) == o[1..] + [o[0]] && p in o && (|o| > 1 ==> p in o[1..])
    ensures u.current == p || Wait(u, p) == Before(u.procs, o[1..], p)
  {
    hide Order, RingMatches;
    OrderHead(u);
    if |o| > 1 && u.current != p {
      assert o[1..] == [u.current] + o[2..];
      assert Order(u)[1..] == o[2..] + [o[0]];
      BeforeStops(u.procs, o[2..], [o[0]], p);
    }
  }

  lemma OrderHead(s: Sched)
    requires s.cur < |s.ring|
    ensures Order(s)[0] == s.ring[s.cur].pid
  {
  }

  /** scheduler() after the running process has left: the process that came up is passed over, and the next one runs. */
  lemma PassingWait(s: Sched, idle: int, sp: int, p: int)
    requires Inv(s, idle) && !Settled(s) && IsWaiting(s, p) && s.ring[s.cur].pid != p
    ensures CurOk(s) && s.cur < |s.ring|
    ensures var u := Dispatch(s, sp).0;
            u.current == p || (u.cur < |u.ring| && Wait(u, p) < Before(s.procs, Order(s), p))
  {
    hide Dispatch, Order, RingMatches, DistinctPids;
    InOrder(s, idle);
    WaitingInOrder(s, idle, p);
    DispatchMoves(s, idle, sp);
    var u, o := Dispatch(s, sp).0, Order(s);
    InOrder(u, idle);
    MovedOrder(s, u);
    OrderHead(s);
    assert o == [o[0]] + o[1..];
    assert SamePriorities(s.procs, u.procs, o[1..]);
    BeforeSame(s.procs, u.procs, o[1..], p);
    WaitAfterMove(u, idle, o, p);
  }

  /** The running process leaves the ready list: the next one comes up. */
  lemma Departure(s: Sched, idle: int, t: Sched)
    requires Inv(s, idle) && Settled(s) && s.current != idle
    requires t == Block(s, s.current).0 || t == Terminate(s, s.current)
    ensures Inv(t, idle) && !CurrentIs(t, Running) && |t.ring| == |s.ring| - 1
    ensures s.cur < |s.ring| && t.cur < |t.ring| && t.ring[t.cur].pid == s.ring[Succ(s.cur, |s.ring|)].pid
  {
    assert Listed(s.ring, s.current);
    BlockInv(s, idle, s.current);
    TerminateInv(s, idle, s.current);
  }

  lemma WakeUp(s: Sched, idle: int, pid: int)
    requires Inv(s, idle)
    ensures var (t, ok) := Unblock(s, pid);
            && Inv(t, idle) && t.cur == s.cur < |s.ring| && t.current == s.current
            && (forall p :: p != pid || !ok ==> (p in t.procs <==> p in s.procs) && (p in t.procs ==> t.procs[p] == s.procs[p]))
            && |t.ring| == |s.ring| + (if ok then 1 else 0)
            && (forall i | 0 <= i < |s.ring| :: t.ring[i] == s.ring[i])
            && (ok ==> t.ring[|s.ring|].pid == pid && pid in s.procs && s.procs[pid].status == Blocked)
  {
    UnblockInv(s, idle, pid);
    if Unblock(s, pid).1 { BlockedUnlisted(s, idle, pid); }
  }

  /** With nobody running, scheduler() goes on from the node that came up. */
  lemma OneFurther(x: Sched, idle: int, sp: int)
    requires Inv(x, idle) && !CurrentIs(x, Running)
    ensures CurOk(x) && x.cur < |x.ring| && Dispatch(x, sp).0.current == x.ring[Succ(x.cur, |x.ring|)].pid
    ensures Dispatch(x, sp).0.current == x.ring[x.cur].pid <==> |x.ring| == 1
  {
    DispatchInv(x, idle, sp);
  }

  /**
   When the running process blocks or is killed, the next one on the ready list is
   passed over, unless it is alone on it, a parent that is woken included.  When it
   exits, its parent is woken first: at the tail of the list the parent becomes the next
   one and is passed over in place of the other.
   */
  lemma PassedOver(m: Kernel.Machine, w: Kernel.Waits, parent: int, sp: int)
    requires Kernel.MachineInv(m) && m.sched.current != Kernel.IDLE
    ensures CurOk(m.sched) && m.sched.cur < |m.sched.ring|
    ensures var (s, n, woken) := (m.sched, |m.sched.ring|, Unblock(m.sched, parent).1);
            var next := s.ring[Succ(s.cur, n)].pid;
            && (Kernel.BlockCurrent(m, w, sp).sched.current == next <==> n == 2)
            && (Kernel.KillProcess(m, s.current, parent, sp).sched.current == next <==> n == 2 && !woken)
            && (Kernel.ExitProcess(m, parent, sp).sched.current == next
                <==> if s.cur == n - 1 then woken || n == 2 else !woken && n == 2)
  {
    hide Kernel.MachineInv;
    InvOf(m);
    FirstFresh(m, parent);
    BlockPasses(m, w, sp);
    KillPasses(m, parent, sp);
    ExitPasses(m, parent, sp);
  }

  lemma BlockPasses(m: Kernel.Machine, w: Kernel.Waits, sp: int)
    requires Inv(m.sched, Kernel.IDLE) && Settled(m.sched) && m.sched.current != Kernel.IDLE
    ensures CurOk(m.sched) && m.sched.cur < |m.sched.ring|
    ensures Kernel.BlockCurrent(m, w, sp).sched.current == m.sched.ring[Succ(m.sched.cur, |m.sched.ring|)].pid
            <==> |m.sched.ring| == 2
  {
    hide Inv, Dispatch, Block, Settled;
    Kernel.CurInRange(m.sched);
    var t := Block(m.sched, m.sched.current).0;
    Departure(m.sched, Kernel.IDLE, t);
    OneFurther(t, Kernel.IDLE, sp);
  }

  lemma KillPasses(m: Kernel.Machine, parent: int, sp: int)
    requires Inv(m.sched, Kernel.IDLE) && Settled(m.sched) && m.sched.current != Kernel.IDLE
    ensures CurOk(m.sched) && m.sched.cur < |m.sched.ring|
    ensures Kernel.KillProcess(m, m.sched.current, parent, sp).sched.current
            == m.sched.ring[Succ(m.sched.cur, |m.sched.ring|)].pid
            <==> |m.sched.ring| == 2 && !Unblock(m.sched, parent).1
  {
    hide Inv, Dispatch, Terminate, Unblock, Settled;
    Kernel.CurInRange(m.sched);
    var t := Terminate(m.sched, m.sched.current);
    Departure(m.sched, Kernel.IDLE, t);
    WakeUp(t, Kernel.IDLE, parent);
    SameRefusal(m.sched, parent);
    GoneIsNotRunning(m.sched);
    OneFurther(Unblock(t, parent).0, Kernel.IDLE, sp);
  }

  lemma SameRefusal(s: Sched, parent: int)
    requires CurOk(s) && Settled(s)
    ensures Unblock(Terminate(s, s.current), parent).1 == Unblock(s, parent).1
  {
  }

  lemma GoneIsNotRunning(s: Sched)
    requires CurOk(s)
    ensures s.current !in Terminate(s, s.current).procs && Terminate(s, s.current).current == s.current
  {
  }

  lemma ExitPasses(m: Kernel.Machine, parent: int, sp: int)
    requires Inv(m.sched, Kernel.IDLE) && Settled(m.sched) && m.sched.current != Kernel.IDLE
    ensures CurOk(m.sched) && m.sched.cur < |m.sched.ring|
    ensures var (n, woken) := (|m.sched.ring|, Unblock(m.sched, parent).1);
            Kernel.ExitProcess(m, parent, sp).sched.current == m.sched.ring[Succ(m.sched.cur, n)].pid
            <==> if m.sched.cur == n - 1 then woken || n == 2 else !woken && n == 2
  {
    hide Inv, Dispatch, Terminate, Unblock, Settled;
    Kernel.CurInRange(m.sched);
    var s, n := Unblock(m.sched, parent).0, |m.sched.ring|;
    Departure(m.sched, Kernel.IDLE, Terminate(m.sched, m.sched.current));
    WakeUp(m.sched, Kernel.IDLE, parent);
    RunsOn(m.sched, parent);
    var t := Terminate(s, s.current);
    Departure(s, Kernel.IDLE, t);
    OneFurther(t, Kernel.IDLE, sp);
    if m.sched.cur == n - 1 && Unblock(m.sched, parent).1 { TailLeaves(s); }
  }

  lemma RunsOn(s: Sched, pid: int)
    requires Settled(s)
    ensures Settled(Unblock(s, pid).0) && Unblock(s, pid).0.current == s.current
  {
  }

  /** The last but one leaves: behind the last one, which came up, stands the first. */
  lemma TailLeaves(s: Sched)
    requires Inv(s, Kernel.IDLE) && Settled(s) && s.cur == |s.ring| - 2 > 0
    ensures CurOk(s) && var t := Terminate(s, s.current); |t.ring| > 0 && t.cur == |t.ring| - 1 && t.ring[0] == s.ring[0]
  {
    assert Listed(s.ring, s.current);
    assert IndexOf(s.ring, s.current) == s.cur;
  }

  // ----- newcomers -----

  /** The ticks due to those on the ready list that were not on it at first. */
  function NewDue(first: seq<Node>, procs: map<int, Proc>, ring: seq<Node>): nat {
    if ring == [] then 0
    else
      var q := ring[|ring| - 1].pid;
      NewDue(first, procs, ring[..|ring| - 1]) + if Listed(first, q) then 0 else Due(procs, q)
  }

  lemma {:induction false} NobodyNew(first: seq<Node>, procs: map<int, Proc>, ring: seq<Node>)
    requires forall i | 0 <= i < |ring| :: Listed(first, ring[i].pid)
    ensures NewDue(first, procs, ring) == 0
  {
    if ring != [] { NobodyNew(first, procs, ring[..|ring| - 1]); }
  }

  lemma {:induction false} NewDueSame(first: seq<Node>, a: map<int, Proc>, r: seq<Node>, b: map<int, Proc>, q: seq<Node>)
    requires |r| == |q| && forall i | 0 <= i < |r| :: r[i].pid == q[i].pid && Due(a, r[i].pid) == Due(b, r[i].pid)
    ensures NewDue(first, a, r) == NewDue(first, b, q)
  {
    if r != [] { NewDueSame(first, a, r[..|r| - 1], b, q[..|q| - 1]); }
  }

  lemma {:induction false} NewDueRemoved(first: seq<Node>, procs: map<int, Proc>, ring: seq<Node>, i: nat)
    requires i < |ring| && Listed(first, ring[i].pid)
    ensures NewDue(first, procs, Remove(ring, i)) == NewDue(first, procs, ring)
  {
    var n := |ring| - 1;
    if i < n {
      NewDueRemoved(first, procs, ring[..n], i);
      assert Remove(ring, i)[..n - 1] == Remove(ring[..n], i);
    } else {
      assert Remove(ring, i) == ring[..n];
    }
  }

  /** The ticks due before p runs, those due to newcomers not counted. */
  ghost function Balance(first: seq<Node>, s: Sched, p: int): int
    requires s.cur < |s.ring|
  {
    Wait(s, p) - NewDue(first, s.procs, s.ring)
  }

  /** Nobody that is blocked was on it at first. */
  ghost predicate Fresh(first: seq<Node>, s: Sched) {
    forall q <- s.procs | s.procs[q].status == Blocked :: !Listed(first, q)
  }

  /** The ticks due to all that the scheduler comes to before p, the current node's quantum in full, newcomers not counted. */
  ghost function InLine(first: seq<Node>, s: Sched, p: int): int
    requires s.cur < |s.ring|
  {
    Before(s.procs, Order(s), p) - NewDue(first, s.procs, s.ring)
  }

  /** Only the ring and the quanta of those on it matter. */
  lemma TableChange(first: seq<Node>, s: Sched, u: Sched, p: int)
    requires s.cur < |s.ring| && u.ring == s.ring && u.cur == s.cur
    requires forall i | 0 <= i < |s.ring| :: Due(s.procs, s.ring[i].pid) == Due(u.procs, s.ring[i].pid)
    ensures Balance(first, u, p) == Balance(first, s, p) && InLine(first, u, p) == InLine(first, s, p)
  {
    NewDueSame(first, s.procs, s.ring, u.procs, s.ring);
    BeforeSame(s.procs, u.procs, Order(s), p);
    BeforeSame(s.procs, u.procs, Order(s)[1..], p);
  }

  /** A process that joins adds to the wait no more than its own quantum. */
  lemma AddedBalance(first: seq<Node>, s: Sched, pid: int, p: int)
    requires s.cur < |s.ring| && pid in s.procs && !Listed(s.ring, pid) && !Listed(first, pid) && pid != p
    ensures var t := AddReady(s, pid);
            && t.cur < |t.ring|
            && Balance(first, t, p) <= Balance(first, s, p) && InLine(first, t, p) <= InLine(first, s, p)
            && t.ring[t.cur].pid == s.ring[s.cur].pid
            && (s.ring[Succ(s.cur, |s.ring|)].pid != p ==> t.ring[Succ(t.cur, |t.ring|)].pid != p)
  {
    hide Order;
    AddedOrder(s, pid);
    var t, o, k := AddReady(s, pid), Order(s), |s.ring| - s.cur;
    assert o == o[..k] + o[k..];
    BeforeInsert(s.procs, o[..k], pid, o[k..], p);
    assert o[1..] == o[1..k] + o[k..] && Order(t)[1..] == o[1..k] + [pid] + o[k..];
    BeforeInsert(s.procs, o[1..k], pid, o[k..], p);
    assert t.ring[..|s.ring|] == s.ring;
  }

  lemma UnblockBalance(first: seq<Node>, s: Sched, idle: int, pid: int, p: int)
    requires Inv(s, idle) && Fresh(first, s) && IsWaiting(s, p)
    ensures var t := Unblock(s, pid).0;
            && Inv(t, idle) && Fresh(first, t) && IsWaiting(t, p) && s.cur < |s.ring| && t.cur < |t.ring|
            && (Settled(t) <==> Settled(s)) && t.current == s.current
            && Balance(first, t, p) <= Balance(first, s, p) && InLine(first, t, p) <= InLine(first, s, p)
            && t.ring[t.cur].pid == s.ring[s.cur].pid
            && (s.ring[Succ(s.cur, |s.ring|)].pid != p ==> t.ring[Succ(t.cur, |t.ring|)].pid != p)
  {
    InOrder(s, idle);
    UnblockInv(s, idle, pid);
    if Unblock(s, pid).1 {
      BlockedUnlisted(s, idle, pid);
      TableChange(first, s, SetStatus(s, pid, Ready), p);
      AddedBalance(first, SetStatus(s, pid, Ready), pid, p);
    }
  }

  lemma BlockedUnlisted(s: Sched, idle: int, pid: int)
    requires Inv(s, idle) && pid in s.procs && s.procs[pid].status == Blocked
    ensures !Listed(s.ring, pid)
  {
  }

  lemma {:induction false} UnblockAllBalance(first: seq<Node>, s: Sched, pids: seq<int>, p: int)
    requires Inv(s, Kernel.IDLE) && Fresh(first, s) && IsWaiting(s, p)
    ensures var t := Kernel.UnblockAll(s, pids);
            && Inv(t, Kernel.IDLE) && Fresh(first, t) && IsWaiting(t, p) && s.cur < |s.ring| && t.cur < |t.ring|
            && (Settled(t) <==> Settled(s)) && Balance(first, t, p) <= Balance(first, s, p)
  {
    hide Inv, Fresh, Balance, Unblock, Settled, IsWaiting, Order;
    InOrder(s, Kernel.IDLE);
    if pids != [] {
      var n := |pids| - 1;
      UnblockAllBalance(first, s, pids[..n], p);
      UnblockBalance(first, Kernel.UnblockAll(s, pids[..n]), Kernel.IDLE, pids[n], p);
    }
  }

  /** A new process joins. */
  lemma CreateBalance(s: Sched, idle: int, pid: int, priority: int, sp: int, p: int)
    requires Inv(s, idle) && pid !in s.procs && IsWaiting(s, p)
    ensures var t := Create(s, pid, priority, sp);
            s.cur < |s.ring| && t.cur < |t.ring| && Balance(s.ring, t, p) <= Balance(s.ring, s, p)
  {
    hide Balance, InLine, OwnerMatches;
    InOrder(s, idle);
    var u := s.(procs := s.procs[pid := Proc(Ready, priority, sp)]);
    TableChange(s.ring, s, u, p);
    AddedBalance(s.ring, u, pid, p);
  }

  /** A process that leaves the ready list is not waited for any more; if it was running, the next one comes up. */
  lemma RemovedBalance(first: seq<Node>, s: Sched, pid: int, p: int)
    requires s.cur < |s.ring| && DistinctPids(s.ring) && pid != p
    requires Listed(s.ring, p) && Listed(s.ring, pid) && Listed(first, pid)
    ensures var t := RemoveReady(s, pid);
            t.cur < |t.ring|
            && if s.ring[s.cur].pid == pid
               then InLine(first, t, p) < Balance(first, s, p) && t.ring[t.cur].pid == s.ring[Succ(s.cur, |s.ring|)].pid
               else Balance(first, t, p) <= Balance(first, s, p) && t.ring[t.cur].pid == s.ring[s.cur].pid
  {
    hide Order, Remove, NewDue;
    OrderLength(s, pid, p);
    RemovedWait(s, pid, p);
    RemoveReadyKeepsTable(s, pid);
    NewDueRemoved(first, s.procs, s.ring, IndexOf(s.ring, pid));
    OrderHead(s);
    OrderHead(RemoveReady(s, pid));
  }

  /** So it is when the process blocks or ends, which changes nothing for the others. */
  lemma LeftBalance(first: seq<Node>, s: Sched, idle: int, pid: int, t: Sched, p: int)
    requires Inv(s, idle) && IsWaiting(s, p) && pid != p && Listed(s.ring, pid) && Listed(first, pid)
    requires t == Block(s, pid).0 || t == Terminate(s, pid)
    ensures s.cur < |s.ring| && t.cur < |t.ring| && IsWaiting(t, p)
    ensures if s.ring[s.cur].pid == pid
            then InLine(first, t, p) < Balance(first, s, p) && t.ring[t.cur].pid == s.ring[Succ(s.cur, |s.ring|)].pid
            else Balance(first, t, p) <= Balance(first, s, p) && t.ring[t.cur].pid == s.ring[s.cur].pid
  {
    hide Balance, InLine, Order, NewDue, Inv, RemoveReady, Terminate, Block;
    InOrder(s, idle);
    WaitersListed(s, idle, p);
    RemovedBalance(first, s, pid, p);
    LeftTable(s, idle, pid, t, p);
    TableChange(first, RemoveReady(s, pid), t, p);
  }

  lemma WaitersListed(s: Sched, idle: int, p: int)
    requires Inv(s, idle) && IsWaiting(s, p)
    ensures Listed(s.ring, p) && DistinctPids(s.ring)
  {
  }

  /** For the others it is as if the node alone had been removed. */
  lemma LeftTable(s: Sched, idle: int, pid: int, t: Sched, p: int)
    requires Inv(s, idle) && IsWaiting(s, p) && pid != p && Listed(s.ring, pid) && CurOk(s)
    requires t == Block(s, pid).0 || t == Terminate(s, pid)
    ensures var u := RemoveReady(s, pid);
            && t.ring == u.ring && t.cur == u.cur && IsWaiting(t, p)
            && forall i | 0 <= i < |u.ring| :: Due(u.procs, u.ring[i].pid) == Due(t.procs, u.ring[i].pid)
  {
    var u := RemoveReady(s, pid);
    ListedRemove(s.ring, IndexOf(s.ring, pid), pid);
    forall i | 0 <= i < |u.ring| ensures u.ring[i].pid != pid { assert Listed(u.ring, u.ring[i].pid); }
  }

  // ----- every event -----

  /** What a new priority may add to the wait. */
  function Raise(e: Kernel.Event): nat {
    if e.ModifyPriority? then Quantum(e.priority) else 0
  }

  /** The running process leaves the ready list while p is next. */
  ghost predicate PassesOver(s: Sched, t: Sched, p: int)
    requires s.cur < |s.ring|
  {
    !Listed(t.ring, s.current) && s.ring[Succ(s.cur, |s.ring|)].pid == p
  }

  lemma ModifyBalance(s: Sched, idle: int, pid: int, priority: int, p: int)
    requires Inv(s, idle) && IsWaiting(s, p)
    ensures var t := SetPriority(s, pid, priority).0;
            s.cur < |s.ring| && t.cur < |t.ring| && Wait(t, p) <= Wait(s, p) + Quantum(priority)
            && NewDue(s.ring, t.procs, t.ring) == 0
  {
    hide Order, RingMatches;
    InOrder(s, idle);
    SetPriorityTakesEffect(s, idle, pid, priority);
    var t := SetPriority(s, pid, priority).0;
    MovedOrder(s, t);
    var o := Order(s);
    assert forall x | x != pid :: Due(s.procs, x) == Due(t.procs, x);
    if s.ring[s.cur].pid == pid {
      assert SamePriorities(s.procs, t.procs, o[1..]) by { OrderHead(s); }
      BeforeSame(s.procs, t.procs, o[1..], p);
    } else {
      BeforeChanged(s.procs, t.procs, o[1..], p, pid);
    }
    forall i | 0 <= i < |t.ring| ensures Listed(s.ring, t.ring[i].pid) { assert s.ring[i].pid == t.ring[i].pid; }
    NobodyNew(s.ring, t.procs, t.ring);
  }

  lemma DispatchBalance(first: seq<Node>, s: Sched, sp: int, p: int)
    requires Inv(s, Kernel.IDLE) && IsWaiting(s, p)
    ensures s.cur < |s.ring|
    ensures var u := Dispatch(s, sp).0;
            && Inv(u, Kernel.IDLE) && u.cur < |u.ring|
            && (u.current == p
                || if Settled(s) then Balance(first, u, p) < Balance(first, s, p)
                   else s.ring[s.cur].pid != p ==> Balance(first, u, p) < InLine(first, s, p))
  {
    hide Dispatch, Order, Wait, RingMatches;
    InOrder(s, Kernel.IDLE);
    DispatchMoves(s, Kernel.IDLE, sp);
    var u := Dispatch(s, sp).0;
    InOrder(u, Kernel.IDLE);
    NewDueSame(first, s.procs, s.ring, u.procs, u.ring);
    if Settled(s) {
      TickedWait(s, Kernel.IDLE, sp, p);
    } else if s.ring[s.cur].pid != p {
      PassingWait(s, Kernel.IDLE, sp, p);
    }
  }

  lemma FirstFresh(m: Kernel.Machine, p: int)
    requires Kernel.MachineInv(m)
    ensures var s := m.sched;
            && Inv(s, Kernel.IDLE) && Settled(s) && s.cur < |s.ring| && CurOk(s) && s.ring[s.cur].pid == s.current
            && Fresh(s.ring, s) && Balance(s.ring, s, p) == Wait(s, p) && Listed(s.ring, s.current)
  {
    InOrder(m.sched, Kernel.IDLE);
    forall i | 0 <= i < |m.sched.ring| ensures Listed(m.sched.ring, m.sched.ring[i].pid) { }
    NobodyNew(m.sched.ring, m.sched.procs, m.sched.ring);
  }

  /** What one event does to the wait of a process that goes on waiting. */
  ghost predicate Closer(m: Kernel.Machine, t: Kernel.Machine, p: int, ticks: nat, raise: nat)
    requires m.sched.cur < |m.sched.ring|
  {
    && t.sched.cur < |t.sched.ring|
    && Wait(t.sched, p) + ticks <= Wait(m.sched, p) + NewDue(m.sched.ring, t.sched.procs, t.sched.ring) + raise
  }

  /** The process waits before and after the event, and is not passed over by it. */
  ghost predicate KeepsWaiting(m: Kernel.Machine, t: Kernel.Machine, p: int)
  {
    && m.sched.cur < |m.sched.ring|
    && IsWaiting(m.sched, p) && IsWaiting(t.sched, p) && !PassesOver(m.sched, t.sched, p)
  }

  lemma TickCloser(m: Kernel.Machine, sp: int, p: int)
    requires Kernel.MachineInv(m) && CurOk(m.sched)
    requires KeepsWaiting(m, Kernel.Step(m, Kernel.Tick(sp)), p)
    ensures Closer(m, Kernel.Step(m, Kernel.Tick(sp)), p, 1, 0)
  {
    hide Inv, Fresh, Balance, InLine, Wait, Dispatch, Order;
    FirstFresh(m, p);
    var s := m.sched;
    var woken := SleepQueue.Sweep(m.waits.sleepers, Kernel.Live(s), m.now + 1).1;
    UnblockAllBalance(s.ring, s, woken, p);
    DispatchBalance(s.ring, Kernel.UnblockAll(s, woken), sp, p);
    BalanceIs(s.ring, Kernel.Step(m, Kernel.Tick(sp)).sched, p);
  }

  lemma BalanceIs(first: seq<Node>, s: Sched, p: int)
    requires s.cur < |s.ring|
    ensures Balance(first, s, p) == Wait(s, p) - NewDue(first, s.procs, s.ring)
  {
  }

  lemma BlockCurrentCloser(m: Kernel.Machine, w: Kernel.Waits, sp: int, p: int)
    requires Kernel.MachineInv(m) && CurOk(m.sched) && m.sched.current != Kernel.IDLE
    requires KeepsWaiting(m, Kernel.BlockCurrent(m, w, sp), p)
    ensures Closer(m, Kernel.BlockCurrent(m, w, sp), p, 0, 0)
  {
    hide Inv, Fresh, Balance, InLine, Wait, Dispatch, Order, Block;
    FirstFresh(m, p);
    var s := m.sched;
    var t := Block(s, s.current).0;
    CurrentBlocks(s);
    LeftBalance(s.ring, s, Kernel.IDLE, s.current, t, p);
    GoneFromRing(t, sp, s.current);
    DispatchBalance(s.ring, t, sp, p);
    BalanceIs(s.ring, Dispatch(t, sp).0, p);
  }

  lemma CurrentBlocks(s: Sched)
    requires Inv(s, Kernel.IDLE) && Settled(s) && s.current != Kernel.IDLE
    ensures CurOk(s)
    ensures var t := Block(s, s.current).0;
            Inv(t, Kernel.IDLE) && !Settled(t) && !(s.current in t.procs && t.procs[s.current].status != Blocked)
  {
    BlockInv(s, Kernel.IDLE, s.current);
  }

  lemma GoneFromRing(t: Sched, sp: int, q: int)
    requires Inv(t, Kernel.IDLE) && !(q in t.procs && t.procs[q].status != Blocked)
    ensures CurOk(t) && !Listed(Dispatch(t, sp).0.ring, q)
  {
    InOrder(t, Kernel.IDLE);
    DispatchMoves(t, Kernel.IDLE, sp);
    SamePidsListed(t.ring, Dispatch(t, sp).0.ring, q);
  }

  lemma SamePidsListed(a: seq<Node>, b: seq<Node>, q: int)
    requires |a| == |b| && forall i | 0 <= i < |a| :: a[i].pid == b[i].pid
    ensures Listed(a, q) <==> Listed(b, q)
  {
    if Listed(a, q) { var i :| 0 <= i < |a| && a[i].pid == q; assert b[i].pid == q; }
  }

  lemma SchedUnchanged(m: Kernel.Machine, t: Kernel.Machine, p: int)
    requires Kernel.MachineInv(m) && t.sched == m.sched
    ensures m.sched.cur < |m.sched.ring| && Closer(m, t, p, 0, 0)
  {
    FirstFresh(m, p);
  }

  lemma UnblockCloser(m: Kernel.Machine, t: Kernel.Machine, pid: int, p: int)
    requires Kernel.MachineInv(m) && IsWaiting(m.sched, p) && t.sched == Unblock(m.sched, pid).0
    ensures m.sched.cur < |m.sched.ring| && Closer(m, t, p, 0, 0)
  {
    hide Inv, Fresh, InLine, Wait, Order, Unblock;
    FirstFresh(m, p);
    UnblockBalance(m.sched.ring, m.sched, Kernel.IDLE, pid, p);
  }

  lemma BlockOtherCloser(m: Kernel.Machine, pid: int, p: int)
    requires Kernel.MachineInv(m) && CurOk(m.sched) && pid != m.sched.current && IsWaiting(m.sched, p)
    requires IsWaiting(Block(m.sched, pid).0, p)
    ensures m.sched.cur < |m.sched.ring| && Closer(m, m.(sched := Block(m.sched, pid).0), p, 0, 0)
  {
    hide InLine, Wait, Order, NewDue;
    FirstFresh(m, p);
    if Block(m.sched, pid).1 {
      assert Listed(m.sched.ring, pid);
      LeftBalance(m.sched.ring, m.sched, Kernel.IDLE, pid, Block(m.sched, pid).0, p);
    }
  }

  lemma CreateCloser(m: Kernel.Machine, t: Kernel.Machine, pid: int, priority: int, sp: int, p: int)
    requires Kernel.MachineInv(m) && IsWaiting(m.sched, p) && pid !in m.sched.procs
    requires t.sched == Create(m.sched, pid, priority, sp)
    ensures m.sched.cur < |m.sched.ring| && Closer(m, t, p, 0, 0)
  {
    hide Inv, InLine, Wait, Order, NewDue, Create;
    FirstFresh(m, p);
    CreateBalance(m.sched, Kernel.IDLE, pid, priority, sp, p);
  }

  /** A process that ends while it is not running. */
  lemma OtherEnds(first: seq<Node>, s: Sched, pid: int, p: int)
    requires Inv(s, Kernel.IDLE) && Settled(s) && IsWaiting(s, p) && first == s.ring && Fresh(first, s)
    requires pid != p && pid != Kernel.IDLE && pid != s.current
    ensures CurOk(s) && s.cur < |s.ring|
    ensures var t := Terminate(s, pid);
            && Inv(t, Kernel.IDLE) && Settled(t) && Fresh(first, t) && IsWaiting(t, p) && t.cur < |t.ring|
            && Balance(first, t, p) <= Balance(first, s, p)
  {
    hide Balance, InLine, Order;
    InOrder(s, Kernel.IDLE);
    TerminateInv(s, Kernel.IDLE, pid);
    if Listed(s.ring, pid) {
      LeftBalance(first, s, Kernel.IDLE, pid, Terminate(s, pid), p);
    } else {
      forall i | 0 <= i < |s.ring| ensures s.ring[i].pid != pid { assert Listed(s.ring, s.ring[i].pid); }
      TableChange(first, s, Terminate(s, pid), p);
    }
  }

  /** The running process ends. */
  lemma CurrentEnds(first: seq<Node>, s: Sched, p: int)
    requires Inv(s, Kernel.IDLE) && Settled(s) && IsWaiting(s, p) && Fresh(first, s) && Listed(first, s.current)
    requires s.current != Kernel.IDLE
    ensures CurOk(s) && s.cur < |s.ring|
    ensures var t := Terminate(s, s.current);
            && Inv(t, Kernel.IDLE) && !Settled(t) && Fresh(first, t) && IsWaiting(t, p) && t.cur < |t.ring|
            && InLine(first, t, p) < Balance(first, s, p) && t.ring[t.cur].pid == s.ring[Succ(s.cur, |s.ring|)].pid
            && s.current !in t.procs
  {
    hide Balance, InLine, Order;
    InOrder(s, Kernel.IDLE);
    assert Listed(s.ring, s.current);
    TerminateInv(s, Kernel.IDLE, s.current);
    LeftBalance(first, s, Kernel.IDLE, s.current, Terminate(s, s.current), p);
  }

  lemma UnblockKeepsTable(s: Sched, pid: int)
    ensures forall q :: q in Unblock(s, pid).0.procs <==> q in s.procs
  {
  }

  lemma KillCloser(m: Kernel.Machine, pid: int, parent: int, sp: int, p: int)
    requires Kernel.MachineInv(m) && CurOk(m.sched) && pid != Kernel.IDLE && pid != p
    requires KeepsWaiting(m, Kernel.KillProcess(m, pid, parent, sp), p)
    ensures Closer(m, Kernel.KillProcess(m, pid, parent, sp), p, 0, 0)
  {
    hide Inv, Fresh, Balance, InLine, Wait, Dispatch, Order, Terminate, Unblock, NewDue;
    FirstFresh(m, p);
    var s := m.sched;
    if pid == s.current { CurrentEnds(s.ring, s, p); } else { OtherEnds(s.ring, s, pid, p); }
    var t := Terminate(s, pid);
    UnblockBalance(s.ring, t, Kernel.IDLE, parent, p);
    UnblockKeepsTable(t, parent);
    var u := Unblock(t, parent).0;
    if pid == s.current { GoneFromRing(u, sp, pid); }
    DispatchBalance(s.ring, u, sp, p);
    BalanceIs(s.ring, Dispatch(u, sp).0, p);
  }

  lemma ExitCloser(m: Kernel.Machine, parent: int, sp: int, p: int)
    requires Kernel.MachineInv(m) && CurOk(m.sched) && m.sched.current != Kernel.IDLE
    requires KeepsWaiting(m, Kernel.ExitProcess(m, parent, sp), p)
    ensures Closer(m, Kernel.ExitProcess(m, parent, sp), p, 0, 0)
  {
    hide Inv, Fresh, Balance, InLine, Wait, Dispatch, Order, Terminate, Unblock, NewDue;
    FirstFresh(m, p);
    var s := m.sched;
    UnblockBalance(s.ring, s, Kernel.IDLE, parent, p);
    var t := Unblock(s, parent).0;
    CurrentEnds(s.ring, t, p);
    var u := Terminate(t, s.current);
    GoneFromRing(u, sp, s.current);
    DispatchBalance(s.ring, u, sp, p);
    BalanceIs(s.ring, Dispatch(u, sp).0, p);
  }

  lemma SemWaitCloser(m: Kernel.Machine, id: int, sp: int, p: int)
    requires Kernel.MachineInv(m) && CurOk(m.sched) && m.sched.current != Kernel.IDLE
    requires KeepsWaiting(m, Kernel.Step(m, Kernel.SemWait(id, sp)), p)
    ensures Closer(m, Kernel.Step(m, Kernel.SemWait(id, sp)), p, 0, 0)
  {
    hide Kernel.MachineInv, Wait, NewDue, PassesOver, Kernel.BlockCurrent;
    if 0 <= id < |m.waits.sems| {
      var (sem, r) := Semaphores.Wait(m.waits.sems[id], m.sched.current);
      if r == Semaphores.Enqueued {
        BlockCurrentCloser(m, Kernel.SetSem(m.waits, id, sem), sp, p);
      } else {
        SchedUnchanged(m, Kernel.Step(m, Kernel.SemWait(id, sp)), p);
      }
    } else {
      SchedUnchanged(m, m, p);
    }
  }

  lemma SemPostCloser(m: Kernel.Machine, id: int, p: int)
    requires Kernel.MachineInv(m) && CurOk(m.sched) && IsWaiting(m.sched, p)
    ensures m.sched.cur < |m.sched.ring| && Closer(m, Kernel.Step(m, Kernel.SemPost(id)), p, 0, 0)
  {
    hide Kernel.MachineInv, Closer;
    var t := Kernel.Step(m, Kernel.SemPost(id));
    if 0 <= id < |m.waits.sems| && Semaphores.Post(m.waits.sems[id], Kernel.Live(m.sched)).1.Handed? {
      UnblockCloser(m, t, Semaphores.Post(m.waits.sems[id], Kernel.Live(m.sched)).1.pid, p);
    } else {
      SchedUnchanged(m, t, p);
    }
  }

  lemma SemCloseCloser(m: Kernel.Machine, id: int, p: int)
    requires Kernel.MachineInv(m) && CurOk(m.sched) && IsWaiting(m.sched, p)
    ensures m.sched.cur < |m.sched.ring| && Closer(m, Kernel.Step(m, Kernel.SemClose(id)), p, 0, 0)
  {
    hide Inv, Fresh, InLine, Wait, Order, Unblock;
    FirstFresh(m, p);
    if 0 <= id < |m.waits.sems| {
      var woken := Semaphores.Close(m.waits.sems[id], Kernel.Live(m.sched)).1;
      UnblockAllBalance(m.sched.ring, m.sched, woken, p);
    } else {
      SchedUnchanged(m, Kernel.Step(m, Kernel.SemClose(id)), p);
    }
  }

  lemma SleepCloser(m: Kernel.Machine, delay: nat, sp: int, p: int)
    requires Kernel.MachineInv(m) && CurOk(m.sched) && m.sched.current != Kernel.IDLE
    requires KeepsWaiting(m, Kernel.Step(m, Kernel.Sleep(delay, sp)), p)
    ensures Closer(m, Kernel.Step(m, Kernel.Sleep(delay, sp)), p, 0, 0)
  {
    hide Kernel.MachineInv, Wait, NewDue, PassesOver, Kernel.BlockCurrent;
    var e := SleepQueue.Entry(m.sched.current, m.now + delay);
    BlockCurrentCloser(m, m.waits.(sleepers := SleepQueue.Add(m.waits.sleepers, e)), sp, p);
  }

  lemma KillEventCloser(m: Kernel.Machine, pid: int, parent: int, sp: int, p: int)
    requires Kernel.MachineInv(m) && CurOk(m.sched)
    requires KeepsWaiting(m, Kernel.Step(m, Kernel.Kill(pid, parent, sp)), p)
    ensures Closer(m, Kernel.Step(m, Kernel.Kill(pid, parent, sp)), p, 0, 0)
  {
    hide Inv, Closer, Wait, NewDue, PassesOver;
    if pid < 3 || pid !in m.sched.procs {
      SchedUnchanged(m, m, p);
    } else {
      KilledIsGone(m, pid, parent, sp);
      KillCloser(m, pid, parent, sp, p);
    }
  }

  lemma KilledIsGone(m: Kernel.Machine, pid: int, parent: int, sp: int)
    requires Kernel.MachineInv(m) && CurOk(m.sched) && pid != Kernel.IDLE
    ensures pid !in Kernel.KillProcess(m, pid, parent, sp).sched.procs
  {
    hide Inv, Terminate, Unblock, Dispatch;
    var t := Terminate(m.sched, pid);
    Kernel.TerminateSets(m.sched, pid);
    assert pid !in Kernel.Live(t);
    TerminateInv(m.sched, Kernel.IDLE, pid);
    UnblockInv(t, Kernel.IDLE, parent);
    UnblockKeepsTable(t, parent);
    DispatchMoves(Unblock(t, parent).0, Kernel.IDLE, sp);
  }

  /**
   An event brings a process that goes on waiting as much nearer as the clock has gone
   on, but for newcomers and raised priorities.
   */
  lemma StepCloser(m: Kernel.Machine, e: Kernel.Event, p: int)
    requires Kernel.MachineInv(m) && Kernel.Enabled(m, e) && CurOk(m.sched)
    requires KeepsWaiting(m, Kernel.Step(m, e), p)
    ensures Closer(m, Kernel.Step(m, e), p, if e.Tick? then 1 else 0, Raise(e))
  {
    hide Inv, Kernel.MachineInv, Wait, NewDue, PassesOver, Kernel.BlockCurrent, Kernel.KillProcess, Kernel.ExitProcess,
         Kernel.Reschedule;
    match e
    case Tick(sp) => TickCloser(m, sp, p);
    case SemOpen(_, _) => SchedUnchanged(m, Kernel.Step(m, e), p);
    case SemClose(id) => SemCloseCloser(m, id, p);
    case SemWait(id, sp) => SemWaitCloser(m, id, sp, p);
    case SemPost(id) => SemPostCloser(m, id, p);
    case Sleep(delay, sp) => SleepCloser(m, delay, sp, p);
    case WaitChildren(sp) => BlockCurrentCloser(m, m.waits.(parked := m.waits.parked + {m.sched.current}), sp, p);
    case BlockOther(pid) => BlockOtherCloser(m, pid, p);
    case UnblockOther(pid) => UnblockCloser(m, Kernel.Step(m, e), pid, p);
    case CreateProcess(pid, priority, sp) => CreateCloser(m, Kernel.Step(m, e), pid, priority, sp, p);
    case ModifyPriority(pid, priority) => InvOf(m); ModifyBalance(m.sched, Kernel.IDLE, pid, priority, p);
    case Kill(pid, parent, sp) => KillEventCloser(m, pid, parent, sp, p);
    case Exit(parent, sp) => ExitCloser(m, parent, sp, p);
  }

  lemma InvOf(m: Kernel.Machine)
    requires Kernel.MachineInv(m)
    ensures Inv(m.sched, Kernel.IDLE)
  {
  }

  // ----- runs -----

  /** A run along which p goes on waiting, and no running process leaves the ready list while p is next. */
  ghost predicate Waits(m: Kernel.Machine, es: seq<Kernel.Event>, p: int)
    decreases |es|
  {
    es == []
    || (CurOk(m.sched) && Kernel.Enabled(m, es[0]) && KeepsWaiting(m, Kernel.Step(m, es[0]), p)
        && Waits(Kernel.Step(m, es[0]), es[1..], p))
  }

  function Ticks(es: seq<Kernel.Event>): nat {
    if es == [] then 0 else (if es[0].Tick? then 1 else 0) + Ticks(es[1..])
  }

  /** The ticks due to all who join the ready list along the run, and what raised priorities add. */
  ghost function Delays(m: Kernel.Machine, es: seq<Kernel.Event>): nat
    decreases |es|
  {
    if es == [] || !CurOk(m.sched) then 0
    else
      var t := Kernel.Step(m, es[0]);
      NewDue(m.sched.ring, t.sched.procs, t.sched.ring) + Raise(es[0]) + Delays(t, es[1..])
  }

  /**
   Bounded waiting: a ready process that is not passed over waits for fewer ticks than
   are due to the processes between the running one and it, counting those that join
   the list on the way.
   */
  lemma {:induction false} BoundedWait(m: Kernel.Machine, es: seq<Kernel.Event>, p: int)
    requires Kernel.MachineInv(m) && Waits(m, es, p)
    ensures m.sched.cur < |m.sched.ring| && Ticks(es) < Wait(m.sched, p) + Delays(m, es)
    decreases |es|
  {
    hide Kernel.MachineInv, Kernel.Step, Kernel.Enabled, KeepsWaiting, NewDue;
    FirstFresh(m, p);
    if es != [] {
      var t := Kernel.Step(m, es[0]);
      StepCloser(m, es[0], p);
      Kernel.StepKeeps(m, es[0]);
      BoundedWait(t, es[1..], p);
    }
  }

  // ----- a run that starves the first process -----

  const SLEEPER := 3

  /** The first process starts another one and uses up its quantum, and so does idle. */
  function Opening(sp: int): seq<Kernel.Event> {
    [Kernel.CreateProcess(SLEEPER, 1, sp), Kernel.Tick(sp), Kernel.Tick(sp)]
  }

  /** Over and over the new process sleeps until the next tick. */
  function Rounds(sp: int, n: nat): seq<Kernel.Event> {
    if n == 0 then [] else [Kernel.Sleep(1, sp), Kernel.Tick(sp)] + Rounds(sp, n - 1)
  }

  function NobodyWaits(): Kernel.Waits {
    Kernel.Waits(seq(Semaphores.SEM_MAX, _ => Semaphores.Sem(Semaphores.CLOSED, [])), [], {})
  }

  /** The sleeper runs, idle comes before it, and the first process before that. */
  function Round(sp: int, now: int): Kernel.Machine {
    Kernel.Machine(Sched(map[INIT_PID := Proc(Ready, 1, sp), Kernel.IDLE := Proc(Ready, 1, sp), SLEEPER := Proc(Running, 1, sp)],
                         [Node(INIT_PID, 0), Node(Kernel.IDLE, 0), Node(SLEEPER, 1)], 2, SLEEPER),
                   NobodyWaits(), now, map[INIT_PID := sp, Kernel.IDLE := sp, SLEEPER := sp], sp)
  }

  /** Idle runs until the sleeper is due. */
  function Halfway(sp: int, now: int): Kernel.Machine {
    Kernel.Machine(Sched(map[INIT_PID := Proc(Ready, 1, sp), Kernel.IDLE := Proc(Running, 1, sp), SLEEPER := Proc(Blocked, 1, sp)],
                         [Node(INIT_PID, 0), Node(Kernel.IDLE, 1)], 1, Kernel.IDLE),
                   NobodyWaits().(sleepers := [SleepQueue.Entry(SLEEPER, now + 1)]),
                   now, map[INIT_PID := sp, Kernel.IDLE := sp, SLEEPER := sp], sp)
  }

  /** Along the run p is ready all the time and never has the processor. */
  ghost predicate Starves(m: Kernel.Machine, es: seq<Kernel.Event>, p: int)
    decreases |es|
  {
    IsWaiting(m.sched, p)
    && (es == [] || (CurOk(m.sched) && Kernel.Enabled(m, es[0]) && Starves(Kernel.Step(m, es[0]), es[1..], p)))
  }

  lemma SleeperBlocks(sp: int, now: int)
    ensures CurOk(Round(sp, now).sched) && Kernel.Step(Round(sp, now), Kernel.Sleep(1, sp)) == Halfway(sp, now)
  {
    var s := Round(sp, now).sched;
    assert s.ring[0].pid == INIT_PID && s.ring[1].pid == Kernel.IDLE && s.ring[2].pid == SLEEPER;
    assert IndexOf(s.ring, SLEEPER) == 2;
    var t := Block(s, SLEEPER).0;
    assert t.ring == [Node(INIT_PID, 0), Node(Kernel.IDLE, 0)] && t.cur == 0;
    var u := SaveSp(t, sp);
    assert IsReady(u, 1) && Search(u, 0, 2) == 1;
    assert Dispatch(t, sp).0.ring == Halfway(sp, now).sched.ring;
    assert Dispatch(t, sp).0.procs == Halfway(sp, now).sched.procs;
  }

  lemma OneDue(e: SleepQueue.Entry, alive: set<int>, now: int)
    requires e.pid in alive && e.wake <= now
    ensures SleepQueue.Sweep([e], alive, now) == ([], [e.pid])
  {
    var q := [e];
    var woken := SleepQueue.Sweep(q[..|q| - 1], alive, now).1;
    assert woken == [] && woken + [e.pid] == [e.pid];
  }

  lemma SleeperWakes(sp: int, now: int)
    ensures CurOk(Halfway(sp, now).sched) && Kernel.Step(Halfway(sp, now), Kernel.Tick(sp)) == Round(sp, now + 1)
  {
    var m := Halfway(sp, now);
    var s := m.sched;
    OneDue(m.waits.sleepers[0], Kernel.Live(s), now + 1);
    assert SleepQueue.Sweep(m.waits.sleepers, Kernel.Live(s), now + 1) == ([], [SLEEPER]);
    assert Kernel.UnblockAll(s, [SLEEPER][..0]) == s;
    assert s.ring[0].pid == INIT_PID && s.ring[1].pid == Kernel.IDLE && !Listed(s.ring, SLEEPER);
    var t := Unblock(s, SLEEPER).0;
    assert t.ring == [Node(INIT_PID, 0), Node(Kernel.IDLE, 1), Node(SLEEPER, 1)];
    var u := BeforeSearch(t, sp);
    assert IsReady(u, 2) && Search(u, 1, 3) == 2;
    assert Dispatch(t, sp).0.ring == Round(sp, now + 1).sched.ring;
    assert Dispatch(t, sp).0.procs == Round(sp, now + 1).sched.procs;
  }

  /** The machine on its way from boot to the first round: who is running, with the counters of the three nodes. */
  function Begun(sp: int, now: int, cur: nat, a: int, b: int): Kernel.Machine
    requires cur < 2
  {
    Kernel.Machine(Sched(map[INIT_PID := Proc(if cur == 0 then Running else Ready, 1, sp),
                             Kernel.IDLE := Proc(if cur == 1 then Running else Ready, 1, sp), SLEEPER := Proc(Ready, 1, sp)],
                         [Node(INIT_PID, a), Node(Kernel.IDLE, b), Node(SLEEPER, 1)], cur, cur + 1),
                   NobodyWaits(), now, map[INIT_PID := sp, Kernel.IDLE := sp, SLEEPER := sp], sp)
  }

  lemma SleeperStarts(sp: int)
    ensures var m, e := Kernel.Boot(sp, sp), Kernel.CreateProcess(SLEEPER, 1, sp);
            CurOk(m.sched) && Kernel.Enabled(m, e) && Kernel.Step(m, e) == Begun(sp, 0, 0, 1, 1)
  {
    var m := Kernel.Boot(sp, sp);
    forall l ensures !Kernel.At(m.waits, SLEEPER, l) { }
    assert !Listed(m.sched.ring, SLEEPER);
    assert Create(m.sched, SLEEPER, 1, sp).ring == Begun(sp, 0, 0, 1, 1).sched.ring;
  }

  lemma TickSleepsNobody(m: Kernel.Machine, sp: int)
    requires CurOk(m.sched) && m.waits == NobodyWaits()
    ensures Kernel.Step(m, Kernel.Tick(sp)) == Kernel.Reschedule(m.(now := m.now + 1), sp)
  {
  }

  lemma IdleGoesOn(sp: int)
    ensures var m := Begun(sp, 0, 0, 1, 1); Kernel.Step(m, Kernel.Tick(sp)) == Begun(sp, 1, 1, 0, 1)
  {
    var m := Begun(sp, 0, 0, 1, 1);
    TickSleepsNobody(m, sp);
    var u := BeforeSearch(m.sched, sp);
    assert IsReady(u, 1) && Search(u, 0, 3) == 1;
    assert Dispatch(m.sched, sp).0.ring == Begun(sp, 1, 1, 0, 1).sched.ring;
    assert Dispatch(m.sched, sp).0.procs == Begun(sp, 1, 1, 0, 1).sched.procs;
  }

  lemma SleeperGoesOn(sp: int)
    ensures var m := Begun(sp, 1, 1, 0, 1); Kernel.Step(m, Kernel.Tick(sp)) == Round(sp, 2)
  {
    var m := Begun(sp, 1, 1, 0, 1);
    TickSleepsNobody(m, sp);
    var u := BeforeSearch(m.sched, sp);
    assert IsReady(u, 2) && Search(u, 1, 3) == 2;
    assert Dispatch(m.sched, sp).0.ring == Round(sp, 2).sched.ring;
    assert Dispatch(m.sched, sp).0.procs == Round(sp, 2).sched.procs;
  }

  lemma OpeningRun(sp: int)
    ensures Kernel.Reaches(Kernel.Boot(sp, sp), Opening(sp), Round(sp, 2))
  {
    hide Kernel.Boot, Kernel.Step, Round;
    SleeperStarts(sp);
    IdleGoesOn(sp);
    SleeperGoesOn(sp);
    var a, b, es := Begun(sp, 0, 0, 1, 1), Begun(sp, 1, 1, 0, 1), Opening(sp);
    assert Kernel.Reaches(b, [Kernel.Tick(sp)], Round(sp, 2));
    assert es[1..][1..] == [Kernel.Tick(sp)] && Kernel.Reaches(a, es[1..], Round(sp, 2));
  }

  lemma FirstWaits(sp: int, now: int)
    ensures IsWaiting(Round(sp, now).sched, INIT_PID) && Kernel.Enabled(Round(sp, now), Kernel.Sleep(1, sp))
    ensures IsWaiting(Halfway(sp, now).sched, INIT_PID) && Kernel.Enabled(Halfway(sp, now), Kernel.Tick(sp))
  {
  }

  lemma {:induction false} RoundsStarve(sp: int, now: int, n: nat)
    ensures Starves(Round(sp, now), Rounds(sp, n), INIT_PID) && Ticks(Rounds(sp, n)) == n
    decreases n
  {
    hide Kernel.Step, Kernel.Enabled, Round, Halfway;
    FirstWaits(sp, now);
    if n > 0 {
      var es := Rounds(sp, n);
      assert es[1..] == [Kernel.Tick(sp)] + Rounds(sp, n - 1) && es[1..][1..] == Rounds(sp, n - 1);
      SleeperBlocks(sp, now);
      SleeperWakes(sp, now);
      RoundsStarve(sp, now + 1, n - 1);
    }
  }

  /**
   Starvation: for any number of ticks there is a run from boot in which the first
   process is ready all that time and never runs.  A process that sleeps from one tick
   to the next leaves the list each time just when the first process is next.
   */
  lemma StarvingRun(sp: int, n: nat)
    ensures Kernel.Reaches(Kernel.Boot(sp, sp), Opening(sp), Round(sp, 2))
    ensures Starves(Round(sp, 2), Rounds(sp, n), INIT_PID) && Ticks(Rounds(sp, n)) == n
  {
    OpeningRun(sp);
    RoundsStarve(sp, 2, n);
  }
}
