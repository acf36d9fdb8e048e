/**
 The scheduler over its real data: the ready list is a circle of nodes linked by
 address, and the process table is updated in place.  Every method is proved
 against the function on values that specifies it.
 */
module Scheduler {
  import opened Circle
  import opened SchedulerSpec

  const NULL: int := 0

  datatype ReadyNode = ReadyNode(pid: int, counter: int)

  ghost predicate NodesAt(node: map<int, ReadyNode>, addrs: seq<int>) {
    forall i | 0 <= i < |addrs| :: addrs[i] != NULL && addrs[i] in node
  }

  ghost function RingOf(node: map<int, ReadyNode>, addrs: seq<int>): (r: seq<Node>)
    requires NodesAt(node, addrs)
    ensures |r| == |addrs|
    ensures forall i | 0 <= i < |r| :: r[i] == Node(node[addrs[i]].pid, node[addrs[i]].counter)
  {
    seq(|addrs|, i requires 0 <= i < |addrs| => Node(node[addrs[i]].pid, node[addrs[i]].counter))
  }

  lemma RingRemove(node: map<int, ReadyNode>, addrs: seq<int>, k: nat)
    requires NodesAt(node, addrs) && k < |addrs|
    ensures NodesAt(node, Remove(addrs, k)) && RingOf(node, Remove(addrs, k)) == Remove(RingOf(node, addrs), k)
  {
  }

  lemma RingAppend(node: map<int, ReadyNode>, addrs: seq<int>, a: int, n: ReadyNode)
    requires NodesAt(node, addrs) && a != NULL && a !in addrs
    ensures NodesAt(node[a := n], addrs + [a])
    ensures RingOf(node[a := n], addrs + [a]) == RingOf(node, addrs) + [Node(n.pid, n.counter)]
  {
  }

  lemma RingUpdate(node: map<int, ReadyNode>, addrs: seq<int>, k: nat, n: ReadyNode)
    requires NodesAt(node, addrs) && k < |addrs| && Distinct(addrs)
    ensures NodesAt(node[addrs[k] := n], addrs)
    ensures RingOf(node[addrs[k] := n], addrs) == RingOf(node, addrs)[k := Node(n.pid, n.counter)]
  {
    forall i | 0 <= i < |addrs| && i != k ensures addrs[i] != addrs[k] { }
  }

  /** The links, the head and the current node all describe the circle of addresses. */
  ghost predicate Shape(node: map<int, ReadyNode>, next: map<int, int>, head: int, current: int, addrs: seq<int>, cur: nat) {
    && NodesAt(node, addrs) && Distinct(addrs) && Forward(next, addrs)
    && head == (if addrs == [] then NULL else addrs[0])
    && (addrs != [] ==> cur < |addrs|)
    && current == (if addrs == [] then NULL else addrs[cur])
  }

  ghost function ViewOf(procs: map<int, Proc>, node: map<int, ReadyNode>, addrs: seq<int>, cur: nat, current: int): Sched
    requires NodesAt(node, addrs)
  {
    Sched(procs, RingOf(node, addrs), cur, current)
  }

  lemma ShapeFacts(node: map<int, ReadyNode>, next: map<int, int>, head: int, current: int, addrs: seq<int>, cur: nat, k: nat)
    requires Shape(node, next, head, current, addrs, cur) && k < |addrs|
    ensures NodesAt(node, addrs) && cur < |addrs| && Forward(next, addrs) && Distinct(addrs)
    ensures addrs[k] in next && next[addrs[k]] == addrs[Succ(k, |addrs|)] && (next[addrs[k]] == addrs[k] <==> |addrs| == 1)
    ensures head == addrs[0] && (addrs[k] == head <==> k == 0) && (next[addrs[k]] == head <==> k + 1 == |addrs|)
    ensures addrs[k] in node && addrs[k] != NULL
    ensures k > 0 ==> addrs[k - 1] != NULL && addrs[k - 1] in next
    ensures addrs[|addrs| - 1] in next
  {
  }

  lemma ShapeHead(node: map<int, ReadyNode>, next: map<int, int>, head: int, current: int, addrs: seq<int>, cur: nat)
    requires Shape(node, next, head, current, addrs, cur)
    ensures NodesAt(node, addrs) && (head == NULL <==> addrs == [])
    ensures addrs != [] ==> cur < |addrs| && current == addrs[cur] && current in addrs && current in node
  {
  }

  lemma ListedView(procs: map<int, Proc>, node: map<int, ReadyNode>, addrs: seq<int>, cur: nat, proc: int, pid: int)
    requires NodesAt(node, addrs) && pid in procs && SchedulerSpec.Listed(ViewOf(procs, node, addrs, cur, proc).ring, pid)
    ensures AddReady(ViewOf(procs, node, addrs, cur, proc), pid) == ViewOf(procs, node, addrs, cur, proc)
  {
  }

  lemma AppendView(procs: map<int, Proc>, node: map<int, ReadyNode>, addrs: seq<int>, cur: nat, proc: int, pid: int, a: int)
    requires NodesAt(node, addrs) && pid in procs && a != NULL && a !in addrs
    requires !SchedulerSpec.Listed(ViewOf(procs, node, addrs, cur, proc).ring, pid)
    ensures var node' := node[a := ReadyNode(pid, procs[pid].priority)];
            NodesAt(node', addrs + [a])
            && ViewOf(procs, node', addrs + [a], if addrs == [] then 0 else cur, proc)
               == AddReady(ViewOf(procs, node, addrs, cur, proc), pid)
  {
    RingAppend(node, addrs, a, ReadyNode(pid, procs[pid].priority));
  }

  lemma FirstNode(node: map<int, ReadyNode>, next: map<int, int>, head: int, current: int, addrs: seq<int>, cur: nat,
                  a: int, n: ReadyNode)
    requires Shape(node, next, head, current, addrs, cur) && addrs == [] && a != NULL
    ensures Shape(node[a := n], next[a := a], a, a, addrs + [a], 0)
  {
  }

  lemma AppendNode(node: map<int, ReadyNode>, next: map<int, int>, head: int, current: int, addrs: seq<int>, cur: nat,
                   a: int, n: ReadyNode)
    requires Shape(node, next, head, current, addrs, cur) && addrs != [] && a != NULL && a !in addrs
    ensures Shape(node[a := n], next[addrs[|addrs| - 1] := a][a := head], head, current, addrs + [a], cur)
  {
    hide Forward, Distinct;
    var k := |addrs| - 1;
    ForwardInsert(next, addrs, k, a);
    assert InsertAfter(addrs, k, a) == addrs + [a];
    SwapUpdates(next, addrs[k], a, head);
    RingAppend(node, addrs, a, n);
    DistinctAppend(addrs, a);
  }

  lemma SwapUpdates(next: map<int, int>, x: int, a: int, b: int)
    requires x != a
    ensures next[x := a][a := b] == next[a := b][x := a]
  {
  }

  lemma DistinctAppend(addrs: seq<int>, a: int)
    requires Distinct(addrs) && a !in addrs
    ensures Distinct(addrs + [a])
  {
  }

  lemma NotFoundView(procs: map<int, Proc>, node: map<int, ReadyNode>, addrs: seq<int>, cur: nat, proc: int, pid: int)
    requires NodesAt(node, addrs) && (addrs != [] ==> cur < |addrs|)
    requires forall j | 0 <= j < |addrs| :: node[addrs[j]].pid != pid
    ensures RemoveReady(ViewOf(procs, node, addrs, cur, proc), pid) == ViewOf(procs, node, addrs, cur, proc)
  {
  }

  lemma RemoveView(procs: map<int, Proc>, node: map<int, ReadyNode>, addrs: seq<int>, cur: nat, proc: int, k: nat, pid: int,
                   addrs': seq<int>, cur': nat)
    requires NodesAt(node, addrs) && k < |addrs| && cur < |addrs|
    requires addrs' == Remove(addrs, k) && cur' == CurAfterRemove(|addrs|, cur, k)
    requires node[addrs[k]].pid == pid && forall j | 0 <= j < k :: node[addrs[j]].pid != pid
    ensures NodesAt(node, addrs')
    ensures ViewOf(procs, node, addrs', cur', proc) == RemoveReady(ViewOf(procs, node, addrs, cur, proc), pid)
  {
    var ring := RingOf(node, addrs);
    assert ring[k].pid == pid;
    assert IndexOf(ring, pid) == k;
    RingRemove(node, addrs, k);
  }

  lemma RemoveOnly(node: map<int, ReadyNode>, next: map<int, int>, head: int, current: int, addrs: seq<int>, cur: nat, k: nat,
                   addrs': seq<int>, cur': nat)
    requires Shape(node, next, head, current, addrs, cur) && k < |addrs| == 1 && addrs' == Remove(addrs, k)
    ensures Shape(node, next, NULL, NULL, addrs', cur')
  {
    assert Remove(addrs, k) == [];
  }

  lemma RemoveOneOf(node: map<int, ReadyNode>, next: map<int, int>, head: int, current: int, addrs: seq<int>, cur: nat,
                    k: nat, p: int, q: int, next': map<int, int>, head': int, current': int, addrs': seq<int>, cur': nat)
    requires Shape(node, next, head, current, addrs, cur) && k < |addrs| && |addrs| > 1
    requires p == addrs[Pred(k, |addrs|)] && q == addrs[Succ(k, |addrs|)]
    requires next' == next[p := q] && addrs' == Remove(addrs, k) && cur' == CurAfterRemove(|addrs|, cur, k)
    requires head' == (if addrs[k] == head then q else head) && current' == if addrs[k] == current then q else current
    ensures Shape(node, next', head', current', addrs', cur')
  {
    RingRemove(node, addrs, k);
    RemoveFacts(addrs, k);
    ForwardRemove(next, addrs, k);
    CurrentAfterRemove(addrs, cur, k);
  }

  lemma TableView(procs: map<int, Proc>, procs': map<int, Proc>, node: map<int, ReadyNode>, addrs: seq<int>, cur: nat, proc: int)
    requires NodesAt(node, addrs)
    ensures ViewOf(procs', node, addrs, cur, proc) == ViewOf(procs, node, addrs, cur, proc).(procs := procs')
    ensures ViewOf(procs, node, addrs, cur, proc).procs == procs && ViewOf(procs, node, addrs, cur, proc).current == proc
    ensures ViewOf(procs, node, addrs, cur, proc).cur == cur && |ViewOf(procs, node, addrs, cur, proc).ring| == |addrs|
  {
  }

  lemma NodeView(procs: map<int, Proc>, node: map<int, ReadyNode>, addrs: seq<int>, cur: nat, proc: int, k: nat, n: ReadyNode)
    requires NodesAt(node, addrs) && k < |addrs| && Distinct(addrs)
    ensures NodesAt(node[addrs[k] := n], addrs)
    ensures var s := ViewOf(procs, node, addrs, cur, proc);
            s.ring[k] == Node(node[addrs[k]].pid, node[addrs[k]].counter)
            && ViewOf(procs, node[addrs[k] := n], addrs, cur, proc) == s.(ring := s.ring[k := Node(n.pid, n.counter)])
  {
    RingUpdate(node, addrs, k, n);
  }

  lemma NodeShape(node: map<int, ReadyNode>, next: map<int, int>, head: int, current: int, addrs: seq<int>, cur: nat,
                  a: int, n: ReadyNode)
    requires Shape(node, next, head, current, addrs, cur) && a in addrs
    ensures Shape(node[a := n], next, head, current, addrs, cur)
  {
  }

  lemma PriorityView(s: Sched, k: nat, pid: int)
    requires k < |s.ring| && s.ring[k].pid == pid && forall j | 0 <= j < k :: s.ring[j].pid != pid
    ensures SchedulerSpec.Listed(s.ring, pid) && IndexOf(s.ring, pid) == k
  {
  }

  lemma NotListedView(procs: map<int, Proc>, node: map<int, ReadyNode>, addrs: seq<int>, cur: nat, proc: int, pid: int)
    requires NodesAt(node, addrs)
    requires forall j | 0 <= j < |addrs| :: node[addrs[j]].pid != pid
    ensures !SchedulerSpec.Listed(ViewOf(procs, node, addrs, cur, proc).ring, pid)
  {
  }

  lemma FoundView(procs: map<int, Proc>, node: map<int, ReadyNode>, addrs: seq<int>, cur: nat, proc: int, k: nat, pid: int)
    requires NodesAt(node, addrs) && k < |addrs|
    requires node[addrs[k]].pid == pid && forall j | 0 <= j < k :: node[addrs[j]].pid != pid
    ensures var s := ViewOf(procs, node, addrs, cur, proc); SchedulerSpec.Listed(s.ring, pid) && IndexOf(s.ring, pid) == k
  {
    PriorityView(ViewOf(procs, node, addrs, cur, proc), k, pid);
  }

  lemma NodeAt(procs: map<int, Proc>, node: map<int, ReadyNode>, addrs: seq<int>, cur: nat, proc: int, k: nat)
    requires NodesAt(node, addrs) && k < |addrs|
    ensures ViewOf(procs, node, addrs, cur, proc).ring[k] == Node(node[addrs[k]].pid, node[addrs[k]].counter)
  {
  }

  lemma OnlyStart(node: map<int, ReadyNode>, next: map<int, int>, head: int, current: int, addrs: seq<int>, cur: nat, j: nat)
    requires Shape(node, next, head, current, addrs, cur) && j < |addrs|
    ensures addrs[j] == current <==> j == cur
  {
  }

  lemma RunView(procs: map<int, Proc>, node: map<int, ReadyNode>, next: map<int, int>, head: int, current: int,
                addrs: seq<int>, cur: nat, proc: int, j: nat)
    requires Shape(node, next, head, current, addrs, cur) && j < |addrs| && node[addrs[j]].pid in procs
    ensures var p := node[addrs[j]].pid;
            var node', procs' := node[addrs[j] := ReadyNode(p, procs[p].priority)], procs[p := procs[p].(status := Running)];
            Shape(node', next, head, addrs[j], addrs, j)
            && (ViewOf(procs', node', addrs, j, p), procs'[p].sp) == RunNode(ViewOf(procs, node, addrs, cur, proc), j)
  {
    RingUpdate(node, addrs, j, ReadyNode(node[addrs[j]].pid, procs[node[addrs[j]].pid].priority));
  }

  lemma KeepView(procs: map<int, Proc>, node: map<int, ReadyNode>, next: map<int, int>, head: int, current: int,
                 addrs: seq<int>, cur: nat, proc: int)
    requires Shape(node, next, head, current, addrs, cur) && addrs != [] && proc in procs
    ensures var n := ReadyNode(node[current].pid, procs[proc].priority);
            var s, node' := ViewOf(procs, node, addrs, cur, proc), node[current := n];
            Shape(node', next, head, current, addrs, cur)
            && ViewOf(procs[proc := procs[proc].(status := Running)], node', addrs, cur, proc)
               == SetStatus(s, proc, Running).(ring := s.ring[cur := Node(s.ring[cur].pid, procs[proc].priority)])
  {
    RingUpdate(node, addrs, cur, ReadyNode(node[current].pid, procs[proc].priority));
  }

  class ReadyQueue {
    var procs: map<int, Proc>
    var node: map<int, ReadyNode>
    var next: map<int, int>
    var readyList: int
    var currentNode: int
    var currentProcess: int
    ghost var addrs: seq<int>
    ghost var cur: nat

    ghost predicate Valid()
      reads this
    {
      Shape(node, next, readyList, currentNode, addrs, cur)
    }

    ghost function View(): (s: Sched)
      requires Valid()
      reads this
      ensures CurOk(s)
    {
      ViewOf(procs, node, addrs, cur, currentProcess)
    }

    /** Before the first process is created. */
    constructor ()
      ensures Valid() && View() == Sched(map[], [], 0, NULL)
    {
      procs, node, next, readyList, currentNode, currentProcess, addrs, cur := map[], map[], map[], NULL, NULL, NULL, [], 0;
    }

    /** is_in_ready_list */
    method IsInReadyList(pid: int) returns (b: bool)
      requires Valid()
      ensures b == SchedulerSpec.Listed(View().ring, pid)
    {
      hide Shape, ViewOf, RingOf, NodesAt, Forward, Distinct, SchedulerSpec.Listed;
      ShapeHead(node, next, readyList, currentNode, addrs, cur);
      if readyList == NULL { NotListedView(procs, node, addrs, cur, currentProcess, pid); return false; }
      ShapeFacts(node, next, readyList, currentNode, addrs, cur, 0);
      var curr := readyList;
      ghost var k := 0;
      while true
        invariant k < |addrs| && curr == addrs[k]
        invariant forall j | 0 <= j < k :: addrs[j] in node && node[addrs[j]].pid != pid
        decreases |addrs| - k
      {
        ShapeFacts(node, next, readyList, currentNode, addrs, cur, k);
        if node[curr].pid == pid {
          FoundView(procs, node, addrs, cur, currentProcess, k, pid);
          return true;
        }
        curr := next[curr];
        if curr == readyList { NotListedView(procs, node, addrs, cur, currentProcess, pid); return false; }
        k := k + 1;
      }
    }

    /** The last node, found by following the links until they lead back to the first. */
    static method Tail(node: map<int, ReadyNode>, next: map<int, int>, head: int, ghost owner: int,
                       ghost addrs: seq<int>, ghost cur: nat) returns (tail: int)
      requires Shape(node, next, head, owner, addrs, cur) && head != NULL
      ensures addrs != [] && tail == addrs[|addrs| - 1]
    {
      hide Shape, NodesAt, Forward, Distinct;
      ShapeHead(node, next, head, owner, addrs, cur);
      ShapeFacts(node, next, head, owner, addrs, cur, 0);
      tail := head;
      ghost var k := 0;
      while next[tail] != head
        invariant k < |addrs| && tail == addrs[k] && tail in next && (next[tail] == head <==> k + 1 == |addrs|)
        decreases |addrs| - k
      {
        ShapeFacts(node, next, head, owner, addrs, cur, k);
        tail := next[tail];
        k := k + 1;
        ShapeFacts(node, next, head, owner, addrs, cur, k);
      }
    }

    /** add_to_ready_list; a is the address that the memory manager gives for the new node. */
    method AddToReadyList(pid: int, a: int)
      requires Valid() && pid in procs && a != NULL && a !in addrs
      modifies this`node, this`next, this`readyList, this`currentNode, this`addrs, this`cur
      ensures Valid() && View() == AddReady(old(View()), pid)
    {
      hide Shape, ViewOf, RingOf, NodesAt, Forward, Distinct;
      ShapeHead(node, next, readyList, currentNode, addrs, cur);
      var listed := IsInReadyList(pid);
      if listed { ListedView(procs, node, addrs, cur, currentProcess, pid); return; }
      AppendView(procs, node, addrs, cur, currentProcess, pid, a);
      if readyList == NULL {
        FirstNode(node, next, readyList, currentNode, addrs, cur, a, ReadyNode(pid, procs[pid].priority));
        node := node[a := ReadyNode(pid, procs[pid].priority)];
        readyList, currentNode, cur := a, a, 0;
        next := next[a := a];
      } else {
        var tail := Tail(node, next, readyList, currentNode, addrs, cur);
        AppendNode(node, next, readyList, currentNode, addrs, cur, a, ReadyNode(pid, procs[pid].priority));
        node := node[a := ReadyNode(pid, procs[pid].priority)];
        next := next[tail := a][a := readyList];
      }
      addrs := addrs + [a];
    }

    /** The node of a process and the one before it, which is null for the first node. */
    static method FindNode(node: map<int, ReadyNode>, next: map<int, int>, head: int, ghost owner: int,
                           ghost addrs: seq<int>, ghost cur: nat, pid: int)
      returns (curr: int, prev: int, ghost k: nat)
      requires Shape(node, next, head, owner, addrs, cur) && head != NULL
      ensures curr == NULL ==> forall j | 0 <= j < |addrs| :: node[addrs[j]].pid != pid
      ensures curr != NULL ==> k < |addrs| && curr == addrs[k] && prev == (if k == 0 then NULL else addrs[k - 1])
                               && node[curr].pid == pid && forall j | 0 <= j < k :: node[addrs[j]].pid != pid
    {
      hide Shape, NodesAt, Forward, Distinct;
      ShapeHead(node, next, head, owner, addrs, cur);
      ShapeFacts(node, next, head, owner, addrs, cur, 0);
      curr, prev, k := head, NULL, 0;
      while node[curr].pid != pid
        invariant k < |addrs| && curr == addrs[k] && curr in node
        invariant prev == if k == 0 then NULL else addrs[k - 1]
        invariant forall j | 0 <= j < k :: node[addrs[j]].pid != pid
        decreases |addrs| - k
      {
        ShapeFacts(node, next, head, owner, addrs, cur, k);
        prev := curr;
        curr := next[curr];
        if curr == head { return NULL, NULL, k; }
        k := k + 1;
        ShapeFacts(node, next, head, owner, addrs, cur, k);
      }
    }

    /** remove_from_ready_list */
    method RemoveFromReadyList(pid: int)
      requires Valid()
      modifies this`next, this`readyList, this`currentNode, this`addrs, this`cur
      ensures Valid() && View() == RemoveReady(old(View()), pid)
    {
      hide Shape, ViewOf, RingOf, Remove, CurAfterRemove, NodesAt, Forward, Distinct;
      ShapeHead(node, next, readyList, currentNode, addrs, cur);
      if readyList == NULL {
        NotFoundView(procs, node, addrs, cur, currentProcess, pid);
        return;
      }
      var curr, prev;
      ghost var k;
      curr, prev, k := FindNode(node, next, readyList, currentNode, addrs, cur, pid);
      if curr == NULL {
        NotFoundView(procs, node, addrs, cur, currentProcess, pid);
        return;
      }
      RemoveView(procs, node, addrs, cur, currentProcess, k, pid, Remove(addrs, k), CurAfterRemove(|addrs|, cur, k));
      next, readyList, currentNode := Unlink(node, next, readyList, currentNode, curr, prev, addrs, cur, k);
      cur, addrs := CurAfterRemove(|addrs|, cur, k), Remove(addrs, k);
    }

    /** The node before the first one, found by going all the way around. */
    static method LastNode(next: map<int, int>, ghost addrs: seq<int>, start: int, curr: int) returns (last: int)
      requires Forward(next, addrs) && Distinct(addrs) && |addrs| > 1 && start == addrs[1] && curr == addrs[0]
      ensures last == addrs[|addrs| - 1]
    {
      last := start;
      ghost var m := 1;
      while next[last] != curr
        invariant 1 <= m < |addrs| && last == addrs[m]
        decreases |addrs| - m
      {
        last := next[last];
        m := m + 1;
      }
    }

    /** The unlinking of a found node; prev is null when the node is the first one. */
    static method Unlink(node: map<int, ReadyNode>, next0: map<int, int>, head0: int, owner0: int,
                         curr: int, prev: int, ghost addrs: seq<int>, ghost cur: nat, ghost k: nat)
      returns (next: map<int, int>, head: int, owner: int)
      requires Shape(node, next0, head0, owner0, addrs, cur)
      requires k < |addrs| && curr == addrs[k] && prev == if k == 0 then NULL else addrs[k - 1]
      ensures Shape(node, next, head, owner, Remove(addrs, k), CurAfterRemove(|addrs|, cur, k))
    {
      ShapeFacts(node, next0, head0, owner0, addrs, cur, k);
      next, head, owner := next0, head0, owner0;
      if next[curr] == curr {
        head, owner := NULL, NULL;
        RemoveOnly(node, next0, head0, owner0, addrs, cur, k, Remove(addrs, k), CurAfterRemove(|addrs|, cur, k));
      } else {
        if curr == head { head := next[curr]; }
        var last := prev;
        if prev == NULL { last := LastNode(next, addrs, head, curr); }
        next := next[last := next[curr]];
        if curr == owner { owner := next[curr]; }
        RemoveOneOf(node, next0, head0, owner0, addrs, cur, k, last, next0[curr],
                    next, head, owner, Remove(addrs, k), CurAfterRemove(|addrs|, cur, k));
      }
    }

    /** block_process */
    method BlockProcess(pid: int) returns (ok: bool)
      requires Valid()
      modifies this`procs, this`next, this`readyList, this`currentNode, this`addrs, this`cur
      ensures Valid() && (View(), ok) == Block(old(View()), pid)
    {
      hide Shape, RingOf, NodesAt, RemoveReady;
      ShapeHead(node, next, readyList, currentNode, addrs, cur);
      if pid !in procs { return false; }
      if procs[pid].status != Running && procs[pid].status != Ready { return false; }
      procs := procs[pid := procs[pid].(status := Blocked)];
      assert View() == SetStatus(old(View()), pid, Blocked);
      RemoveFromReadyList(pid);
      return true;
    }

    /** unblock_process; a is the address that the memory manager gives for a new node. */
    method UnblockProcess(pid: int, a: int) returns (ok: bool)
      requires Valid() && a != NULL && a !in addrs
      modifies this`procs, this`node, this`next, this`readyList, this`currentNode, this`addrs, this`cur
      ensures Valid() && (View(), ok) == Unblock(old(View()), pid)
    {
      hide Shape, RingOf, NodesAt;
      ShapeHead(node, next, readyList, currentNode, addrs, cur);
      if pid == INIT_PID { return false; }
      if pid !in procs { return false; }
      if procs[pid].status != Blocked { return false; }
      procs := procs[pid := procs[pid].(status := Ready)];
      assert View() == SetStatus(old(View()), pid, Ready);
      var listed := IsInReadyList(pid);
      if !listed { AddToReadyList(pid, a); }
      return true;
    }

    /** What createProcess does to the table and the ready list. */
    method CreateProcess(pid: int, priority: int, sp: int, a: int)
      requires Valid() && a != NULL && a !in addrs
      modifies this`procs, this`node, this`next, this`readyList, this`currentNode, this`addrs, this`cur
      ensures Valid() && View() == Create(old(View()), pid, priority, sp)
    {
      hide Shape, RingOf, NodesAt;
      ShapeHead(node, next, readyList, currentNode, addrs, cur);
      procs := procs[pid := Proc(Ready, priority, sp)];
      AddToReadyList(pid, a);
    }

    /** What kill_process and exit_process do before they reschedule. */
    method TerminateProcess(pid: int)
      requires Valid()
      modifies this`procs, this`next, this`readyList, this`currentNode, this`addrs, this`cur
      ensures Valid() && View() == Terminate(old(View()), pid)
    {
      hide Shape, RingOf, NodesAt, RemoveReady;
      ShapeHead(node, next, readyList, currentNode, addrs, cur);
      RemoveFromReadyList(pid);
      ShapeHead(node, next, readyList, currentNode, addrs, cur);
      procs := procs - {pid};
    }

    /** modify_priority */
    method ModifyPriority(pid: int, newPriority: int) returns (ok: bool)
      requires Valid()
      modifies this`procs, this`node
      ensures Valid() && (View(), ok) == SetPriority(old(View()), pid, newPriority)
    {
      hide Shape, RingOf, ViewOf, NodesAt, Forward, Distinct, IndexOf, SchedulerSpec.Listed;
      ShapeHead(node, next, readyList, currentNode, addrs, cur);
      ghost var s := View();
      TableView(procs, procs, node, addrs, cur, currentProcess);
      if pid !in procs { return false; }
      TableView(procs, procs[pid := procs[pid].(priority := newPriority)], node, addrs, cur, currentProcess);
      procs := procs[pid := procs[pid].(priority := newPriority)];
      if newPriority !in PRIORITIES { return false; }
      if readyList == NULL {
        NotListedView(procs, node, addrs, cur, currentProcess, pid);
        return true;
      }
      var found, prev;
      ghost var k;
      found, prev, k := FindNode(node, next, readyList, currentNode, addrs, cur, pid);
      if found != NULL {
        ShapeFacts(node, next, readyList, currentNode, addrs, cur, k);
        FoundView(procs, node, addrs, cur, currentProcess, k, pid);
        NodeView(procs, node, addrs, cur, currentProcess, k, node[found].(counter := newPriority));
        NodeShape(node, next, readyList, currentNode, addrs, cur, found, node[found].(counter := newPriority));
        node := node[found := node[found].(counter := newPriority)];
      } else {
        NotListedView(procs, node, addrs, cur, currentProcess, pid);
      }
      return true;
    }

    /** The search of scheduler(): around the circle until a ready node or the start is met. */
    static method FindReady(procs: map<int, Proc>, node: map<int, ReadyNode>, next: map<int, int>, ghost head: int, start: int,
                            ghost addrs: seq<int>, ghost cur: nat, ghost proc: int)
      returns (found: bool, at: int, ghost j: nat)
      requires Shape(node, next, head, start, addrs, cur) && addrs != []
      ensures NodesAt(node, addrs)
      ensures var s := ViewOf(procs, node, addrs, cur, proc);
              s.cur < |s.ring| && Search(s, s.cur, |s.ring|) == if found then j else -1
      ensures j < |addrs| && at == addrs[j] && at in node && (!found ==> j == cur)
      ensures found ==> node[at].pid in procs
    {
      hide Shape, RingOf, ViewOf, NodesAt, Forward, Distinct;
      ShapeHead(node, next, head, start, addrs, cur);
      ghost var s := ViewOf(procs, node, addrs, cur, proc);
      TableView(procs, procs, node, addrs, cur, proc);
      at, j := start, cur;
      ghost var left := |addrs|;
      while true
        invariant j < |addrs| && at == addrs[j] && 0 < left <= |addrs|
        invariant j == if cur + (|addrs| - left) < |addrs| then cur + (|addrs| - left) else cur - left
        invariant Search(s, cur, |addrs|) == Search(s, j, left)
        decreases left
      {
        ShapeFacts(node, next, head, start, addrs, cur, j);
        at, j, left := next[at], Succ(j, |addrs|), left - 1;
        ShapeFacts(node, next, head, start, addrs, cur, j);
        OnlyStart(node, next, head, start, addrs, cur, j);
        NodeAt(procs, node, addrs, cur, proc, j);
        if node[at].pid in procs && procs[node[at].pid].status == Ready { return true, at, j; }
        if at == start { return false, at, j; }
      }
    }

    /** scheduler(): returns the stack pointer to go on with. */
    method Schedule(sp: int) returns (r: int)
      requires Valid()
      modifies this`procs, this`node, this`currentNode, this`currentProcess, this`cur
      ensures Valid() && (View(), r) == Dispatch(old(View()), sp)
    {
      hide Shape, RingOf, ViewOf, NodesAt, Forward, Distinct, Search;
      ShapeHead(node, next, readyList, currentNode, addrs, cur);
      ghost var s := View();
      TableView(procs, procs, node, addrs, cur, currentProcess);
      if readyList == NULL { return sp; }
      if currentProcess in procs && procs[currentProcess].status == Blocked {
        TableView(procs, procs[currentProcess := procs[currentProcess].(sp := sp)], node, addrs, cur, currentProcess);
        procs := procs[currentProcess := procs[currentProcess].(sp := sp)];
        assert View() == SaveSp(s, sp);
      }
      if currentProcess in procs && procs[currentProcess].status == Running {
        TableView(procs, procs[currentProcess := procs[currentProcess].(sp := sp)], node, addrs, cur, currentProcess);
        procs := procs[currentProcess := procs[currentProcess].(sp := sp)];
        assert View() == SaveSp(s, sp);
        ShapeFacts(node, next, readyList, currentNode, addrs, cur, cur);
        NodeView(procs, node, addrs, cur, currentProcess, cur, node[currentNode].(counter := node[currentNode].counter - 1));
        NodeShape(node, next, readyList, currentNode, addrs, cur, currentNode, node[currentNode].(counter := node[currentNode].counter - 1));
        node := node[currentNode := node[currentNode].(counter := node[currentNode].counter - 1)];
        if node[currentNode].counter > 0 { return sp; }
        TableView(procs, procs[currentProcess := procs[currentProcess].(status := Ready)], node, addrs, cur, currentProcess);
        procs := procs[currentProcess := procs[currentProcess].(status := Ready)];
      }
      assert View() == BeforeSearch(s, sp);
      r := SearchAndRun(sp);
    }

    /** The search and what follows it. */
    method SearchAndRun(sp: int) returns (r: int)
      requires Valid() && addrs != []
      modifies this`procs, this`node, this`currentNode, this`currentProcess, this`cur
      ensures Valid() && (View(), r) == Choose(old(View()), sp)
    {
      hide Shape, RingOf, ViewOf, NodesAt, Forward, Distinct, Search;
      ShapeHead(node, next, readyList, currentNode, addrs, cur);
      ghost var s := View();
      TableView(procs, procs, node, addrs, cur, currentProcess);
      var found, at;
      ghost var j;
      found, at, j := FindReady(procs, node, next, readyList, currentNode, addrs, cur, currentProcess);
      if found {
        var p := node[at].pid;
        RunView(procs, node, next, readyList, currentNode, addrs, cur, currentProcess, j);
        node, procs, currentNode, currentProcess, cur :=
          node[at := ReadyNode(p, procs[p].priority)], procs[p := procs[p].(status := Running)], at, p, j;
        r := procs[p].sp;
      } else if currentProcess in procs {
        KeepView(procs, node, next, readyList, currentNode, addrs, cur, currentProcess);
        node := node[currentNode := node[currentNode].(counter := procs[currentProcess].priority)];
        procs := procs[currentProcess := procs[currentProcess].(status := Running)];
        r := procs[currentProcess].sp;
      } else {
        r := sp;
      }
    }
  }

  lemma CurrentAfterRemove(addrs: seq<int>, cur: nat, k: nat)
    requires Distinct(addrs) && k < |addrs| && cur < |addrs| && |addrs| > 1
    ensures addrs[k] != addrs[Pred(k, |addrs|)] && (addrs[cur] == addrs[k] <==> cur == k)
    ensures addrs[0] == addrs[k] <==> k == 0
    ensures Remove(addrs, k)[0] == addrs[if k == 0 then 1 else 0]
    ensures CurAfterRemove(|addrs|, cur, k) < |Remove(addrs, k)|
    ensures Remove(addrs, k)[CurAfterRemove(|addrs|, cur, k)] == addrs[if cur == k then Succ(k, |addrs|) else cur]
  {
  }
}
