/**
 Weighted round robin.  While the ready list and the priorities stay as they are,
 timer ticks hand out the processor in rounds, in which every ready process has as
 many ticks as its quantum.
 */
module RoundRobin {
  import opened Circle
  import opened SchedulerSpec

  /** Process and quantum of every node, in ring order. */
  type Profile = seq<(int, nat)>

  ghost function ProfileOf(s: Sched): (p: Profile)
    requires forall i | 0 <= i < |s.ring| :: s.ring[i].pid in s.procs
    ensures |p| == |s.ring|
    ensures forall i | 0 <= i < |p| :: p[i] == (s.ring[i].pid, Quantum(s.procs[s.ring[i].pid].priority))
  {
    seq(|s.ring|, i requires 0 <= i < |s.ring| => (s.ring[i].pid, Quantum(s.procs[s.ring[i].pid].priority)))
  }

  ghost predicate Positive(p: Profile) {
    forall i | 0 <= i < |p| :: p[i].1 >= 1
  }

  function Repeat(x: int, n: nat): (r: seq<int>)
    ensures |r| == n && forall i | 0 <= i < n :: r[i] == x
  {
    seq(n, _ => x)
  }

  /** One full round: every process as many slots as its quantum. */
  ghost function Slots(p: Profile): seq<int>
    requires Positive(p)
  {
    if p == [] then [] else Slots(p[..|p| - 1]) + Repeat(p[|p| - 1].0, p[|p| - 1].1)
  }

  /** The slots of the first i processes. */
  ghost function Offset(p: Profile, i: nat): nat
    requires Positive(p) && i <= |p|
  {
    |Slots(p[..i])|
  }

  lemma {:induction false} SlotAt(p: Profile, i: nat, d: nat)
    requires Positive(p) && i < |p| && d < p[i].1
    ensures Offset(p, i + 1) == Offset(p, i) + p[i].1
    ensures Offset(p, i) + d < |Slots(p)| && Slots(p)[Offset(p, i) + d] == p[i].0
    ensures Offset(p, i) + p[i].1 <= |Slots(p)| && (i + 1 == |p| ==> Offset(p, i + 1) == |Slots(p)|)
    decreases |p|
  {
    assert p[..i + 1][..i] == p[..i];
    var n := |p| - 1;
    if i < n {
      assert p[..n][..i] == p[..i] && p[..n][..i + 1] == p[..i + 1];
      SlotAt(p[..n], i, d);
    } else {
      assert p[..i + 1] == p;
    }
  }

  /** Some process is running. */
  ghost predicate Going(s: Sched, idle: int) {
    Inv(s, idle) && Settled(s)
  }

  /** Mid-quantum: it has no more ticks left than its priority gives. */
  ghost predicate MidQuantum(s: Sched, idle: int) {
    Going(s, idle) && Quantum(s.ring[s.cur].counter) <= Quantum(s.procs[s.current].priority)
  }

  lemma RingInTable(s: Sched, idle: int)
    requires Inv(s, idle)
    ensures forall i | 0 <= i < |s.ring| :: s.ring[i].pid in s.procs
  {
    forall i | 0 <= i < |s.ring| ensures s.ring[i].pid in s.procs { assert Listed(s.ring, s.ring[i].pid); }
  }

  /** How far into the round the running process is. */
  ghost function Position(s: Sched, idle: int): nat
    requires MidQuantum(s, idle)
  {
    RingInTable(s, idle);
    Offset(ProfileOf(s), s.cur) + (Quantum(s.procs[s.current].priority) - Quantum(s.ring[s.cur].counter))
  }

  ghost function Round(s: Sched, idle: int): seq<int>
    requires Going(s, idle)
  {
    RingInTable(s, idle);
    Slots(ProfileOf(s))
  }

  lemma PositionIsCurrent(s: Sched, idle: int)
    requires MidQuantum(s, idle)
    ensures Position(s, idle) < |Round(s, idle)| && Round(s, idle)[Position(s, idle)] == s.current
  {
    RingInTable(s, idle);
    SlotAt(ProfileOf(s), s.cur, Quantum(s.procs[s.current].priority) - Quantum(s.ring[s.cur].counter));
  }

  /** A timer tick moves one slot further round. */
  lemma TickMoves(s: Sched, idle: int, sp: int)
    requires MidQuantum(s, idle)
    ensures var u := Dispatch(s, sp).0;
            MidQuantum(u, idle) && Round(u, idle) == Round(s, idle)
            && Position(u, idle) == if Position(s, idle) + 1 == |Round(s, idle)| then 0 else Position(s, idle) + 1
  {
    hide Dispatch, Search, RingMatches, OwnerMatches;
    CurrentOwns(s, idle);
    DispatchMoves(s, idle, sp);
    var u := Dispatch(s, sp).0;
    RingInTable(s, idle);
    RingInTable(u, idle);
    CurrentOwns(u, idle);
    var p, n := ProfileOf(s), |s.ring|;
    assert ProfileOf(u) == p;
    SlotAt(p, s.cur, p[s.cur].1 - Quantum(s.ring[s.cur].counter));
    if s.ring[s.cur].counter <= 1 {
      if s.cur + 1 < n { SlotAt(p, s.cur + 1, 0); } else { assert p[..0] == []; }
    }
  }

  lemma CurrentOwns(s: Sched, idle: int)
    requires Going(s, idle)
    ensures s.cur < |s.ring| && s.ring[s.cur].pid == s.current && s.current in s.procs
  {
  }

  /** The processes that own the processor in a run of consecutive ticks. */
  ghost function Trace(s: Sched, sps: seq<int>): (t: seq<int>)
    requires s.cur < |s.ring|
    ensures |t| == |sps|
    decreases |sps|
  {
    if sps == [] then []
    else
      var u := Dispatch(s, sps[0]).0;
      [s.current] + if u.cur < |u.ring| then Trace(u, sps[1..]) else sps[1..]
  }

  /** The at-th slot, counted past the end of the round into the next one. */
  ghost function Around(r: seq<int>, at: nat): int
    requires at < 2 * |r|
  {
    if at < |r| then r[at] else r[at - |r|]
  }

  lemma MidIsGoing(s: Sched, idle: int)
    requires MidQuantum(s, idle)
    ensures Going(s, idle) && s.cur < |s.ring|
  {
    CurrentOwns(s, idle);
  }

  lemma {:induction false} TraceFollowsRound(s: Sched, idle: int, sps: seq<int>, i: nat)
    requires MidQuantum(s, idle) && i < |sps| <= |Round(s, idle)|
    ensures Position(s, idle) + i < 2 * |Round(s, idle)|
    ensures Trace(s, sps)[i] == Around(Round(s, idle), Position(s, idle) + i)
    decreases i
  {
    hide Position, Round, Dispatch, RingMatches, OwnerMatches, MidQuantum;
    MidIsGoing(s, idle);
    PositionIsCurrent(s, idle);
    TickMoves(s, idle, sps[0]);
    if i > 0 {
      var u := Dispatch(s, sps[0]).0;
      MidIsGoing(u, idle);
      TraceFollowsRound(u, idle, sps[1..], i - 1);
    }
  }

  lemma {:induction false} RoundCounts(p: Profile, x: int)
    requires Positive(p) && forall i, j | 0 <= i < j < |p| :: p[i].0 != p[j].0
    ensures (forall i | 0 <= i < |p| :: p[i].0 != x) ==> multiset(Slots(p))[x] == 0
    ensures forall i | 0 <= i < |p| && p[i].0 == x :: multiset(Slots(p))[x] == p[i].1
  {
    if p != [] {
      var n := |p| - 1;
      RoundCounts(p[..n], x);
      RepeatCounts(p[n].0, p[n].1, x);
    }
  }

  lemma {:induction false} RepeatCounts(y: int, n: nat, x: int)
    ensures multiset(Repeat(y, n))[x] == if x == y then n else 0
  {
    if n > 0 {
      RepeatCounts(y, n - 1, x);
      assert Repeat(y, n) == Repeat(y, n - 1) + [y];
    }
  }

  /** The ticks of one round that a process is due. */
  function Share(s: Sched, p: int): nat {
    if p in s.procs && s.procs[p].status != Blocked then Quantum(s.procs[p].priority) else 0
  }

  lemma CountInRound(s: Sched, idle: int, p: int)
    requires Going(s, idle)
    ensures multiset(Round(s, idle))[p] == Share(s, p)
  {
    RingInTable(s, idle);
    RoundCounts(ProfileOf(s), p);
    if Listed(s.ring, p) {
      var i :| 0 <= i < |s.ring| && s.ring[i].pid == p;
      assert ProfileOf(s)[i].0 == p;
    }
  }

  lemma WindowIsRotation(s: Sched, idle: int, sps: seq<int>)
    requires MidQuantum(s, idle) && |sps| == |Round(s, idle)|
    ensures multiset(Trace(s, sps)) == multiset(Round(s, idle))
  {
    hide Position, Round, Dispatch, RingMatches;
    var t, r, at := Trace(s, sps), Round(s, idle), Position(s, idle);
    PositionIsCurrent(s, idle);
    forall i | 0 <= i < |t| ensures t[i] == (r[at..] + r[..at])[i] {
      TraceFollowsRound(s, idle, sps, i);
    }
    assert t == r[at..] + r[..at] && r == r[..at] + r[at..];
  }

  // ----- a quantum that is longer than the priority -----

  /** The state after a run of consecutive ticks. */
  ghost function After(s: Sched, sps: seq<int>): Sched
    decreases |sps|
  {
    if sps == [] || s.cur >= |s.ring| then s else After(Dispatch(s, sps[0]).0, sps[1..])
  }

  /** The running process keeps the processor for what is left of its quantum. */
  lemma {:induction false} QuantumLasts(s: Sched, idle: int, sps: seq<int>, i: nat)
    requires Going(s, idle) && i < |sps| && i < Quantum(s.ring[s.cur].counter)
    ensures Trace(s, sps)[i] == s.current
    decreases i
  {
    hide Dispatch, RingMatches;
    CurrentOwns(s, idle);
    if i > 0 {
      DispatchMoves(s, idle, sps[0]);
      var u := Dispatch(s, sps[0]).0;
      CurrentOwns(u, idle);
      QuantumLasts(u, idle, sps[1..], i - 1);
    }
  }

  /** Whatever the counter, once the quantum has run out the next process starts on a full one, in the same round. */
  lemma {:induction false} QuantumEnds(s: Sched, idle: int, sps: seq<int>)
    requires Going(s, idle) && |sps| == Quantum(s.ring[s.cur].counter)
    ensures MidQuantum(After(s, sps), idle) && Round(After(s, sps), idle) == Round(s, idle)
    decreases |sps|
  {
    hide Dispatch, RingMatches, OwnerMatches;
    CurrentOwns(s, idle);
    DispatchMoves(s, idle, sps[0]);
    var u := Dispatch(s, sps[0]).0;
    CurrentOwns(u, idle);
    RingInTable(s, idle);
    RingInTable(u, idle);
    assert ProfileOf(u) == ProfileOf(s);
    if |sps| > 1 {
      QuantumEnds(u, idle, sps[1..]);
    } else {
      assert After(u, sps[1..]) == u;
    }
  }

  lemma {:induction false} PrefixCounts(t: seq<int>, n: nat, x: int)
    requires n <= |t| && forall i | 0 <= i < n :: t[i] == x
    ensures multiset(t)[x] >= n
  {
    if n > 0 {
      PrefixCounts(t[1..], n - 1, x);
      assert t == [t[0]] + t[1..];
    }
  }

  /** A round is longer than the share of one process exactly when there is another one. */
  lemma RoundExceedsShare(s: Sched, idle: int)
    requires Going(s, idle)
    ensures |Round(s, idle)| >= Share(s, s.current)
    ensures |Round(s, idle)| == Share(s, s.current) <==> |s.ring| == 1
  {
    CurrentOwns(s, idle);
    RingInTable(s, idle);
    SlotsOfOne(ProfileOf(s), s.cur);
    assert Listed(s.ring, s.current);
  }

  lemma {:induction false} SlotsOfOne(p: Profile, i: nat)
    requires Positive(p) && i < |p|
    ensures |Slots(p)| >= p[i].1 + |p| - 1 && (|p| == 1 ==> |Slots(p)| == p[i].1)
    decreases |p|
  {
    var n := |p| - 1;
    if n == 0 {
      assert p[..0] == [];
    } else {
      SlotsOfOne(p[..n], if i < n then i else 0);
    }
  }

  /**
   Weighted round robin, exactly: in a window of as many ticks as the quanta of the
   ready processes add up to, every ready process has the processor for its quantum and
   nobody else has it at all, if and only if the running process has no more ticks left
   than its priority gives, or is alone.
   */
  lemma WeightedRoundRobin(s: Sched, idle: int, sps: seq<int>)
    requires Going(s, idle) && |sps| == |Round(s, idle)|
    ensures (forall p :: multiset(Trace(s, sps))[p] == Share(s, p))
            <==> Quantum(s.ring[s.cur].counter) <= Quantum(s.procs[s.current].priority) || |s.ring| == 1
  {
    CurrentOwns(s, idle);
    RoundExceedsShare(s, idle);
    if MidQuantum(s, idle) {
      WindowIsRotation(s, idle, sps);
      forall p ensures multiset(Trace(s, sps))[p] == Share(s, p) { CountInRound(s, idle, p); }
    } else {
      OverlongQuantum(s, idle, sps);
    }
  }

  lemma OverlongQuantum(s: Sched, idle: int, sps: seq<int>)
    requires Going(s, idle) && !MidQuantum(s, idle) && |sps| == |Round(s, idle)|
    ensures (forall p :: multiset(Trace(s, sps))[p] == Share(s, p)) <==> |s.ring| == 1
  {
    CurrentOwns(s, idle);
    RoundExceedsShare(s, idle);
    var t, c := Trace(s, sps), Quantum(s.ring[s.cur].counter);
    var n := if c < |t| then c else |t|;
    forall i | 0 <= i < n ensures t[i] == s.current { QuantumLasts(s, idle, sps, i); }
    PrefixCounts(t, n, s.current);
    if |s.ring| == 1 {
      assert s.ring[0].pid == s.current;
      assert t == Repeat(s.current, |t|);
      forall p ensures multiset(t)[p] == Share(s, p) {
        RepeatCounts(s.current, |t|, p);
        assert Listed(s.ring, p) <==> p == s.current;
      }
    }
  }

  /**
   Storing a priority breaks that condition exactly when it is an unknown one, for the
   running process, and smaller than what is left of its quantum.
   */
  lemma StoringPriority(s: Sched, idle: int, pid: int, priority: int)
    requires MidQuantum(s, idle)
    ensures MidQuantum(SetPriority(s, pid, priority).0, idle)
            <==> pid != s.current || priority in PRIORITIES || Quantum(s.ring[s.cur].counter) <= Quantum(priority)
  {
    CurrentOwns(s, idle);
    SetPriorityInv(s, idle, pid, priority);
    SetPriorityTakesEffect(s, idle, pid, priority);
    assert Listed(s.ring, s.current);
  }
}
