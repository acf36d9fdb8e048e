/**
 The table of the dining philosophers: what the bodies of take_forks and leave_forks
 do to the states while the global semaphore is held, and what joining and leaving
 the table do to the circle of neighbours.
 */
module DiningTable {
  import opened Circle

  datatype State = Absent | Thinking | Waiting | Eating

  const MAX_DINER := 10
  const MIN_DINER := 3

  datatype Table = Table(states: seq<State>, count: nat)

  predicate ValidTable(t: Table) {
    |t.states| == MAX_DINER && t.count <= MAX_DINER
  }

  function Set(t: Table, i: nat, s: State): Table
    requires i < |t.states|
  {
    t.(states := t.states[i := s])
  }

  /** The body of take_forks, and whether it posts the philosopher's own semaphore. */
  function Take(t: Table, i: nat): (Table, bool)
    requires ValidTable(t) && i < t.count
  {
    var w := Set(t, i, Waiting);
    if w.states[Pred(i, t.count)] != Eating && w.states[Succ(i, t.count)] != Eating then (Set(w, i, Eating), true) else (w, false)
  }

  /** The first half of leave_forks: putting the forks down and serving the left neighbour. */
  function LeaveLeft(t: Table, i: nat): (Table, bool)
    requires ValidTable(t) && i < t.count
  {
    var w, left := Set(t, i, Thinking), Pred(i, t.count);
    if w.states[left] == Waiting && w.states[Pred(left, t.count)] != Eating then (Set(w, left, Eating), true) else (w, false)
  }

  /** The second half: serving the right neighbour. */
  function LeaveRight(t: Table, i: nat): (Table, bool)
    requires ValidTable(t) && i < t.count
  {
    var right := Succ(i, t.count);
    if t.states[right] == Waiting && t.states[Succ(right, t.count)] != Eating then (Set(t, right, Eating), true) else (t, false)
  }

  /** A place is taken out and the later ones move down. */
  function CloseUp<T>(s: seq<T>, i: nat, n: nat, hole: T): (r: seq<T>)
    requires i < n <= |s|
    ensures |r| == |s|
    ensures forall k | 0 <= k < |r| :: r[k] == if i <= k < n - 1 then s[k + 1] else if k == n - 1 then hole else s[k]
  {
    s[..i] + s[i + 1..n] + [hole] + s[n..]
  }

  function Join(t: Table): Table { t.(count := t.count + 1) }

  function Depart(t: Table, i: nat): Table
    requires ValidTable(t) && i < t.count
  {
    Table(CloseUp(t.states, i, t.count, Absent), t.count - 1)
  }

  /** remove_phylo waits while both neighbours of the one that leaves are eating. */
  predicate MustStay(t: Table, i: nat)
    requires ValidTable(t) && i < t.count
  {
    t.states[Pred(i, t.count)] == Eating && t.states[Succ(i, t.count)] == Eating
  }

  // ----- safety: no two neighbours eat -----

  ghost predicate Apart(t: Table)
    requires ValidTable(t)
  {
    t.count >= 2 ==> forall i | 0 <= i < t.count :: !(t.states[i] == Eating && t.states[Succ(i, t.count)] == Eating)
  }

  lemma TakeApart(t: Table, i: nat)
    requires ValidTable(t) && Apart(t) && i < t.count
    ensures Apart(Take(t, i).0) && (Take(t, i).1 <==> Take(t, i).0.states[i] == Eating)
  {
    var u := Take(t, i).0;
    forall j | 0 <= j < t.count && t.count >= 2 ensures !(u.states[j] == Eating && u.states[Succ(j, t.count)] == Eating) {
      if Succ(j, t.count) == i { assert j == Pred(i, t.count); }
    }
  }

  lemma LeaveLeftApart(t: Table, i: nat)
    requires ValidTable(t) && Apart(t) && i < t.count
    ensures Apart(LeaveLeft(t, i).0)
  {
    var u, left := LeaveLeft(t, i).0, Pred(i, t.count);
    forall j | 0 <= j < t.count && t.count >= 2 ensures !(u.states[j] == Eating && u.states[Succ(j, t.count)] == Eating) {
      if Succ(j, t.count) == left { assert j == Pred(left, t.count); }
    }
  }

  lemma LeaveRightApart(t: Table, i: nat)
    requires ValidTable(t) && Apart(t) && i < t.count && t.states[i] != Eating
    ensures Apart(LeaveRight(t, i).0)
  {
    var u, right := LeaveRight(t, i).0, Succ(i, t.count);
    forall j | 0 <= j < t.count && t.count >= 2 ensures !(u.states[j] == Eating && u.states[Succ(j, t.count)] == Eating) {
      if Succ(j, t.count) == right { assert j == i; }
    }
  }

  lemma JoinApart(t: Table)
    requires ValidTable(t) && Apart(t) && t.count < MAX_DINER && t.states[t.count] != Eating
    ensures Apart(Join(t))
  {
    var u := Join(t);
    forall j | 0 <= j < u.count && u.count >= 2 ensures !(u.states[j] == Eating && u.states[Succ(j, u.count)] == Eating) {
      if j + 1 < t.count { assert Succ(j, t.count) == j + 1; }
    }
  }

  /** The pair that becomes adjacent when the last philosopher leaves does not eat together either. */
  lemma RemoveLastApart(t: Table)
    requires ValidTable(t) && Apart(t) && t.count > 0 && !MustStay(t, t.count - 1)
    ensures Apart(Depart(t, t.count - 1))
  {
    var u := Depart(t, t.count - 1);
    forall j | 0 <= j < u.count && u.count >= 2 ensures !(u.states[j] == Eating && u.states[Succ(j, u.count)] == Eating) {
      if j + 1 < u.count { assert Succ(j, t.count) == j + 1; }
    }
  }

  // ----- progress: whoever waits has a neighbour that eats -----

  predicate FedAt(t: Table, i: nat)
    requires ValidTable(t) && i < t.count
  {
    t.states[i] == Waiting ==> t.states[Pred(i, t.count)] == Eating || t.states[Succ(i, t.count)] == Eating
  }

  ghost predicate Fed(t: Table)
    requires ValidTable(t)
  {
    forall i | 0 <= i < t.count :: FedAt(t, i)
  }

  lemma TakeFed(t: Table, i: nat, j: nat)
    requires ValidTable(t) && i < t.count && j < t.count && t.states[i] != Eating
    requires j == i || FedAt(t, j)
    ensures FedAt(Take(t, i).0, j)
  {
  }

  lemma LeaveLeftFed(t: Table, i: nat, j: nat)
    requires ValidTable(t) && i < t.count && j < t.count && j != Succ(i, t.count)
    requires FedAt(t, j)
    ensures FedAt(LeaveLeft(t, i).0, j)
  {
    var left := Pred(i, t.count);
    if j != left && j != i { assert Pred(j, t.count) != i && Succ(j, t.count) != i; }
  }

  lemma LeaveRightFed(t: Table, i: nat, j: nat)
    requires ValidTable(t) && i < t.count && j < t.count && t.states[i] != Eating
    requires j == Succ(i, t.count) || FedAt(t, j)
    ensures FedAt(LeaveRight(t, i).0, j)
  {
    assert Pred(Succ(i, t.count), t.count) == i;
  }

  /**
   Joining can leave a waiting philosopher with nobody to wait for: exactly the first
   or the last one, when the only neighbour eating was the one across the new place.
   */
  lemma JoinOrphans(t: Table, j: nat)
    requires ValidTable(t) && Fed(t) && 2 <= t.count < MAX_DINER && t.states[t.count] != Eating && j < t.count
    ensures !FedAt(Join(t), j) <==>
            t.states[j] == Waiting && ((j == 0 && t.states[1] != Eating) || (j == t.count - 1 && t.states[t.count - 2] != Eating))
  {
    assert FedAt(t, j);
  }

  /**
   So can leaving: exactly when the one that leaves is the only eating neighbour of one
   beside it, and the neighbour it gets instead is not eating.
   */
  lemma RemoveLastOrphans(t: Table, j: nat)
    requires ValidTable(t) && Fed(t) && 3 <= t.count && j < t.count - 1
    ensures var n := t.count;
            !FedAt(Depart(t, n - 1), j) <==>
            t.states[j] == Waiting && t.states[n - 1] == Eating
            && ((j == 0 && t.states[1] != Eating && t.states[n - 2] != Eating)
                || (j == n - 2 && t.states[n - 3] != Eating && t.states[0] != Eating))
  {
    assert FedAt(t, j);
  }

  /** The second philosopher keeps its neighbours whoever joins, and whoever leaves while four or more sit at the table. */
  lemma SecondNeverOrphaned(t: Table)
    requires ValidTable(t) && t.count >= 2 && FedAt(t, 1)
    ensures t.count < MAX_DINER ==> FedAt(Join(t), 1)
    ensures t.count > MIN_DINER ==> FedAt(Depart(t, t.count - 1), 1)
  {
  }

  // ----- the table in place -----

  lemma NeighbourFormulas(i: nat, n: nat)
    requires i < n
    ensures (i + n - 1) % n == Pred(i, n) && (i + 1) % n == Succ(i, n)
  {
    if i > 0 { assert (i + n - 1) % n == i - 1 by { ModOnce(i - 1, n); } }
  }

  lemma ModOnce(a: nat, n: nat)
    requires a < n
    ensures (a + n) % n == a
  {
  }

  const NO_PID := -1

  class PhyloTable {
    const states: array<State>
    const pids: array<int>
    var count: nat

    ghost predicate Valid()
      reads this
    {
      states.Length == MAX_DINER && pids.Length == MAX_DINER && states as object != pids && count <= MAX_DINER
    }

    ghost function View(): (t: Table)
      requires Valid()
      reads this, states
      ensures ValidTable(t)
    {
      Table(states[..], count)
    }

    /** What phylo_main does before the first philosopher joins. */
    constructor ()
      ensures Valid() && View() == Table(seq(MAX_DINER, _ => Absent), 0) && fresh(states) && fresh(pids)
      ensures forall p <- pids[..] :: p == NO_PID
    {
      states := new State[MAX_DINER](_ => Absent);
      pids := new int[MAX_DINER](_ => NO_PID);
      count := 0;
    }

    /** The body of take_forks between its wait and its post on the global semaphore. */
    method TakeForks(idx: nat) returns (post: bool)
      requires Valid() && idx < count
      modifies states
      ensures (View(), post) == Take(old(View()), idx)
    {
      NeighbourFormulas(idx, count);
      states[idx] := Waiting;
      var left, right := (idx + count - 1) % count, (idx + 1) % count;
      post := false;
      if states[left] != Eating && states[right] != Eating {
        states[idx] := Eating;
        post := true;
      }
    }

    /** The body of leave_forks between its wait and its last post on the global semaphore. */
    method LeaveForks(idx: nat) returns (postLeft: bool, postRight: bool)
      requires Valid() && idx < count
      modifies states
      ensures postLeft == LeaveLeft(old(View()), idx).1
      ensures (View(), postRight) == LeaveRight(LeaveLeft(old(View()), idx).0, idx)
    {
      NeighbourFormulas(idx, count);
      states[idx] := Thinking;
      var left, right := (idx + count - 1) % count, (idx + 1) % count;
      NeighbourFormulas(left, count);
      NeighbourFormulas(right, count);
      postLeft, postRight := false, false;
      if states[left] == Waiting && states[(left + count - 1) % count] != Eating {
        states[left] := Eating;
        postLeft := true;
      }
      assert View() == LeaveLeft(old(View()), idx).0;
      if states[right] == Waiting && states[(right + 1) % count] != Eating {
        states[right] := Eating;
        postRight := true;
      }
    }

    /** new_phylo, once its process has been created */
    method NewPhylo(pid: int)
      requires Valid() && count < MAX_DINER
      modifies this`count, pids
      ensures Valid() && View() == Join(old(View())) && pids[..] == old(pids[..])[old(count) := pid]
    {
      pids[count] := pid;
      count := count + 1;
    }

    /** The part of remove_phylo that closes the gap, after the process has been killed. */
    method RemovePhylo(idx: nat)
      requires Valid() && idx < count
      modifies this`count, states, pids
      ensures Valid() && View() == Depart(old(View()), idx)
      ensures pids[..] == CloseUp(old(pids[..]), idx, old(count), NO_PID)
    {
      hide Shifted, CloseUp;
      ghost var s, p := states[..], pids[..];
      var i := idx;
      NothingShifted(s, idx);
      NothingShifted(p, idx);
      while i < count - 1
        invariant idx <= i <= count - 1 && count == old(count)
        invariant states[..] == Shifted(s, idx, i) && pids[..] == Shifted(p, idx, i)
      {
        ShiftedNext(s, idx, i);
        ShiftedNext(p, idx, i);
        pids[i] := pids[i + 1];
        states[i] := states[i + 1];
        assert pids[..] == Shifted(p, idx, i)[i := Shifted(p, idx, i)[i + 1]];
        assert states[..] == Shifted(s, idx, i)[i := Shifted(s, idx, i)[i + 1]];
        i := i + 1;
      }
      pids[count - 1] := NO_PID;
      states[count - 1] := Absent;
      ShiftedIsClosed(s, idx, count, Absent);
      ShiftedIsClosed(p, idx, count, NO_PID);
      assert states[..] == Shifted(s, idx, i)[count - 1 := Absent];
      assert pids[..] == Shifted(p, idx, i)[count - 1 := NO_PID];
      count := count - 1;
    }
  }

  /** The places from idx up to i hold what the next ones held. */
  ghost function Shifted<T>(s: seq<T>, idx: nat, i: nat): (r: seq<T>)
    requires idx <= i < |s|
    ensures |r| == |s| && forall k | 0 <= k < |r| :: r[k] == if idx <= k < i then s[k + 1] else s[k]
  {
    s[..idx] + s[idx + 1..i + 1] + s[i..]
  }

  lemma NothingShifted<T>(s: seq<T>, idx: nat)
    requires idx < |s|
    ensures Shifted(s, idx, idx) == s
  {
  }

  lemma ShiftedNext<T>(s: seq<T>, idx: nat, i: nat)
    requires idx <= i && i + 1 < |s|
    ensures Shifted(s, idx, i + 1) == Shifted(s, idx, i)[i := Shifted(s, idx, i)[i + 1]]
  {
  }

  lemma ShiftedIsClosed<T>(s: seq<T>, idx: nat, n: nat, hole: T)
    requires idx < n <= |s|
    ensures Shifted(s, idx, n - 1)[n - 1 := hole] == CloseUp(s, idx, n, hole)
  {
  }
}
