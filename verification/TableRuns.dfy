/**
 Runs of the dining philosophers from the empty table on: one that leaves a philosopher
 waiting for nobody, and one in which two neighbours eat, because the pid of a removed
 philosopher is given to a new one before a tick has cleared the sleep list.
 */
module TableRuns {
  import opened Circle
  import opened DiningTable
  import opened Philosophers
  import opened Semaphores
  import SleepQueue

  const SHUT := Sem(CLOSED, [])
  const EMPTY := Sem(0, [])

  function Row<T>(a: seq<T>, hole: T): (r: seq<T>)
    requires |a| <= MAX_DINER
    ensures |r| == MAX_DINER && forall i | 0 <= i < MAX_DINER :: r[i] == if i < |a| then a[i] else hole
  {
    a + seq(MAX_DINER - |a|, _ => hole)
  }

  lemma RowSet<T>(a: seq<T>, hole: T, i: nat, x: T)
    requires |a| <= MAX_DINER && i < MAX_DINER && i <= |a|
    ensures Row(a, hole)[i := x] == Row(if i < |a| then a[i := x] else a + [x], hole)
  {
  }

  lemma RowAt<T>(a: seq<T>, hole: T, i: nat)
    requires i < |a| <= MAX_DINER
    ensures Row(a, hole)[i] == a[i]
  {
  }

  /** A table at which nobody is queued for the global semaphore: places, states and semaphores of those who sit. */
  datatype Calm = Calm(m: int, pcs: seq<Pc>, a: seq<State>, f: seq<Sem>, n: nat, main: MainPc, owner: Owner,
                       q: seq<SleepQueue.Entry>, now: int)

  predicate Fair(c: Calm) {
    && |c.a| <= MAX_DINER && |c.f| <= MAX_DINER && c.n <= |c.pcs| <= MAX_DINER && c.n <= |c.a| && |c.pcs| <= |c.f|
    && 1 <= c.m && c.m + |c.pcs| <= MAX_PROCESSES
  }

  /** Philosophers have the pids after main's. */
  function Sit(c: Calm): Sys
    requires Fair(c)
  {
    Sys(Table(Row(c.a, Absent), c.n), Sem(if c.owner == Nobody then 1 else 0, []), Row(c.f, SHUT),
        seq(|c.pcs|, i requires 0 <= i < |c.pcs| => Phil(c.m + 1 + i, c.pcs[i])), c.m, c.main, c.owner, false, c.q, c.now)
  }

  function Put(c: Calm, i: nat, pc: Pc): Calm
    requires i < |c.pcs|
  {
    c.(pcs := c.pcs[i := pc])
  }

  lemma PutIs(c: Calm, i: nat, pc: Pc)
    requires Fair(c) && i < |c.pcs|
    ensures Fair(Put(c, i, pc)) && Goto(Sit(c), i, pc) == Sit(Put(c, i, pc))
  {
    assert Goto(Sit(c), i, pc).phils == Sit(Put(c, i, pc)).phils;
  }

  lemma AliveIs(c: Calm)
    requires Fair(c)
    ensures forall p :: p in Alive(Sit(c)) <==> c.m <= p <= c.m + |c.pcs|
  {
    forall p ensures p in Alive(Sit(c)) <==> c.m <= p <= c.m + |c.pcs| {
      if c.m < p <= c.m + |c.pcs| { assert Sit(c).phils[p - c.m - 1].pid == p; }
    }
  }

  lemma PidsFair(c: Calm)
    requires Fair(c)
    ensures Pids(Sit(c))
  {
  }

  /** One event leads from s to t. */
  ghost predicate Does(prudent: bool, s: Sys, e: Philosophers.Event, t: Sys) {
    && Sound(s) && Enabled(s, e) && (e.PhilActs? && Inside(s.phils[e.i].pc) ==> e.i < s.table.count)
    && (prudent ==> Prudent(s, e)) && t == Next(s, e)
  }

  lemma {:induction false} More(prudent: bool, s: Sys, es: seq<Philosophers.Event>, t: Sys, e: Philosophers.Event, u: Sys)
    returns (fs: seq<Philosophers.Event>)
    requires Reaches(prudent, s, es, t) && Does(prudent, t, e, u)
    ensures fs == es + [e] && Reaches(prudent, s, fs, u)
    decreases |es|
  {
    hide Next, Prudent;
    fs := es + [e];
    if es == [] {
      assert [e][1..] == [];
    } else {
      assert fs[1..] == es[1..] + [e];
      var _ := More(prudent, Next(s, es[0]), es[1..], t, e, u);
    }
  }

  // ----- steps of a philosopher -----

  lemma Sleeps(prudent: bool, c: Calm, i: nat, asleep: Pc) returns (d: Calm)
    requires Fair(c) && i < |c.pcs| && ((c.pcs[i] == Rests && asleep == Dozes) || (c.pcs[i] == Eats && asleep == Savours))
    ensures d == Put(c, i, asleep).(q := SleepQueue.Add(c.q, SleepQueue.Entry(c.m + 1 + i, c.now + TICKS_RESTING)))
    ensures Fair(d) && Does(prudent, Sit(c), PhilActs(i), Sit(d))
  {
    hide Row;
    var b := c.(q := SleepQueue.Add(c.q, SleepQueue.Entry(c.m + 1 + i, c.now + TICKS_RESTING)));
    d := Put(b, i, asleep);
    PutIs(b, i, asleep);
  }

  lemma Knocks(prudent: bool, c: Calm, i: nat) returns (d: Calm)
    requires Fair(c) && i < |c.pcs| && c.pcs[i] == Hungry && c.owner == Nobody
    ensures d == Put(c, i, TakeIn).(owner := PhilOwns(i)) && Fair(d) && Does(prudent, Sit(c), PhilActs(i), Sit(d))
  {
    hide Row;
    var b := c.(owner := PhilOwns(i));
    d := Put(b, i, TakeIn);
    PutIs(b, i, TakeIn);
  }

  lemma RowTakes(a: seq<State>, n: nat, i: nat)
    requires i < n == |a| <= MAX_DINER && Pred(i, n) != i && Succ(i, n) != i
    ensures var b := Row(a, Absent)[i := Waiting];
            && b[Pred(i, n)] == a[Pred(i, n)] && b[Succ(i, n)] == a[Succ(i, n)]
            && b == Row(a[i := Waiting], Absent) && b[i := Eating] == Row(a[i := Eating], Absent)
  {
    hide Row;
    RowSet(a, Absent, i, Waiting);
    RowSet(a[i := Waiting], Absent, i, Eating);
    assert a[i := Waiting][i := Eating] == a[i := Eating];
    RowAt(a[i := Waiting], Absent, Pred(i, n));
    RowAt(a[i := Waiting], Absent, Succ(i, n));
  }

  lemma Takes(prudent: bool, c: Calm, i: nat, next: Pc) returns (d: Calm)
    requires Fair(c) && i < c.n && |c.a| == c.n && c.pcs[i] == TakeIn
    requires next == if c.a[Pred(i, c.n)] != Eating && c.a[Succ(i, c.n)] != Eating then TakePostFork else TakePostGlobal
    requires Pred(i, c.n) != i && Succ(i, c.n) != i
    ensures d == Put(c, i, next).(a := c.a[i := if next == TakePostFork then Eating else Waiting])
    ensures Fair(d) && Does(prudent, Sit(c), PhilActs(i), Sit(d))
  {
    hide Row;
    var b := c.(a := c.a[i := if next == TakePostFork then Eating else Waiting]);
    d := Put(b, i, next);
    PutIs(b, i, next);
    RowTakes(c.a, c.n, i);
  }

  lemma PostsFork(prudent: bool, c: Calm, i: nat) returns (d: Calm)
    requires Fair(c) && i < c.n && c.pcs[i] == TakePostFork && c.f[i] == EMPTY
    ensures d == Put(c, i, TakePostGlobal).(f := c.f[i := Sem(1, [])])
    ensures Fair(d) && Does(prudent, Sit(c), PhilActs(i), Sit(d))
  {
    hide Row, Wake, Alive;
    PutIs(c, i, TakePostGlobal);
    RowAt(c.f, SHUT, i);
    RowSet(c.f, SHUT, i, Sem(1, []));
    d := Put(c, i, TakePostGlobal).(f := c.f[i := Sem(1, [])]);
  }

  lemma Posting(c: Calm)
    requires Fair(c) && c.owner != Nobody
    ensures PostGlobal(Sit(c)) == Sit(c.(owner := Nobody))
  {
    hide Sit, Wake, Alive, Post;
    PostedFree(Alive(Sit(c)));
    SitFree(c);
  }

  lemma SitFree(c: Calm)
    requires Fair(c) && c.owner != Nobody
    ensures Sit(c).global == EMPTY && Sit(c.(owner := Nobody)) == Sit(c).(global := Sem(1, []), owner := Nobody)
  {
    hide Row;
    assert Sit(c.(owner := Nobody)).phils == Sit(c).phils;
  }

  lemma PostedFree(alive: set<int>)
    ensures Post(EMPTY, alive) == (Sem(1, []), Counted)
  {
  }

  lemma PostsGlobal(prudent: bool, c: Calm, i: nat) returns (d: Calm)
    requires Fair(c) && i < c.n && c.pcs[i] == TakePostGlobal && c.owner != Nobody
    ensures d == Put(c, i, WantsFork).(owner := Nobody) && Fair(d) && Does(prudent, Sit(c), PhilActs(i), Sit(d))
  {
    hide Row, PostGlobal;
    PutIs(c, i, WantsFork);
    Posting(Put(c, i, WantsFork));
    d := Put(c, i, WantsFork).(owner := Nobody);
  }

  lemma WaitsFork(prudent: bool, c: Calm, i: nat) returns (d: Calm)
    requires Fair(c) && i < |c.pcs| && c.pcs[i] == WantsFork && (c.f[i] == EMPTY || c.f[i] == Sem(1, []))
    ensures d == if c.f[i] == EMPTY then Put(c, i, ForkQueued).(f := c.f[i := Sem(0, [c.m + 1 + i])])
                 else Put(c, i, Eats).(f := c.f[i := EMPTY])
    ensures Fair(d) && Does(prudent, Sit(c), PhilActs(i), Sit(d))
  {
    hide Row;
    RowAt(c.f, SHUT, i);
    var (g, pc) := if c.f[i] == EMPTY then (Sem(0, [c.m + 1 + i]), ForkQueued) else (EMPTY, Eats);
    assert Wait(EMPTY, c.m + 1 + i).0.queue == [c.m + 1 + i];
    RowSet(c.f, SHUT, i, g);
    PutIs(c.(f := c.f[i := g]), i, pc);
    d := Put(c.(f := c.f[i := g]), i, pc);
  }

  // ----- steps of main -----

  lemma MainKnocks(prudent: bool, c: Calm, e: Command, inside: MainPc) returns (d: Calm)
    requires Fair(c) && c.owner == Nobody
    requires || (c.main == AtPrompt && e.Add? && c.n < MAX_DINER && inside == JoinIn)
             || (c.main == AtPrompt && e.Remove? && c.n > MIN_DINER && inside == RemoveIn)
             || (c.main == RemoveBack && inside == CheckIn)
    ensures d == c.(main := inside, owner := MainOwns) && Fair(d) && Does(prudent, Sit(c), MainActs(e), Sit(d))
  {
    hide Row;
    d := c.(main := inside, owner := MainOwns);
  }

  lemma MainPosts(prudent: bool, c: Calm, next: MainPc) returns (d: Calm)
    requires Fair(c) && c.owner != Nobody
    requires ((c.main == JoinPost || c.main == RemovePost) && next == AtPrompt) || (c.main == RemoveIn && next == RemoveAway)
    ensures d == c.(main := next, owner := Nobody) && Fair(d) && Does(prudent, Sit(c), MainActs(Look), Sit(d))
  {
    hide Row, PostGlobal;
    Posting(c.(main := next));
    d := c.(main := next, owner := Nobody);
  }

  lemma MainSleeping(prudent: bool, c: Calm) returns (d: Calm)
    requires Fair(c) && c.main == RemoveAway
    ensures d == c.(main := RemoveAsleep, q := SleepQueue.Add(c.q, SleepQueue.Entry(c.m, c.now + TICKS_REMOVING)))
    ensures Fair(d) && Does(prudent, Sit(c), MainActs(Look), Sit(d))
  {
    hide Row;
    d := c.(main := RemoveAsleep, q := SleepQueue.Add(c.q, SleepQueue.Entry(c.m, c.now + TICKS_REMOVING)));
  }

  lemma Creates(prudent: bool, c: Calm) returns (d: Calm)
    requires Fair(c) && c.main == JoinIn && |c.pcs| == |c.f| == c.n < MAX_DINER && c.m + 1 + c.n <= MAX_PROCESSES
    requires prudent ==> !SleepQueue.Has(c.q, c.m + 1 + c.n)
    ensures d == c.(pcs := c.pcs + [Fresh], f := c.f + [EMPTY], main := JoinCount)
    ensures Fair(d) && Does(prudent, Sit(c), MainActs(Add(c.m + 1 + c.n)), Sit(d))
  {
    d := c.(pcs := c.pcs + [Fresh], f := c.f + [EMPTY], main := JoinCount);
    AliveIs(c);
    RowSet(c.f, SHUT, c.n, EMPTY);
    assert Sit(c).phils + [Phil(c.m + 1 + c.n, Fresh)] == Sit(d).phils;
    assert Row(c.f, SHUT)[c.n] == SHUT;
  }

  lemma Counts(prudent: bool, c: Calm) returns (d: Calm)
    requires Fair(c) && c.main == JoinCount && |c.pcs| == c.n + 1 && |c.a| == c.n
    ensures d == c.(a := c.a + [Absent], n := c.n + 1, main := JoinPost)
    ensures Fair(d) && Does(prudent, Sit(c), MainActs(Look), Sit(d))
  {
    d := c.(a := c.a + [Absent], n := c.n + 1, main := JoinPost);
    assert Row(c.a, Absent) == Row(c.a + [Absent], Absent);
  }

  lemma SitsDown(prudent: bool, c: Calm, i: nat) returns (d: Calm)
    requires Fair(c) && i < |c.pcs| && i < |c.a| && c.pcs[i] == Fresh
    ensures d == Put(c, i, Rests).(a := c.a[i := Thinking]) && Fair(d) && Does(prudent, Sit(c), PhilActs(i), Sit(d))
  {
    hide Row;
    RowSet(c.a, Absent, i, Thinking);
    PutIs(c.(a := c.a[i := Thinking]), i, Rests);
    d := Put(c.(a := c.a[i := Thinking]), i, Rests);
  }

  lemma Departs(prudent: bool, c: Calm) returns (d: Calm)
    requires Fair(c) && c.main == CheckIn && 0 < c.n == |c.pcs| == |c.a| == |c.f| && c.f[c.n - 1].value != CLOSED
    requires !(c.a[Pred(c.n - 1, c.n)] == Eating && c.a[Succ(c.n - 1, c.n)] == Eating)
    ensures var k := c.n - 1; d == c.(pcs := c.pcs[..k], a := c.a[..k], f := c.f[..k], n := k, main := RemovePost)
    ensures Fair(d) && Does(prudent, Sit(c), MainActs(Look), Sit(d))
  {
    hide Alive;
    var k := c.n - 1;
    d := c.(pcs := c.pcs[..k], a := c.a[..k], f := c.f[..k], n := k, main := RemovePost);
    assert CloseUp(Row(c.a, Absent), k, c.n, Absent) == Row(c.a[..k], Absent);
    assert Sit(c).phils[..k] == Sit(d).phils;
    assert Row(c.f, SHUT)[k := SHUT] == Row(c.f[..k], SHUT);
  }

  // ----- ticks -----

  /** The table after the processes with these pids have been woken. */
  function Roused(c: Calm, woken: seq<int>): Calm {
    c.(pcs := seq(|c.pcs|, i requires 0 <= i < |c.pcs| => if c.m + 1 + i in woken then Woken(c.pcs[i]) else c.pcs[i]),
       main := if c.m in woken then WokenMain(c.main) else c.main)
  }

  lemma Ticks(prudent: bool, c: Calm, rest: seq<SleepQueue.Entry>, woken: seq<int>) returns (d: Calm)
    requires Fair(c) && SleepQueue.Sweep(c.q, Alive(Sit(c)), c.now + 1) == (rest, woken)
    ensures d == Roused(c, woken).(q := rest, now := c.now + 1) && Fair(d) && Does(prudent, Sit(c), Tick, Sit(d))
  {
    hide Row, Alive, Wake;
    var b := c.(q := rest, now := c.now + 1);
    d := Roused(c, woken).(q := rest, now := c.now + 1);
    PidsFair(b);
    WakeAllForm(Sit(b), woken);
    assert Sit(d).phils == WakeAll(Sit(b), woken).phils;
  }

  // ----- stretches of a run -----

  lemma Joins(prudent: bool, s: Sys, es: seq<Philosophers.Event>, c: Calm) returns (fs: seq<Philosophers.Event>, d: Calm)
    requires Fair(c) && Reaches(prudent, s, es, Sit(c)) && c.main == AtPrompt && c.owner == Nobody
    requires |c.pcs| == |c.a| == |c.f| == c.n < MAX_DINER && c.m + 1 + c.n <= MAX_PROCESSES
    requires prudent ==> !SleepQueue.Has(c.q, c.m + 1 + c.n)
    ensures d == c.(pcs := c.pcs + [Rests], a := c.a + [Thinking], f := c.f + [EMPTY], n := c.n + 1)
    ensures Fair(d) && Reaches(prudent, s, fs, Sit(d))
  {
    hide Reaches, Does, Sit;
    var i := c.n;
    var d1 := MainKnocks(prudent, c, Add(0), JoinIn);
    fs := More(prudent, s, es, Sit(c), MainActs(Add(0)), Sit(d1));
    var d2 := Creates(prudent, d1);
    fs := More(prudent, s, fs, Sit(d1), MainActs(Add(c.m + 1 + i)), Sit(d2));
    var d3 := Counts(prudent, d2);
    fs := More(prudent, s, fs, Sit(d2), MainActs(Look), Sit(d3));
    var d4 := MainPosts(prudent, d3, AtPrompt);
    fs := More(prudent, s, fs, Sit(d3), MainActs(Look), Sit(d4));
    d := SitsDown(prudent, d4, i);
    fs := More(prudent, s, fs, Sit(d4), PhilActs(i), Sit(d));
    assert (c.pcs + [Fresh])[i := Rests] == c.pcs + [Rests];
    assert (c.a + [Absent])[i := Thinking] == c.a + [Thinking];
  }

  lemma SleepsNow(prudent: bool, s: Sys, es: seq<Philosophers.Event>, c: Calm, i: nat)
    returns (fs: seq<Philosophers.Event>, d: Calm)
    requires Fair(c) && Reaches(prudent, s, es, Sit(c)) && i < |c.pcs| && c.pcs[i] == Rests
    ensures d == Put(c, i, Dozes).(q := SleepQueue.Add(c.q, SleepQueue.Entry(c.m + 1 + i, c.now + TICKS_RESTING)))
    ensures Fair(d) && Reaches(prudent, s, fs, Sit(d))
  {
    hide Reaches, Does, Sit;
    d := Sleeps(prudent, c, i, Dozes);
    fs := More(prudent, s, es, Sit(c), PhilActs(i), Sit(d));
  }

  /** A philosopher whose neighbours do not eat takes the forks. */
  lemma GetsToEat(prudent: bool, s: Sys, es: seq<Philosophers.Event>, c: Calm, i: nat)
    returns (fs: seq<Philosophers.Event>, d: Calm)
    requires Fair(c) && Reaches(prudent, s, es, Sit(c)) && c.owner == Nobody && |c.a| == c.n > 2 && i < c.n
    requires c.pcs[i] == Hungry && c.f[i] == EMPTY && c.a[Pred(i, c.n)] != Eating && c.a[Succ(i, c.n)] != Eating
    ensures d == Put(c, i, Eats).(a := c.a[i := Eating]) && Fair(d) && Reaches(prudent, s, fs, Sit(d))
  {
    hide Reaches, Does, Sit;
    var d1 := Knocks(prudent, c, i);
    fs := More(prudent, s, es, Sit(c), PhilActs(i), Sit(d1));
    var d2 := Takes(prudent, d1, i, TakePostFork);
    fs := More(prudent, s, fs, Sit(d1), PhilActs(i), Sit(d2));
    var d3 := PostsFork(prudent, d2, i);
    fs := More(prudent, s, fs, Sit(d2), PhilActs(i), Sit(d3));
    var d4 := PostsGlobal(prudent, d3, i);
    fs := More(prudent, s, fs, Sit(d3), PhilActs(i), Sit(d4));
    d := WaitsFork(prudent, d4, i);
    fs := More(prudent, s, fs, Sit(d4), PhilActs(i), Sit(d));
    assert c.f[i := Sem(1, [])][i := EMPTY] == c.f;
    assert d.pcs == c.pcs[i := Eats];
  }

  /** One with a neighbour that eats comes to wait for it. */
  lemma ComesToWait(prudent: bool, s: Sys, es: seq<Philosophers.Event>, c: Calm, i: nat)
    returns (fs: seq<Philosophers.Event>, d: Calm)
    requires Fair(c) && Reaches(prudent, s, es, Sit(c)) && c.owner == Nobody && |c.a| == c.n > 2 && i < c.n
    requires c.pcs[i] == Hungry && !(c.a[Pred(i, c.n)] != Eating && c.a[Succ(i, c.n)] != Eating)
    ensures d == Put(c, i, WantsFork).(a := c.a[i := Waiting]) && Fair(d) && Reaches(prudent, s, fs, Sit(d))
  {
    hide Reaches, Does, Sit;
    var d1 := Knocks(prudent, c, i);
    fs := More(prudent, s, es, Sit(c), PhilActs(i), Sit(d1));
    var d2 := Takes(prudent, d1, i, TakePostGlobal);
    fs := More(prudent, s, fs, Sit(d1), PhilActs(i), Sit(d2));
    d := PostsGlobal(prudent, d2, i);
    fs := More(prudent, s, fs, Sit(d2), PhilActs(i), Sit(d));
    assert d.pcs == c.pcs[i := WantsFork];
  }

  lemma Blocks(prudent: bool, s: Sys, es: seq<Philosophers.Event>, c: Calm, i: nat)
    returns (fs: seq<Philosophers.Event>, d: Calm)
    requires Fair(c) && Reaches(prudent, s, es, Sit(c)) && i < |c.pcs| && c.pcs[i] == WantsFork && c.f[i] == EMPTY
    ensures d == Put(c, i, ForkQueued).(f := c.f[i := Sem(0, [c.m + 1 + i])]) && Fair(d) && Reaches(prudent, s, fs, Sit(d))
  {
    hide Reaches, Does, Sit;
    d := WaitsFork(prudent, c, i);
    fs := More(prudent, s, es, Sit(c), PhilActs(i), Sit(d));
  }

  /** The sleepers are at the table or at its prompt, and due later than the given tick. */
  predicate DueLater(c: Calm, tick: int) {
    forall i | 0 <= i < |c.q| :: c.m <= c.q[i].pid <= c.m + |c.pcs| && c.q[i].wake > tick
  }

  lemma TicksNow(prudent: bool, s: Sys, es: seq<Philosophers.Event>, c: Calm, rest: seq<SleepQueue.Entry>, woken: seq<int>)
    returns (fs: seq<Philosophers.Event>, d: Calm)
    requires Fair(c) && Reaches(prudent, s, es, Sit(c))
    requires SleepQueue.Sweep(c.q, Alive(Sit(c)), c.now + 1) == (rest, woken)
    ensures d == Roused(c, woken).(q := rest, now := c.now + 1) && Fair(d) && Reaches(prudent, s, fs, Sit(d))
  {
    hide Reaches, Does, Sit, Roused;
    d := Ticks(prudent, c, rest, woken);
    fs := More(prudent, s, es, Sit(c), Tick, Sit(d));
  }

  lemma {:induction false} QuietTicks(prudent: bool, s: Sys, es: seq<Philosophers.Event>, c: Calm, k: nat)
    returns (fs: seq<Philosophers.Event>, d: Calm)
    requires Fair(c) && Reaches(prudent, s, es, Sit(c)) && DueLater(c, c.now + k)
    ensures d == c.(now := c.now + k) && Fair(d) && Reaches(prudent, s, fs, Sit(d))
    decreases k
  {
    hide Reaches, Does, Sit, Alive;
    if k == 0 {
      fs, d := es, c;
    } else {
      AliveIs(c);
      SleepQueue.NoneExpired(c.q, Alive(Sit(c)), c.now + 1);
      fs, d := TicksNow(prudent, s, es, c, c.q, []);
      assert d == c.(now := c.now + 1) by { assert d.pcs == c.pcs; }
      fs, d := QuietTicks(prudent, s, fs, d, k - 1);
    }
  }

  lemma AddFirst(q: seq<SleepQueue.Entry>, e: SleepQueue.Entry)
    requires q != [] ==> q[0].wake > e.wake
    ensures SleepQueue.Add(q, e) == [e] + q
  {
  }

  lemma FirstIsDue(e: SleepQueue.Entry, q: seq<SleepQueue.Entry>, alive: set<int>, now: int)
    requires e.pid in alive && e.wake <= now && forall i | 0 <= i < |q| :: q[i].pid in alive && q[i].wake > now
    ensures SleepQueue.Sweep([e] + q, alive, now) == (q, [e.pid])
  {
    hide SleepQueue.Sweep;
    SleepQueue.SweepOne(e, alive, now);
    SleepQueue.NoneExpired(q, alive, now);
    SleepQueue.SweepAppend([e], q, alive, now);
    assert [] + q == q && [e.pid] + [] == [e.pid];
  }

  /** When nobody else is due, the next tick wakes main alone. */
  lemma MainIsFirst(c: Calm, q: seq<SleepQueue.Entry>)
    requires Fair(c) && DueLater(c, c.now + 1)
    requires q == SleepQueue.Add(c.q, SleepQueue.Entry(c.m, c.now + TICKS_REMOVING))
    ensures SleepQueue.Sweep(q, Alive(Sit(c)), c.now + 1) == (c.q, [c.m])
  {
    hide Sit, Alive, SleepQueue.Sweep, SleepQueue.Add;
    AliveIs(c);
    var e := SleepQueue.Entry(c.m, c.now + TICKS_REMOVING);
    AddFirst(c.q, e);
    FirstIsDue(e, c.q, Alive(Sit(c)), c.now + 1);
  }

  lemma OnlyMainRoused(c: Calm)
    ensures Roused(c, [c.m]) == c.(main := WokenMain(c.main))
  {
    assert Roused(c, [c.m]).pcs == c.pcs;
  }

  /** main removes the last philosopher. */
  lemma Removes(prudent: bool, s: Sys, es: seq<Philosophers.Event>, c: Calm)
    returns (fs: seq<Philosophers.Event>, d: Calm)
    requires Fair(c) && Reaches(prudent, s, es, Sit(c)) && c.main == AtPrompt && c.owner == Nobody
    requires MIN_DINER < c.n == |c.pcs| == |c.a| == |c.f| && c.f[c.n - 1].value != CLOSED && DueLater(c, c.now + 1)
    requires !(c.a[Pred(c.n - 1, c.n)] == Eating && c.a[Succ(c.n - 1, c.n)] == Eating)
    ensures var k := c.n - 1; d == c.(pcs := c.pcs[..k], a := c.a[..k], f := c.f[..k], n := k, now := c.now + 1)
    ensures Fair(d) && Reaches(prudent, s, fs, Sit(d))
  {
    hide Reaches, Does, Sit, Alive, SleepQueue.Sweep, SleepQueue.Add, Roused;
    var d1 := MainKnocks(prudent, c, Remove, RemoveIn);
    fs := More(prudent, s, es, Sit(c), MainActs(Remove), Sit(d1));
    var d2 := MainPosts(prudent, d1, RemoveAway);
    fs := More(prudent, s, fs, Sit(d1), MainActs(Look), Sit(d2));
    var d3 := MainSleeping(prudent, d2);
    fs := More(prudent, s, fs, Sit(d2), MainActs(Look), Sit(d3));
    MainIsFirst(c, d3.q);
    SameAlive(c, d3);
    var d4;
    fs, d4 := TicksNow(prudent, s, fs, d3, c.q, [c.m]);
    OnlyMainRoused(d3);
    var d5 := MainKnocks(prudent, d4, Look, CheckIn);
    fs := More(prudent, s, fs, Sit(d4), MainActs(Look), Sit(d5));
    var d6 := Departs(prudent, d5);
    fs := More(prudent, s, fs, Sit(d5), MainActs(Look), Sit(d6));
    d := MainPosts(prudent, d6, AtPrompt);
    fs := More(prudent, s, fs, Sit(d6), MainActs(Look), Sit(d));
  }

  lemma SameAlive(c: Calm, d: Calm)
    requires Fair(c) && Fair(d) && c.m == d.m && |c.pcs| == |d.pcs|
    ensures Alive(Sit(c)) == Alive(Sit(d))
  {
    AliveIs(c);
    AliveIs(d);
  }

  /** The table when the first philosophers sit down. */
  lemma FourJoin(prudent: bool, m: int) returns (es: seq<Philosophers.Event>, c: Calm)
    requires 1 <= m && m + 4 <= MAX_PROCESSES
    ensures c == Calm(m, [Rests, Rests, Rests, Rests], [Thinking, Thinking, Thinking, Thinking],
                      [EMPTY, EMPTY, EMPTY, EMPTY], 4, AtPrompt, Nobody, [], 0)
    ensures Fair(c) && Reaches(prudent, Philosophers.Start(m), es, Sit(c))
  {
    hide Reaches, Does, Sit, Philosophers.Start;
    var s := Philosophers.Start(m);
    c := Calm(m, [], [], [], 0, AtPrompt, Nobody, [], 0);
    StartIsEmpty(prudent, m, c);
    es, c := Joins(prudent, s, [], c);
    es, c := Joins(prudent, s, es, c);
    es, c := Joins(prudent, s, es, c);
    es, c := Joins(prudent, s, es, c);
  }

  lemma StartIsEmpty(prudent: bool, m: int, c: Calm)
    requires 1 <= m <= MAX_PROCESSES && c == Calm(m, [], [], [], 0, AtPrompt, Nobody, [], 0)
    ensures Fair(c) && Reaches(prudent, Philosophers.Start(m), [], Sit(c))
  {
    var s := Philosophers.Start(m);
    assert s.phils == Sit(c).phils && s.forks == Sit(c).forks && s.table.states == Sit(c).table.states;
  }

  // ----- the two runs -----

  /** The first and the last of four wake up together. */
  lemma TwoHungry(m: int) returns (es: seq<Philosophers.Event>, c: Calm)
    requires 1 <= m && m + 4 <= MAX_PROCESSES
    ensures c == Calm(m, [Hungry, Rests, Rests, Hungry], [Thinking, Thinking, Thinking, Thinking],
                      [EMPTY, EMPTY, EMPTY, EMPTY], 4, AtPrompt, Nobody, [], 20)
    ensures Fair(c) && Reaches(true, Philosophers.Start(m), es, Sit(c))
  {
    hide Reaches, Does, Sit, Philosophers.Start, Alive, Row, SleepQueue.Sweep;
    var s := Philosophers.Start(m);
    es, c := FourJoin(true, m);
    es, c := SleepsNow(true, s, es, c, 3);
    es, c := SleepsNow(true, s, es, c, 0);
    assert c.q == [SleepQueue.Entry(m + 4, 20), SleepQueue.Entry(m + 1, 20)];
    es, c := QuietTicks(true, s, es, c, 19);
    AliveIs(c);
    SleepQueue.AllExpired(c.q, Alive(Sit(c)), 20);
    assert SleepQueue.Pids(c.q) == [m + 4, m + 1];
    es, c := TicksNow(true, s, es, c, [], [m + 4, m + 1]);
    assert c.pcs == [Hungry, Rests, Rests, Hungry];
  }

  /**
   A philosopher can be left behind, also when no pid is reused: the last of four is
   removed while it eats, and the first is blocked and waiting, with nobody inside and
   both its neighbours thinking.
   */
  lemma LeftBehind(m: int) returns (es: seq<Philosophers.Event>, t: Sys)
    requires 1 <= m && m + 4 <= MAX_PROCESSES
    ensures Reaches(true, Philosophers.Start(m), es, t) && ValidTable(t.table) && t.table.count == |t.phils| == 3
    ensures t.phils[0].pc == ForkQueued && t.table.states[0] == Waiting && t.owner == Nobody && !FedAt(t.table, 0)
  {
    hide Reaches, Does, Sit, Philosophers.Start, Alive, Row, SleepQueue.Sweep;
    var s := Philosophers.Start(m);
    var d;
    es, d := TwoHungry(m);
    es, d := GetsToEat(true, s, es, d, 3);
    es, d := ComesToWait(true, s, es, d, 0);
    es, d := Removes(true, s, es, d);
    es, d := Blocks(true, s, es, d, 0);
    t := Sit(d);
    EndOfRun(d);
  }

  lemma EndOfRun(d: Calm)
    requires Fair(d) && d.n == |d.a| == |d.pcs| == 3 && d.a == [Waiting, Thinking, Thinking] && d.pcs[0] == ForkQueued
    ensures var t := Sit(d);
            && ValidTable(t.table) && t.table.count == |t.phils| == 3 && t.phils[0].pc == ForkQueued
            && t.table.states[0] == Waiting && t.owner == d.owner && !FedAt(t.table, 0)
  {
  }

  function Held(m: int): seq<SleepQueue.Entry> {
    [SleepQueue.Entry(m + 4, 20), SleepQueue.Entry(m + 3, 20)]
  }

  /** The third and the fourth philosopher fall asleep, and the fourth is removed. */
  lemma FourthRemoved(m: int) returns (es: seq<Philosophers.Event>, c: Calm)
    requires 1 <= m && m + 4 <= MAX_PROCESSES
    ensures c == Calm(m, [Rests, Rests, Dozes], [Thinking, Thinking, Thinking], [EMPTY, EMPTY, EMPTY], 3, AtPrompt, Nobody,
                      Held(m), 1)
    ensures Fair(c) && Reaches(false, Philosophers.Start(m), es, Sit(c))
  {
    hide Reaches, Does, Sit, Philosophers.Start, Alive, Row, SleepQueue.Sweep;
    var s := Philosophers.Start(m);
    es, c := FourJoin(false, m);
    es, c := SleepsNow(false, s, es, c, 3);
    es, c := SleepsNow(false, s, es, c, 2);
    assert c.q == Held(m);
    es, c := Removes(false, s, es, c);
    assert c.pcs == [Rests, Rests, Dozes];
  }

  /** Within the same tick a new one gets the pid and falls asleep; the entry of the dead one wakes it too early. */
  lemma WokenTooEarly(m: int) returns (es: seq<Philosophers.Event>, c: Calm)
    requires 1 <= m && m + 4 <= MAX_PROCESSES
    ensures c == Calm(m, [Rests, Rests, Hungry, Hungry], [Thinking, Thinking, Thinking, Thinking],
                      [EMPTY, EMPTY, EMPTY, EMPTY], 4, AtPrompt, Nobody, [SleepQueue.Entry(m + 4, 21)], 20)
    ensures Fair(c) && Reaches(false, Philosophers.Start(m), es, Sit(c))
  {
    hide Reaches, Does, Sit, Philosophers.Start, Alive, Row, SleepQueue.Sweep;
    var s := Philosophers.Start(m);
    es, c := FourthRemoved(m);
    es, c := Joins(false, s, es, c);
    es, c := SleepsNow(false, s, es, c, 3);
    assert c.q == Held(m) + [SleepQueue.Entry(m + 4, 21)];
    es, c := QuietTicks(false, s, es, c, 18);
    FirstTwoDue(c, Held(m)[0], Held(m)[1], SleepQueue.Entry(m + 4, 21));
    es, c := TicksNow(false, s, es, c, [SleepQueue.Entry(m + 4, 21)], [m + 4, m + 3]);
    assert c.pcs == [Rests, Rests, Hungry, Hungry];
  }

  lemma OneDue(c: Calm, e: SleepQueue.Entry, now: int)
    requires Fair(c) && c.m <= e.pid <= c.m + |c.pcs| && e.wake <= now
    ensures SleepQueue.Sweep([e], Alive(Sit(c)), now) == ([], [e.pid])
  {
    AliveIs(c);
    SleepQueue.SweepOne(e, Alive(Sit(c)), now);
  }

  /**
   Two neighbours can eat: the third and the fourth philosopher fall asleep, the fourth
   is removed, and before the next tick a new one gets its pid and falls asleep.  The
   entry of the dead one wakes it too early, it comes to wait for the third, and its own
   entry, which is left, lets it pass while the third eats.
   */
  lemma NeighboursEat(m: int) returns (es: seq<Philosophers.Event>, t: Sys)
    requires 1 <= m && m + 4 <= MAX_PROCESSES
    ensures Reaches(false, Philosophers.Start(m), es, t) && t.table.count == |t.phils| == 4
    ensures AtMeal(t.phils[2].pc) && AtMeal(t.phils[3].pc)
  {
    hide Reaches, Does, Sit, Philosophers.Start, Alive, Row, SleepQueue.Sweep;
    var s := Philosophers.Start(m);
    var c;
    es, c := WokenTooEarly(m);
    es, c := GetsToEat(false, s, es, c, 2);
    es, c := ComesToWait(false, s, es, c, 3);
    es, c := Blocks(false, s, es, c, 3);
    assert c.pcs == [Rests, Rests, Eats, ForkQueued];
    OneDue(c, SleepQueue.Entry(m + 4, 21), 21);
    es, c := TicksNow(false, s, es, c, [], [m + 4]);
    assert c.pcs == [Rests, Rests, Eats, Eats];
    t := Sit(c);
    PlacesOf(c);
  }

  lemma PlacesOf(c: Calm)
    requires Fair(c)
    ensures Sit(c).table.count == c.n && |Sit(c).phils| == |c.pcs|
    ensures forall i | 0 <= i < |c.pcs| :: Sit(c).phils[i].pc == c.pcs[i]
  {
  }

  lemma SweepThree(a: SleepQueue.Entry, b: SleepQueue.Entry, e: SleepQueue.Entry, alive: set<int>, now: int)
    requires a.pid in alive && b.pid in alive && e.pid in alive && a.wake <= now && b.wake <= now && e.wake > now
    ensures SleepQueue.Sweep([a, b, e], alive, now) == ([e], [a.pid, b.pid])
  {
    hide SleepQueue.Sweep;
    SleepQueue.SweepOne(a, alive, now);
    SleepQueue.SweepOne(b, alive, now);
    SleepQueue.SweepOne(e, alive, now);
    SleepQueue.SweepAppend([a], [b], alive, now);
    SleepQueue.SweepAppend([a] + [b], [e], alive, now);
    assert [a] + [b] + [e] == [a, b, e] && [] + [] + [e] == [e] && [a.pid] + [b.pid] + [] == [a.pid, b.pid];
  }

  lemma FirstTwoDue(c: Calm, a: SleepQueue.Entry, b: SleepQueue.Entry, e: SleepQueue.Entry)
    requires Fair(c) && |c.pcs| == 4 && c.now == 19 && c.q == [a, b, e]
    requires a.pid == e.pid == c.m + 4 && b.pid == c.m + 3 && a.wake == b.wake == 20 && e.wake == 21
    ensures SleepQueue.Sweep(c.q, Alive(Sit(c)), c.now + 1) == ([e], [a.pid, b.pid])
  {
    hide Alive, Sit, SleepQueue.Sweep;
    AliveIs(c);
    SweepThree(a, b, e, Alive(Sit(c)), 20);
  }
}
