/**
 The sleep queue: a singly linked list of sleeping processes in order of the tick
 at which they are due, emptied from the timer interrupt.
 */
module SleepQueue {
  import opened Circle

  datatype Entry = Entry(pid: int, wake: int)

  /** Where sleep_queue_add links a new entry: in front of the first one that is due later. */
  function Place(q: seq<Entry>, wake: int): (k: nat)
    ensures k <= |q|
    ensures forall i | 0 <= i < k :: q[i].wake <= wake
    ensures k < |q| ==> q[k].wake > wake
  {
    if q == [] || q[0].wake > wake then 0 else 1 + Place(q[1..], wake)
  }

  function InsertAt<T>(r: seq<T>, k: nat, y: T): (s: seq<T>)
    requires k <= |r|
    ensures |s| == |r| + 1
    ensures forall i | 0 <= i < |s| :: s[i] == if i < k then r[i] else if i == k then y else r[i - 1]
  {
    r[..k] + [y] + r[k..]
  }

  function Add(q: seq<Entry>, e: Entry): seq<Entry> {
    InsertAt(q, Place(q, e.wake), e)
  }

  /** sleep_queue_tick_handler: what stays, and the processes to wake, in order. */
  function Sweep(q: seq<Entry>, alive: set<int>, now: int): (seq<Entry>, seq<int>)
  {
    if q == [] then ([], [])
    else
      var e, (rest, woken) := q[|q| - 1], Sweep(q[..|q| - 1], alive, now);
      if e.pid !in alive then (rest, woken)
      else if e.wake <= now then (rest, woken + [e.pid])
      else (rest + [e], woken)
  }

  ghost predicate Sorted(q: seq<Entry>) {
    forall i, j | 0 <= i < j < |q| :: q[i].wake <= q[j].wake
  }

  lemma {:induction false} PlaceIsBoundary(q: seq<Entry>, wake: int)
    requires Sorted(q)
    ensures forall i | 0 <= i < |q| :: q[i].wake <= wake <==> i < Place(q, wake)
  {
  }

  /** Adding keeps the order of due ticks, and puts the newcomer behind everyone due no later. */
  lemma AddKeepsSorted(q: seq<Entry>, e: Entry)
    requires Sorted(q)
    ensures Sorted(Add(q, e)) && Add(q, e)[Place(q, e.wake)] == e
    ensures forall i | 0 <= i < |q| :: if q[i].wake <= e.wake then i < Place(q, e.wake) && Add(q, e)[i] == q[i]
                                       else i >= Place(q, e.wake) && Add(q, e)[i + 1] == q[i]
  {
    hide Sorted, Place;
    PlaceIsBoundary(q, e.wake);
    InsertSorted(q, Place(q, e.wake), e);
  }

  lemma InsertSorted(q: seq<Entry>, k: nat, e: Entry)
    requires Sorted(q) && k <= |q|
    requires forall i | 0 <= i < |q| :: q[i].wake <= e.wake <==> i < k
    ensures Sorted(InsertAt(q, k, e))
  {
    var r := InsertAt(q, k, e);
    forall i, j | 0 <= i < j < |r| ensures r[i].wake <= r[j].wake {
      var a, b := if i < k then i else i - 1, if j < k then j else j - 1;
      assert i != k ==> r[i] == q[a];
      assert j != k ==> r[j] == q[b];
    }
  }

  lemma {:induction false} SweepAppend(a: seq<Entry>, b: seq<Entry>, alive: set<int>, now: int)
    ensures Sweep(a + b, alive, now) == (Sweep(a, alive, now).0 + Sweep(b, alive, now).0, Sweep(a, alive, now).1 + Sweep(b, alive, now).1)
  {
    var (restA, wokenA) := Sweep(a, alive, now);
    if b == [] {
      assert a + b == a && restA + [] == restA && wokenA + [] == wokenA;
    } else {
      var e := b[|b| - 1];
      assert (a + b)[..|a + b| - 1] == a + b[..|b| - 1];
      SweepAppend(a, b[..|b| - 1], alive, now);
      var (restB, wokenB) := Sweep(b[..|b| - 1], alive, now);
      assert (restA + restB) + [e] == restA + (restB + [e]);
      assert (wokenA + wokenB) + [e.pid] == wokenA + (wokenB + [e.pid]);
    }
  }

  lemma {:induction false} SweepMembers(q: seq<Entry>, alive: set<int>, now: int, e: Entry)
    ensures e in Sweep(q, alive, now).0 <==> e in q && e.pid in alive && e.wake > now
    ensures e in q && e.pid in alive && e.wake <= now ==> e.pid in Sweep(q, alive, now).1
  {
    if q != [] {
      SweepMembers(q[..|q| - 1], alive, now, e);
      assert q == q[..|q| - 1] + [q[|q| - 1]];
    }
  }

  lemma {:induction false} SweepWoken(q: seq<Entry>, alive: set<int>, now: int, p: int) returns (i: nat)
    requires p in Sweep(q, alive, now).1
    ensures i < |q| && q[i].pid == p && q[i].wake <= now && p in alive
  {
    var n := |q| - 1;
    if p in Sweep(q[..n], alive, now).1 { i := SweepWoken(q[..n], alive, now, p); } else { i := n; }
  }

  /** The sweep leaves the live, unexpired entries in the order they had. */
  lemma {:induction false} SweepKeepsSorted(q: seq<Entry>, alive: set<int>, now: int)
    requires Sorted(q)
    ensures Sorted(Sweep(q, alive, now).0)
  {
    if q != [] {
      var n := |q| - 1;
      SweepKeepsSorted(q[..n], alive, now);
      var rest := Sweep(q[..n], alive, now).0;
      forall i | 0 <= i < |rest| ensures rest[i].wake <= q[n].wake {
        SweepMembers(q[..n], alive, now, rest[i]);
      }
    }
  }

  lemma {:induction false} SweepKeepsCounts(q: seq<Entry>, alive: set<int>, now: int, e: Entry)
    ensures multiset(Sweep(q, alive, now).0)[e] == if e.pid in alive && e.wake > now then multiset(q)[e] else 0
  {
    if q != [] {
      var n := |q| - 1;
      SweepKeepsCounts(q[..n], alive, now, e);
      assert q == q[..n] + [q[n]];
    }
  }

  ghost function Pids(q: seq<Entry>): (r: seq<int>)
    ensures |r| == |q| && forall i | 0 <= i < |r| :: r[i] == q[i].pid
  {
    seq(|q|, i requires 0 <= i < |q| => q[i].pid)
  }

  /** While everyone lives, the sweep wakes a prefix of the queue, so earlier deadlines first. */
  lemma {:induction false} SweepWakesAPrefix(q: seq<Entry>, alive: set<int>, now: int)
    requires Sorted(q) && forall i | 0 <= i < |q| :: q[i].pid in alive
    ensures var k := Place(q, now); Sweep(q, alive, now) == (q[k..], Pids(q[..k]))
  {
    var k := Place(q, now);
    PlaceIsBoundary(q, now);
    assert q == q[..k] + q[k..];
    AllExpired(q[..k], alive, now);
    NoneExpired(q[k..], alive, now);
    SweepAppend(q[..k], q[k..], alive, now);
    assert [] + q[k..] == q[k..] && Pids(q[..k]) + [] == Pids(q[..k]);
  }

  lemma {:induction false} AllExpired(q: seq<Entry>, alive: set<int>, now: int)
    requires forall i | 0 <= i < |q| :: q[i].pid in alive && q[i].wake <= now
    ensures Sweep(q, alive, now) == ([], Pids(q))
  {
    if q != [] {
      AllExpired(q[..|q| - 1], alive, now);
      assert Pids(q) == Pids(q[..|q| - 1]) + [q[|q| - 1].pid];
    }
  }

  lemma {:induction false} NoneExpired(q: seq<Entry>, alive: set<int>, now: int)
    requires forall i | 0 <= i < |q| :: q[i].pid in alive && q[i].wake > now
    ensures Sweep(q, alive, now) == (q, [])
  {
    if q != [] {
      NoneExpired(q[..|q| - 1], alive, now);
      assert q == q[..|q| - 1] + [q[|q| - 1]];
    }
  }

  // ----- every sleeper is woken exactly once, on time -----

  ghost predicate Has(q: seq<Entry>, p: int) {
    exists i :: 0 <= i < |q| && q[i].pid == p
  }

  ghost predicate OnlyAt(q: seq<Entry>, p: int, wake: int, k: nat) {
    k < |q| && q[k] == Entry(p, wake) && !Has(q[..k], p) && !Has(q[k + 1..], p)
  }

  /** The queue has one entry of p, due at the given tick. */
  ghost predicate Only(q: seq<Entry>, p: int, wake: int) {
    exists k: nat :: OnlyAt(q, p, wake, k)
  }

  function Times(woken: seq<int>, p: int): nat {
    if woken == [] then 0 else Times(woken[..|woken| - 1], p) + if woken[|woken| - 1] == p then 1 else 0
  }

  lemma {:induction false} TimesAppend(a: seq<int>, b: seq<int>, p: int)
    ensures Times(a + b, p) == Times(a, p) + Times(b, p)
  {
    if b == [] {
      assert a + b == a;
    } else {
      assert (a + b)[..|a + b| - 1] == a + b[..|b| - 1];
      TimesAppend(a, b[..|b| - 1], p);
    }
  }

  lemma {:induction false} SweepOther(q: seq<Entry>, p: int, alive: set<int>, now: int)
    requires !Has(q, p)
    ensures !Has(Sweep(q, alive, now).0, p) && Times(Sweep(q, alive, now).1, p) == 0
  {
    if q != [] {
      assert !Has(q[..|q| - 1], p);
      SweepOther(q[..|q| - 1], p, alive, now);
    }
  }

  lemma SweepOne(e: Entry, alive: set<int>, now: int)
    requires e.pid in alive
    ensures Sweep([e], alive, now) == if e.wake <= now then ([], [e.pid]) else ([e], [])
  {
    assert [e][..0] == [] && [] + [e] == [e] && [] + [e.pid] == [e.pid];
  }

  lemma TimesOne(x: int, p: int)
    ensures Times([x], p) == (if x == p then 1 else 0) && Times([], p) == 0
  {
    assert [x][..0] == [];
  }

  /** A queue in three parts, of which the middle one is a single live entry. */
  lemma SweepAround(a: seq<Entry>, e: Entry, b: seq<Entry>, alive: set<int>, now: int)
    requires e.pid in alive
    ensures var (restA, wokenA) := Sweep(a, alive, now); var (restB, wokenB) := Sweep(b, alive, now);
            Sweep(a + ([e] + b), alive, now) == if e.wake <= now then (restA + restB, wokenA + ([e.pid] + wokenB))
                                                else (restA + ([e] + restB), wokenA + wokenB)
  {
    hide Sweep;
    SweepAppend(a, [e] + b, alive, now);
    SweepAppend([e], b, alive, now);
    SweepOne(e, alive, now);
    var (restB, wokenB) := Sweep(b, alive, now);
    assert [] + restB == restB && [] + wokenB == wokenB;
  }

  lemma SweepOnly(q: seq<Entry>, p: int, wake: int, alive: set<int>, now: int)
    requires Only(q, p, wake) && p in alive
    ensures var (rest, woken) := Sweep(q, alive, now);
            if wake <= now then !Has(rest, p) && Times(woken, p) == 1 else Only(rest, p, wake) && Times(woken, p) == 0
  {
    hide Sweep, Times, Has;
    var k: nat :| OnlyAt(q, p, wake, k);
    var a, b := q[..k], q[k + 1..];
    assert q == a + ([Entry(p, wake)] + b);
    SweepAround(a, Entry(p, wake), b, alive, now);
    SweepOther(a, p, alive, now);
    SweepOther(b, p, alive, now);
    var (restA, wokenA) := Sweep(a, alive, now);
    var (restB, wokenB) := Sweep(b, alive, now);
    TimesOne(p, p);
    if wake > now {
      TimesAppend(wokenA, wokenB, p);
      var rest := restA + ([Entry(p, wake)] + restB);
      assert rest[..|restA|] == restA && rest[|restA| + 1..] == restB;
      assert OnlyAt(rest, p, wake, |restA|);
    } else {
      TimesAppend(wokenA, [p] + wokenB, p);
      TimesAppend([p], wokenB, p);
      HasAppend(restA, restB, p);
    }
  }

  lemma HasAppend(a: seq<Entry>, b: seq<Entry>, p: int)
    ensures Has(a + b, p) <==> Has(a, p) || Has(b, p)
  {
    if Has(a, p) { var i :| 0 <= i < |a| && a[i].pid == p; assert (a + b)[i].pid == p; }
    if Has(b, p) { var i :| 0 <= i < |b| && b[i].pid == p; assert (a + b)[|a| + i].pid == p; }
  }

  datatype Event = Sleep(pid: int, delay: nat) | Tick(alive: set<int>)

  /** The queue, the tick count, and for one process the ticks at which it has been woken. */
  datatype Log = Log(q: seq<Entry>, now: int, wakes: seq<int>)

  function Stamps(n: nat, now: int): (r: seq<int>)
    ensures |r| == n && forall i | 0 <= i < n :: r[i] == now
  {
    seq(n, _ => now)
  }

  /** One system call or timer interrupt, watching the process p. */
  function Step(l: Log, e: Event, p: int): Log {
    match e
    case Sleep(pid, delay) => l.(q := Add(l.q, Entry(pid, l.now + delay)))
    case Tick(alive) =>
      var (rest, woken) := Sweep(l.q, alive, l.now + 1);
      Log(rest, l.now + 1, l.wakes + Stamps(Times(woken, p), l.now + 1))
  }

  ghost function Play(l: Log, es: seq<Event>, p: int): Log {
    if es == [] then l else Step(Play(l, es[..|es| - 1], p), es[|es| - 1], p)
  }

  /** p lives through the events and does not call sleep in them. */
  ghost predicate Undisturbed(es: seq<Event>, p: int) {
    forall i | 0 <= i < |es| :: Allows(es[i], p)
  }

  predicate Allows(e: Event, p: int) {
    match e case Sleep(pid, _) => pid != p case Tick(alive) => p in alive
  }

  lemma AddOnly(q: seq<Entry>, e: Entry)
    requires !Has(q, e.pid)
    ensures Only(Add(q, e), e.pid, e.wake)
  {
    var k, r := Place(q, e.wake), Add(q, e);
    assert q == q[..k] + q[k..] && r[..k] == q[..k] && r[k + 1..] == q[k..];
    HasAppend(q[..k], q[k..], e.pid);
    assert OnlyAt(r, e.pid, e.wake, k);
  }

  lemma AddOther(q: seq<Entry>, e: Entry, p: int)
    requires e.pid != p
    ensures Has(Add(q, e), p) <==> Has(q, p)
  {
    var k := Place(q, e.wake);
    assert q == q[..k] + q[k..] && !Has([e], p);
    HasAppend(q[..k], q[k..], p);
    HasAppend(q[..k] + [e], q[k..], p);
    HasAppend(q[..k], [e], p);
  }

  lemma HasOne(e: Entry, p: int)
    ensures Has([e], p) <==> e.pid == p
  {
    if e.pid == p { assert [e][0].pid == p; }
  }

  lemma AddKeepsOnly(q: seq<Entry>, e: Entry, p: int, wake: int)
    requires e.pid != p && Only(q, p, wake)
    ensures Only(Add(q, e), p, wake)
  {
    hide Has, Place;
    var i: nat :| OnlyAt(q, p, wake, i);
    var k, r := Place(q, e.wake), Add(q, e);
    HasOne(e, p);
    if i < k {
      var b, c := q[i + 1..k], q[k..];
      assert q[i + 1..] == b + c && r[i + 1..] == (b + [e]) + c && r[..i] == q[..i];
      HasAppend(b, c, p);
      HasAppend(b, [e], p);
      HasAppend(b + [e], c, p);
      assert OnlyAt(r, p, wake, i);
    } else {
      var a, b := q[..k], q[k..i];
      assert q[..i] == a + b && r[..i + 1] == (a + [e]) + b && r[i + 2..] == q[i + 1..];
      HasAppend(a, b, p);
      HasAppend(a, [e], p);
      HasAppend(a + [e], b, p);
      assert OnlyAt(r, p, wake, i + 1);
    }
  }

  /** The first tick that is after the call and has reached the deadline. */
  function Due(now: int, delay: nat): int {
    if delay == 0 then now + 1 else now + delay
  }

  ghost predicate Watched(l: Log, p: int, wake: int, due: int, before: seq<int>) {
    if l.now < due then Only(l.q, p, wake) && l.wakes == before
    else !Has(l.q, p) && l.wakes == before + [due]
  }

  lemma WatchedStep(l: Log, e: Event, p: int, wake: int, due: int, before: seq<int>)
    requires Watched(l, p, wake, due, before) && wake <= due && (l.now + 1 < due ==> l.now + 1 < wake)
    requires Allows(e, p)
    ensures Watched(Step(l, e, p), p, wake, due, before)
  {
    hide Add, Sweep, Has, Only, Times;
    match e
    case Sleep(pid, delay) =>
      AddOther(l.q, Entry(pid, l.now + delay), p);
      if l.now < due { AddKeepsOnly(l.q, Entry(pid, l.now + delay), p, wake); }
    case Tick(alive) =>
      if l.now < due {
        SweepOnly(l.q, p, wake, alive, l.now + 1);
      } else {
        SweepOther(l.q, p, alive, l.now + 1);
      }
  }

  /**
   A process that goes to sleep and stays alive is woken exactly once, at the first
   tick after its call that has reached its deadline, and not before.
   */
  lemma {:induction false} WokenOnceOnTime(l: Log, p: int, delay: nat, es: seq<Event>)
    requires !Has(l.q, p) && Undisturbed(es, p)
    ensures Watched(Play(Step(l, Sleep(p, delay), p), es, p), p, l.now + delay, Due(l.now, delay), l.wakes)
    ensures Play(Step(l, Sleep(p, delay), p), es, p).now >= l.now
  {
    var l0 := Step(l, Sleep(p, delay), p);
    if es == [] {
      AddOnly(l.q, Entry(p, l.now + delay));
    } else {
      var prior := es[..|es| - 1];
      WokenOnceOnTime(l, p, delay, prior);
      WatchedStep(Play(l0, prior, p), es[|es| - 1], p, l.now + delay, Due(l.now, delay), l.wakes);
    }
  }

  // ----- the list in place -----

  const NULL: int := 0

  function AtOr(addrs: seq<int>, i: nat): int {
    if i < |addrs| then addrs[i] else NULL
  }

  ghost predicate Chain(entry: map<int, Entry>, next: map<int, int>, head: int, addrs: seq<int>) {
    && Distinct(addrs) && head == AtOr(addrs, 0)
    && forall i | 0 <= i < |addrs| :: addrs[i] in entry && LinkAt(entry, next, addrs, i)
  }

  /** The i-th node is there and names the next one. */
  ghost predicate LinkAt(entry: map<int, Entry>, next: map<int, int>, addrs: seq<int>, i: nat)
    requires i < |addrs|
  {
    addrs[i] != NULL && addrs[i] in entry && addrs[i] in next && next[addrs[i]] == AtOr(addrs, i + 1)
  }

  ghost predicate Stored(entry: map<int, Entry>, addrs: seq<int>) {
    forall i | 0 <= i < |addrs| :: addrs[i] in entry
  }

  ghost function EntriesOf(entry: map<int, Entry>, addrs: seq<int>): (q: seq<Entry>)
    requires Stored(entry, addrs)
    ensures |q| == |addrs| && forall i | 0 <= i < |q| :: q[i] == entry[addrs[i]]
  {
    seq(|addrs|, i requires 0 <= i < |addrs| => entry[addrs[i]])
  }

  lemma ChainAt(entry: map<int, Entry>, next: map<int, int>, head: int, addrs: seq<int>, i: nat)
    requires Chain(entry, next, head, addrs) && i <= |addrs|
    ensures (AtOr(addrs, i) == NULL <==> i == |addrs|) && head == AtOr(addrs, 0)
    ensures i < |addrs| ==> addrs[i] in entry && addrs[i] in next && next[addrs[i]] == AtOr(addrs, i + 1)
    ensures i > 0 ==> addrs[i - 1] in next && addrs[i - 1] != NULL
    ensures Stored(entry, addrs)
  {
  }

  lemma ChainInsert(entry: map<int, Entry>, next: map<int, int>, head: int, addrs: seq<int>, k: nat, a: int, e: Entry)
    requires Chain(entry, next, head, addrs) && k <= |addrs| && a != NULL && a !in addrs
    ensures Chain(entry[a := e], InsertedNext(next, addrs, k, a), if k == 0 then a else head, InsertAt(addrs, k, a))
    ensures Stored(entry, addrs) && Stored(entry[a := e], InsertAt(addrs, k, a))
    ensures EntriesOf(entry[a := e], InsertAt(addrs, k, a)) == InsertAt(EntriesOf(entry, addrs), k, e)
  {
    hide Distinct, EntriesOf, LinkAt;
    ChainAt(entry, next, head, addrs, 0);
    DistinctInsert(addrs, k, a);
    var entry', next', addrs' := entry[a := e], InsertedNext(next, addrs, k, a), InsertAt(addrs, k, a);
    forall i | 0 <= i < |addrs'| ensures LinkAt(entry', next', addrs', i) {
      ChainInsertAt(entry, next, head, addrs, k, a, e, i);
    }
    EntriesInsert(entry, addrs, k, a, e);
  }

  function InsertedNext(next: map<int, int>, addrs: seq<int>, k: nat, a: int): map<int, int>
    requires k <= |addrs|
  {
    var linked := next[a := AtOr(addrs, k)];
    if k == 0 then linked else linked[addrs[k - 1] := a]
  }

  lemma ChainInsertAt(entry: map<int, Entry>, next: map<int, int>, head: int, addrs: seq<int>, k: nat, a: int, e: Entry, i: nat)
    requires Chain(entry, next, head, addrs) && k <= |addrs| && i <= |addrs| && a != NULL && a !in addrs
    ensures LinkAt(entry[a := e], InsertedNext(next, addrs, k, a), InsertAt(addrs, k, a), i)
  {
    hide Distinct, Chain;
    if i != k {
      var o := if i < k then i else i - 1;
      ChainAt(entry, next, head, addrs, o);
      ChainAt(entry, next, head, addrs, o + 1);
      ChainDistinct(entry, next, head, addrs);
      if o + 1 != k && k > 0 { DistinctAt(addrs, o, k - 1); }
    }
  }

  lemma ChainDistinct(entry: map<int, Entry>, next: map<int, int>, head: int, addrs: seq<int>)
    requires Chain(entry, next, head, addrs)
    ensures Distinct(addrs)
  {
  }

  lemma DistinctAt(r: seq<int>, i: nat, j: nat)
    requires Distinct(r) && i < |r| && j < |r| && i != j
    ensures r[i] != r[j]
  {
  }

  lemma EntriesInsert(entry: map<int, Entry>, addrs: seq<int>, k: nat, a: int, e: Entry)
    requires Stored(entry, addrs) && k <= |addrs| && a !in addrs
    ensures Stored(entry[a := e], InsertAt(addrs, k, a))
    ensures EntriesOf(entry[a := e], InsertAt(addrs, k, a)) == InsertAt(EntriesOf(entry, addrs), k, e)
  {
  }

  lemma DistinctInsert(addrs: seq<int>, k: nat, a: int)
    requires Distinct(addrs) && k <= |addrs| && a !in addrs
    ensures Distinct(InsertAt(addrs, k, a))
  {
    var r := InsertAt(addrs, k, a);
    forall i, j | 0 <= i < j < |r| ensures r[i] != r[j] {
      var m, n := if i < k then i else i - 1, if j < k then j else j - 1;
      assert i != k ==> r[i] == addrs[m];
      assert j != k ==> r[j] == addrs[n];
    }
  }

  lemma ChainRemove(entry: map<int, Entry>, next: map<int, int>, head: int, addrs: seq<int>, k: nat)
    requires Chain(entry, next, head, addrs) && k < |addrs|
    ensures Chain(entry, RemovedNext(next, addrs, k), if k == 0 then AtOr(addrs, k + 1) else head, Remove(addrs, k))
    ensures Remove(addrs, k)[..k] == addrs[..k] && Remove(addrs, k)[k..] == addrs[k + 1..]
    ensures Stored(entry, addrs) && Stored(entry, Remove(addrs, k))
    ensures EntriesOf(entry, Remove(addrs, k))[..k] == EntriesOf(entry, addrs)[..k]
  {
    hide Distinct, LinkAt;
    ChainAt(entry, next, head, addrs, 0);
    ChainDistinct(entry, next, head, addrs);
    RemoveFacts(addrs, k);
    forall i | 0 <= i < |addrs| - 1 ensures LinkAt(entry, RemovedNext(next, addrs, k), Remove(addrs, k), i) {
      ChainRemoveAt(entry, next, head, addrs, k, i);
    }
  }

  function RemovedNext(next: map<int, int>, addrs: seq<int>, k: nat): map<int, int>
    requires k < |addrs|
  {
    if k == 0 then next else next[addrs[k - 1] := AtOr(addrs, k + 1)]
  }

  lemma ChainRemoveAt(entry: map<int, Entry>, next: map<int, int>, head: int, addrs: seq<int>, k: nat, i: nat)
    requires Chain(entry, next, head, addrs) && k < |addrs| && i < |addrs| - 1
    ensures LinkAt(entry, RemovedNext(next, addrs, k), Remove(addrs, k), i)
  {
    hide Distinct, Chain;
    var o := if i < k then i else i + 1;
    ChainAt(entry, next, head, addrs, o);
    ChainAt(entry, next, head, addrs, o + 1);
    ChainDistinct(entry, next, head, addrs);
    if o != k - 1 && k > 0 { DistinctAt(addrs, o, k - 1); }
  }

  class SleepList {
    var entry: map<int, Entry>
    var next: map<int, int>
    var head: int
    ghost var addrs: seq<int>

    ghost predicate Valid()
      reads this
    {
      Chain(entry, next, head, addrs)
    }

    ghost function View(): seq<Entry>
      requires Valid()
      reads this
    {
      EntriesOf(entry, addrs)
    }

    /** sleep_queue_init */
    constructor ()
      ensures Valid() && View() == []
    {
      entry, next, head, addrs := map[], map[], NULL, [];
    }

    /** The node to put a new entry behind: null stands for the head of the list. */
    static method FindPlace(entry: map<int, Entry>, next: map<int, int>, head: int, ghost addrs: seq<int>, wake: int)
      returns (behind: int)
      requires Chain(entry, next, head, addrs)
      ensures Stored(entry, addrs)
      ensures var k := Place(EntriesOf(entry, addrs), wake); behind == if k == 0 then NULL else addrs[k - 1]
    {
      hide Chain;
      behind := NULL;
      ghost var k := 0;
      ChainAt(entry, next, head, addrs, 0);
      ghost var q := EntriesOf(entry, addrs);
      while (if behind == NULL then head else next[behind]) != NULL
            && entry[if behind == NULL then head else next[behind]].wake <= wake
        invariant k <= |addrs| && behind == (if k == 0 then NULL else addrs[k - 1])
        invariant behind != NULL <==> k > 0
        invariant behind != NULL ==> behind in next
        invariant (if behind == NULL then head else next[behind]) == AtOr(addrs, k)
        invariant AtOr(addrs, k) != NULL <==> k < |addrs|
        invariant Place(q, wake) == k + Place(q[k..], wake)
        decreases |addrs| - k
      {
        ChainAt(entry, next, head, addrs, k);
        ChainAt(entry, next, head, addrs, k + 1);
        assert q[k..][1..] == q[k + 1..];
        behind := if behind == NULL then head else next[behind];
        k := k + 1;
      }
    }

    /** sleep_queue_add; a is the address that the memory manager gives for the entry. */
    method Insert(pid: int, wake: int, a: int)
      requires Valid() && a != NULL && a !in addrs
      modifies this
      ensures Valid() && View() == Add(old(View()), Entry(pid, wake))
    {
      hide Chain, EntriesOf;
      var behind := FindPlace(entry, next, head, addrs, wake);
      ghost var k := Place(View(), wake);
      ChainAt(entry, next, head, addrs, k);
      if k > 0 { ChainAt(entry, next, head, addrs, k - 1); }
      ChainInsert(entry, next, head, addrs, k, a, Entry(pid, wake));
      entry := entry[a := Entry(pid, wake)];
      if behind == NULL {
        next, head := next[a := head], a;
      } else {
        next := next[a := next[behind]][behind := a];
      }
      addrs := InsertAt(addrs, k, a);
    }

    /** sleep_queue_tick_handler; the processes returned are unblocked in that order. */
    method TickHandler(alive: set<int>, now: int) returns (woken: seq<int>)
      requires Valid()
      modifies this`next, this`head, this`addrs
      ensures Valid() && (View(), woken) == Sweep(old(View()), alive, now)
    {
      next, head, woken, addrs := SweepList(entry, next, head, addrs, alive, now);
    }

    static method SweepList(entry: map<int, Entry>, next0: map<int, int>, head0: int, ghost addrs0: seq<int>, alive: set<int>, now: int)
      returns (next: map<int, int>, head: int, woken: seq<int>, ghost addrs: seq<int>)
      requires Chain(entry, next0, head0, addrs0)
      ensures Chain(entry, next, head, addrs)
      ensures Stored(entry, addrs0) && Stored(entry, addrs)
      ensures EntriesOf(entry, addrs) == Sweep(EntriesOf(entry, addrs0), alive, now).0
      ensures woken == Sweep(EntriesOf(entry, addrs0), alive, now).1
    {
      hide Chain, Sweep, Sweeping, EntriesOf, Stored;
      next, head, woken, addrs := next0, head0, [], addrs0;
      var prev, cur := NULL, head0;
      ghost var i, k := 0, 0;
      SweepingStart(entry, next, head, addrs, alive, now);
      while cur != NULL
        invariant Sweeping(entry, next, head, addrs, addrs0, i, k, woken, alive, now)
        invariant i <= |addrs0| && k <= |addrs| && cur == AtOr(addrs0, i) && (cur != NULL <==> i < |addrs0|)
        invariant prev == if k == 0 then NULL else addrs[k - 1]
        decreases |addrs0| - i
      {
        SweepingAt(entry, next, head, addrs, addrs0, i, k, woken, alive, now);
        var after := next[cur];
        if entry[cur].pid !in alive || entry[cur].wake <= now {
          SweepDrop(entry, next, head, addrs, addrs0, i, k, woken, alive, now);
          if prev != NULL { next := next[prev := after]; } else { head := after; }
          if entry[cur].pid in alive { woken := woken + [entry[cur].pid]; }
          addrs := Remove(addrs, k);
        } else {
          SweepKeep(entry, next, head, addrs, addrs0, i, k, woken, alive, now);
          prev := cur;
          k := k + 1;
        }
        cur := after;
        i := i + 1;
      }
      SweepingEnd(entry, next, head, addrs, addrs0, i, k, woken, alive, now);
    }
  }

  /** Halfway through the sweep: the first k nodes are what is kept of the first i entries, and the rest is as it was. */
  ghost predicate Sweeping(entry: map<int, Entry>, next: map<int, int>, head: int, addrs: seq<int>, addrs0: seq<int>,
                           i: nat, k: nat, woken: seq<int>, alive: set<int>, now: int) {
    && Chain(entry, next, head, addrs) && Stored(entry, addrs) && Stored(entry, addrs0) && Distinct(addrs0)
    && i <= |addrs0| && k <= |addrs| && addrs[k..] == addrs0[i..] && (forall x <- addrs0 :: x != NULL)
    && (EntriesOf(entry, addrs)[..k], woken) == Sweep(EntriesOf(entry, addrs0)[..i], alive, now)
  }

  lemma SweepingStart(entry: map<int, Entry>, next: map<int, int>, head: int, addrs: seq<int>, alive: set<int>, now: int)
    requires Chain(entry, next, head, addrs)
    ensures Sweeping(entry, next, head, addrs, addrs, 0, 0, [], alive, now)
    ensures head == AtOr(addrs, 0) && (head != NULL <==> 0 < |addrs|)
  {
    SweepFrom(EntriesOf(entry, addrs), alive, now, 0);
  }

  lemma SweepingAt(entry: map<int, Entry>, next: map<int, int>, head: int, addrs: seq<int>, addrs0: seq<int>,
                   i: nat, k: nat, woken: seq<int>, alive: set<int>, now: int)
    requires Sweeping(entry, next, head, addrs, addrs0, i, k, woken, alive, now) && i < |addrs0|
    ensures k < |addrs| && addrs[k] == addrs0[i] && addrs0[i] in entry && addrs0[i] in next
    ensures next[addrs0[i]] == AtOr(addrs0, i + 1) && (AtOr(addrs0, i + 1) != NULL <==> i + 1 < |addrs0|)
    ensures k > 0 ==> addrs[k - 1] != NULL
  {
    assert addrs[k..][0] == addrs0[i..][0];
    ChainAt(entry, next, head, addrs, k);
    if i + 1 < |addrs0| { assert addrs[k..][1] == addrs0[i..][1] && addrs0[i + 1] in addrs0; }
  }

  lemma SweepDrop(entry: map<int, Entry>, next: map<int, int>, head: int, addrs: seq<int>, addrs0: seq<int>,
                  i: nat, k: nat, woken: seq<int>, alive: set<int>, now: int)
    requires Sweeping(entry, next, head, addrs, addrs0, i, k, woken, alive, now) && i < |addrs0|
    requires addrs0[i] in entry && (entry[addrs0[i]].pid !in alive || entry[addrs0[i]].wake <= now)
    ensures k < |addrs| && Remove(addrs, k)[..k] == addrs[..k]
    ensures var after, e := AtOr(addrs0, i + 1), entry[addrs0[i]];
            Sweeping(entry, if k == 0 then next else next[addrs[k - 1] := after], if k == 0 then after else head, Remove(addrs, k),
                     addrs0, i + 1, k, if e.pid in alive then woken + [e.pid] else woken, alive, now)
  {
    hide Chain, Sweep;
    SweepingAt(entry, next, head, addrs, addrs0, i, k, woken, alive, now);
    ChainAt(entry, next, head, addrs, k);
    ChainRemove(entry, next, head, addrs, k);
    SweepFrom(EntriesOf(entry, addrs0), alive, now, i);
    assert addrs0[i + 1..] == addrs0[i..][1..] && addrs[k + 1..] == addrs[k..][1..];
  }

  lemma SweepKeep(entry: map<int, Entry>, next: map<int, int>, head: int, addrs: seq<int>, addrs0: seq<int>,
                  i: nat, k: nat, woken: seq<int>, alive: set<int>, now: int)
    requires Sweeping(entry, next, head, addrs, addrs0, i, k, woken, alive, now) && i < |addrs0|
    requires addrs0[i] in entry && entry[addrs0[i]].pid in alive && entry[addrs0[i]].wake > now
    ensures Sweeping(entry, next, head, addrs, addrs0, i + 1, k + 1, woken, alive, now)
  {
    hide Chain, Sweep;
    SweepingAt(entry, next, head, addrs, addrs0, i, k, woken, alive, now);
    SweepFrom(EntriesOf(entry, addrs0), alive, now, i);
    assert addrs0[i + 1..] == addrs0[i..][1..] && addrs[k + 1..] == addrs[k..][1..];
    var q := EntriesOf(entry, addrs);
    assert q[..k + 1] == q[..k] + [q[k]];
  }

  lemma SweepingEnd(entry: map<int, Entry>, next: map<int, int>, head: int, addrs: seq<int>, addrs0: seq<int>,
                    i: nat, k: nat, woken: seq<int>, alive: set<int>, now: int)
    requires Sweeping(entry, next, head, addrs, addrs0, i, k, woken, alive, now) && i == |addrs0|
    ensures Chain(entry, next, head, addrs) && Stored(entry, addrs0) && Stored(entry, addrs)
    ensures (EntriesOf(entry, addrs), woken) == Sweep(EntriesOf(entry, addrs0), alive, now)
  {
    hide Chain, Sweep;
    assert addrs0[i..] == [] && k == |addrs|;
    var q, q0 := EntriesOf(entry, addrs), EntriesOf(entry, addrs0);
    assert q[..k] == q && q0[..i] == q0;
  }

  lemma SweepFrom(q: seq<Entry>, alive: set<int>, now: int, i: nat)
    requires i <= |q|
    ensures Sweep(q[..0], alive, now) == ([], []) && q[..|q|] == q
    ensures i < |q| ==>
      var (rest, woken), e := Sweep(q[..i], alive, now), q[i];
      Sweep(q[..i + 1], alive, now) == if e.pid !in alive then (rest, woken)
                                       else if e.wake <= now then (rest, woken + [e.pid])
                                       else (rest + [e], woken)
  {
    if i < |q| { assert q[..i + 1][..i] == q[..i]; }
  }
}
