/**
 Counting semaphores with direct hand-off: a post gives its unit to the process that
 has waited longest, and only adds to the value when nobody is waiting.
 */
module Semaphores {
  import opened Circle
  import opened RingBuffer

  /** A closed semaphore has the value -1. */
  datatype Sem = Sem(value: int, queue: seq<int>)

  datatype WaitResult = Refused | Enqueued | Acquired

  datatype PostResult = Rejected | Handed(pid: int) | Counted

  const CLOSED := -1
  const SEM_MAX := 127
  const MAX_PROCESSES := 20

  /** sem_open on a valid id */
  function Open(s: Sem, initial: int): Sem {
    if s.value != CLOSED then s else Sem(initial, [])
  }

  /** sem_wait on a valid id, up to the point where the caller blocks */
  function Wait(s: Sem, pid: int): (Sem, WaitResult) {
    if s.value == CLOSED then (s, Refused)
    else if s.value == 0 then
      if |s.queue| >= MAX_PROCESSES then (s, Refused) else (s.(queue := s.queue + [pid]), Enqueued)
    else (s.(value := s.value - 1), Acquired)
  }

  /** How many waiters a post takes off the queue: the dead ones in front and the first live one. */
  function Taken(queue: seq<int>, alive: set<int>): (n: nat)
    ensures n <= |queue|
    ensures forall i | 0 <= i < n - 1 :: queue[i] !in alive
    ensures n == 0 <==> queue == []
    ensures n < |queue| ==> queue[n - 1] in alive
  {
    if queue == [] then 0
    else if queue[0] in alive then 1
    else 1 + Taken(queue[1..], alive)
  }

  predicate HasLive(queue: seq<int>, alive: set<int>) {
    exists i :: 0 <= i < |queue| && queue[i] in alive
  }

  /** sem_post on a valid id */
  function Post(s: Sem, alive: set<int>): (Sem, PostResult) {
    if s.value == CLOSED then (s, Rejected)
    else
      var n := Taken(s.queue, alive);
      var rest := s.queue[n..];
      if n > 0 && s.queue[n - 1] in alive then (s.(queue := rest), Handed(s.queue[n - 1]))
      else (Sem(s.value + 1, rest), Counted)
  }

  /** sem_close: the waiter in position i is woken only when a process of pid i exists. */
  function WokenByClose(queue: seq<int>, alive: set<int>): (w: seq<int>)
    ensures forall x <- w :: x in queue
  {
    if queue == [] then []
    else
      var n := |queue| - 1;
      WokenByClose(queue[..n], alive) + if n in alive then [queue[n]] else []
  }

  function Close(s: Sem, alive: set<int>): (Sem, seq<int>) {
    if s.value == CLOSED then (s, []) else (Sem(CLOSED, []), WokenByClose(s.queue, alive))
  }

  /** Nobody waits while there are units left, or on a closed semaphore. */
  ghost predicate SemInv(s: Sem) {
    s.value >= -1 && (s.value != 0 ==> s.queue == [])
  }

  /** A post goes to the first live waiter, and adds to the value exactly when there is none. */
  lemma PostServesFirstLive(s: Sem, alive: set<int>)
    requires s.value != CLOSED
    ensures match Post(s, alive).1
      case Rejected => false
      case Handed(p) => HasLive(s.queue, alive) && Post(s, alive).0.value == s.value
        && exists i :: 0 <= i < |s.queue| && s.queue[i] == p && p in alive && Post(s, alive).0.queue == s.queue[i + 1..]
                       && forall j | 0 <= j < i :: s.queue[j] !in alive
      case Counted => !HasLive(s.queue, alive) && Post(s, alive).0 == Sem(s.value + 1, [])
  {
    var n := Taken(s.queue, alive);
    if n > 0 && s.queue[n - 1] in alive { assert HasLive(s.queue, alive); }
  }

  lemma PostKeepsDistinct(g: Sem, alive: set<int>)
    requires Distinct(g.queue)
    ensures Distinct(Post(g, alive).0.queue)
  {
  }

  /** Nobody alive other than the process served loses its place in the queue. */
  lemma PostKeepsQueue(g: Sem, alive: set<int>, p: int)
    requires g.value != CLOSED && Distinct(g.queue)
    ensures p in Post(g, alive).0.queue ==> p in g.queue
    ensures p in alive ==> (p in Post(g, alive).0.queue <==> p in g.queue && Post(g, alive).1 != Handed(p))
  {
    var n := Taken(g.queue, alive);
    var rest := g.queue[n..];
    assert Post(g, alive).0.queue == rest;
    if p in alive && p in g.queue && Post(g, alive).1 != Handed(p) {
      var i :| 0 <= i < |g.queue| && g.queue[i] == p;
      assert i >= n;
      assert rest[i - n] == p;
    }
  }

  /**
   Closing wakes every waiter exactly when, for each of them, a process whose pid is
   that waiter's position happens to exist.
   */
  lemma {:induction false} CloseWakes(queue: seq<int>, alive: set<int>)
    requires Distinct(queue)
    ensures forall i | 0 <= i < |queue| :: queue[i] in WokenByClose(queue, alive) <==> i in alive
  {
    if queue != [] {
      var n := |queue| - 1;
      CloseWakes(queue[..n], alive);
      forall i | 0 <= i < |queue| ensures queue[i] in WokenByClose(queue, alive) <==> i in alive {
        if i < n { assert queue[..n][i] == queue[i]; }
      }
    }
  }

  /** No process has pid 0, so the process that has waited longest is never woken by a close. */
  lemma CloseStrandsTheFirst(queue: seq<int>, alive: set<int>)
    requires Distinct(queue) && 0 !in alive
    ensures (forall p <- queue :: p in WokenByClose(queue, alive)) <==> queue == []
  {
    CloseWakes(queue, alive);
    if queue != [] { assert queue[0] in queue && queue[0] !in WokenByClose(queue, alive); }
  }

  // ----- runs of one semaphore -----

  datatype Event =
    | OpenEvent(initial: nat) | CloseEvent(alive: set<int>)
    | WaitEvent(pid: int) | PostEvent(pid: int, alive: set<int>)

  /** What has happened to a semaphore since it was last opened, and with how many units that was. */
  datatype History = History(sem: Sem, initial: nat, posts: seq<int>, granted: seq<int>, arrivals: seq<int>, departures: seq<int>)

  /** init_semaphores */
  function Start(): History {
    History(Sem(CLOSED, []), 0, [], [], [], [])
  }

  function Step(h: History, e: Event): History {
    match e
    case OpenEvent(n) => if h.sem.value == CLOSED then History(Open(h.sem, n), n, [], [], [], []) else h.(sem := Open(h.sem, n))
    case CloseEvent(alive) => h.(sem := Close(h.sem, alive).0)
    case WaitEvent(p) =>
      var (s, r) := Wait(h.sem, p);
      h.(sem := s,
         granted := h.granted + if r == Acquired then [p] else [],
         arrivals := h.arrivals + if r == Enqueued then [p] else [])
    case PostEvent(p, alive) =>
      var (s, r) := Post(h.sem, alive);
      h.(sem := s,
         posts := h.posts + if r == Rejected then [] else [p],
         granted := h.granted + if r.Handed? then [r.pid] else [],
         departures := h.departures + if r == Rejected then [] else h.sem.queue[..Taken(h.sem.queue, alive)])
  }

  ghost function Play(h: History, es: seq<Event>): History {
    if es == [] then h else Step(Play(h, es[..|es| - 1]), es[|es| - 1])
  }

  /** With how many units a semaphore was opened that is open after these events, and -1 if it is closed. */
  function Opening(es: seq<Event>): (n: int)
    ensures n >= -1
  {
    if es == [] then -1
    else
      var was := Opening(es[..|es| - 1]);
      match es[|es| - 1]
      case OpenEvent(n) => if was == -1 then n else was
      case CloseEvent(_) => -1
      case _ => was
  }

  /** Units opened with and posted, less the waits, since the semaphore was last opened. */
  function Net(es: seq<Event>): int {
    if es == [] then 0
    else
      var was, open := Net(es[..|es| - 1]), Opening(es[..|es| - 1]) != -1;
      match es[|es| - 1]
      case OpenEvent(n) => if open then was else n
      case CloseEvent(_) => 0
      case WaitEvent(_) => if open then was - 1 else was
      case PostEvent(_, _) => if open then was + 1 else was
  }

  ghost predicate Balanced(h: History) {
    && SemInv(h.sem)
    && if h.sem.value == CLOSED then h.departures <= h.arrivals
       else h.initial + |h.posts| == h.sem.value + |h.granted| && h.arrivals == h.departures + h.sem.queue
  }

  lemma WaitBalanced(h: History, p: int)
    requires Balanced(h)
    ensures Balanced(Step(h, WaitEvent(p)))
  {
    assert h.departures + (h.sem.queue + [p]) == (h.departures + h.sem.queue) + [p];
  }

  lemma PostBalanced(h: History, p: int, alive: set<int>)
    requires Balanced(h)
    ensures Balanced(Step(h, PostEvent(p, alive)))
  {
    var q, n := h.sem.queue, Taken(h.sem.queue, alive);
    assert q[..n] + q[n..] == q;
    assert (h.departures + q[..n]) + q[n..] == h.departures + (q[..n] + q[n..]);
    assert h.departures + [] == h.departures;
  }

  lemma OpenCloseBalanced(h: History, e: Event)
    requires Balanced(h) && (e.OpenEvent? || e.CloseEvent?)
    ensures Balanced(Step(h, e))
  {
  }

  lemma StepBalanced(h: History, e: Event)
    requires Balanced(h)
    ensures Balanced(Step(h, e))
  {
    hide Balanced, Step;
    match e
    case WaitEvent(p) => WaitBalanced(h, p);
    case PostEvent(p, alive) => PostBalanced(h, p, alive);
    case _ => OpenCloseBalanced(h, e);
  }

  /**
   Conservation over every run of openings, waits, posts and closings: opening an open
   semaphore changes nothing, units are neither lost nor made up, nobody waits while
   there are units, and waiters leave the queue in the order in which they arrived.
   */
  lemma {:induction false} Conservation(es: seq<Event>)
    ensures var h := Play(Start(), es); Balanced(h) && Opening(es) == if h.sem.value == CLOSED then -1 else h.initial
  {
    if es != [] {
      var prior, e := es[..|es| - 1], es[|es| - 1];
      Conservation(prior);
      StepBalanced(Play(Start(), prior), e);
      OpeningStep(Play(Start(), prior), prior, e);
      assert es == prior + [e];
    }
  }

  lemma OpeningStep(h: History, es: seq<Event>, e: Event)
    requires Balanced(h) && Opening(es) == if h.sem.value == CLOSED then -1 else h.initial
    ensures Opening(es + [e]) == if Step(h, e).sem.value == CLOSED then -1 else Step(h, e).initial
  {
    assert (es + [e])[..|es|] == es;
  }

  /** Everyone who waits lives when a post comes, and there is room in the ring for whoever comes to wait. */
  ghost predicate Attended(es: seq<Event>) {
    es == [] || (Attended(es[..|es| - 1])
                 && var s, e := Play(Start(), es[..|es| - 1]).sem, es[|es| - 1];
                    (e.PostEvent? ==> forall p <- s.queue :: p in e.alive) && (e.WaitEvent? ==> |s.queue| < 20))
  }

  /** The value and the length of the queue that belong to a balance of units. */
  ghost predicate Shows(s: Sem, opening: int, net: int) {
    if opening == -1 then s == Sem(-1, []) && net == 0
    else s.value == (if net > 0 then net else 0) && |s.queue| == (if net < 0 then -net else 0)
  }

  lemma WaitShows(s: Sem, opening: int, net: int, p: int)
    requires Shows(s, opening, net) && |s.queue| < MAX_PROCESSES
    ensures Shows(Wait(s, p).0, opening, if opening != -1 then net - 1 else net)
  {
  }

  lemma PostShows(s: Sem, opening: int, net: int, alive: set<int>)
    requires Shows(s, opening, net) && forall p <- s.queue :: p in alive
    ensures Shows(Post(s, alive).0, opening, if opening != -1 then net + 1 else net)
  {
    if s.queue != [] {
      var first := s.queue[0];
      assert first in s.queue && first in alive;
      assert Taken(s.queue, alive) == 1;
    }
  }

  /** Then the events alone determine the value and the length of the queue. */
  lemma {:induction false} ValueIsNet(es: seq<Event>)
    requires Attended(es)
    ensures Shows(Play(Start(), es).sem, Opening(es), Net(es))
  {
    if es != [] {
      var prior, e := es[..|es| - 1], es[|es| - 1];
      ValueIsNet(prior);
      var s := Play(Start(), prior).sem;
      match e
      case WaitEvent(p) => WaitShows(s, Opening(prior), Net(prior), p);
      case PostEvent(_, alive) => PostShows(s, Opening(prior), Net(prior), alive);
      case _ =>
    }
  }

  /** Those of the processes that have left the queue alive, in order. */
  ghost predicate InOrder(xs: seq<int>, ys: seq<int>)
    decreases |ys|
  {
    xs == [] || (ys != [] && (InOrder(xs, ys[..|ys| - 1])
                              || (xs[|xs| - 1] == ys[|ys| - 1] && InOrder(xs[..|xs| - 1], ys[..|ys| - 1]))))
  }

  function HandOff(s: Sem, e: Event): seq<int> {
    if e.PostEvent? && Post(s, e.alive).1.Handed? then [Post(s, e.alive).1.pid] else []
  }

  /** The waiters that posts have handed their unit to since the semaphore was last opened, in order. */
  ghost function HandOffs(es: seq<Event>): seq<int> {
    if es == [] then []
    else if es[|es| - 1].OpenEvent? && Opening(es[..|es| - 1]) == -1 then []
    else HandOffs(es[..|es| - 1]) + HandOff(Play(Start(), es[..|es| - 1]).sem, es[|es| - 1])
  }

  lemma {:induction false} InOrderExtend(xs: seq<int>, ys: seq<int>, zs: seq<int>)
    requires InOrder(xs, ys)
    ensures InOrder(xs, ys + zs)
  {
    if zs != [] {
      InOrderExtend(xs, ys, zs[..|zs| - 1]);
      assert (ys + zs)[..|ys + zs| - 1] == ys + zs[..|zs| - 1];
    } else {
      assert ys + zs == ys;
    }
  }

  lemma InOrderAppend(xs: seq<int>, ys: seq<int>, mid: seq<int>, z: int)
    requires InOrder(xs, ys)
    ensures InOrder(xs + [z], ys + (mid + [z]))
  {
    hide InOrder;
    InOrderExtend(xs, ys, mid);
    InOrderBoth(xs, ys + mid, z);
    assert ys + (mid + [z]) == (ys + mid) + [z];
  }

  lemma InOrderBoth(xs: seq<int>, ys: seq<int>, z: int)
    requires InOrder(xs, ys)
    ensures InOrder(xs + [z], ys + [z])
  {
    assert (xs + [z])[..|xs|] == xs && (ys + [z])[..|ys|] == ys;
  }

  /** First come, first served: the processes handed a unit are granted it in their order of arrival. */
  lemma {:induction false} HandOffsFollowArrivals(es: seq<Event>)
    ensures InOrder(HandOffs(es), Play(Start(), es).departures)
    ensures Play(Start(), es).departures <= Play(Start(), es).arrivals
  {
    hide InOrder;
    Conservation(es);
    if es != [] {
      var prior, e := es[..|es| - 1], es[|es| - 1];
      HandOffsFollowArrivals(prior);
      Conservation(prior);
      if e.OpenEvent? && Opening(prior) == -1 { InOrderEmpty([]); }
      else { HandOffStep(HandOffs(prior), Play(Start(), prior), e); }
    } else {
      InOrderEmpty([]);
    }
  }

  lemma InOrderEmpty(ys: seq<int>)
    ensures InOrder([], ys)
  {
  }

  lemma HandOffStep(xs: seq<int>, h: History, e: Event)
    requires InOrder(xs, h.departures) && (e.OpenEvent? ==> h.sem.value != CLOSED)
    ensures InOrder(xs + HandOff(h.sem, e), Step(h, e).departures)
  {
    hide InOrder;
    var q := h.sem.queue;
    if e.PostEvent? && h.sem.value != CLOSED {
      var n := Taken(q, e.alive);
      if n > 0 && q[n - 1] in e.alive {
        InOrderAppend(xs, h.departures, q[..n - 1], q[n - 1]);
        assert q[..n] == q[..n - 1] + [q[n - 1]];
      } else {
        InOrderExtend(xs, h.departures, q[..n]);
        assert xs + [] == xs;
      }
    } else {
      assert xs + [] == xs && h.departures + [] == h.departures;
    }
  }

  // ----- holders -----

  /** Processes that have been granted more units than they have posted. */
  ghost function Holders(h: History): multiset<int> {
    multiset(h.granted) - multiset(h.posts)
  }

  /** Every post comes from a process that holds a unit. */
  ghost predicate Disciplined(es: seq<Event>) {
    es == [] || (Disciplined(es[..|es| - 1])
                 && (es[|es| - 1].PostEvent? ==> es[|es| - 1].pid in Holders(Play(Start(), es[..|es| - 1]))))
  }

  lemma {:induction false} HoldersCounted(es: seq<Event>)
    requires Disciplined(es)
    ensures multiset(Play(Start(), es).posts) <= multiset(Play(Start(), es).granted)
  {
    if es != [] {
      var prior, e := es[..|es| - 1], es[|es| - 1];
      HoldersCounted(prior);
      Conservation(prior);
    }
  }

  /** A semaphore opened at n never has more than n holders: the units held and left are always n. */
  lemma HoldersBounded(es: seq<Event>)
    requires Disciplined(es) && Opening(es) != -1
    ensures |Holders(Play(Start(), es))| + Play(Start(), es).sem.value == Opening(es)
    ensures Play(Start(), es).sem.value >= 0
  {
    var h := Play(Start(), es);
    HoldersCounted(es);
    Conservation(es);
    MultisetDifferenceSize(h.granted, h.posts);
  }

  lemma MultisetDifferenceSize(a: seq<int>, b: seq<int>)
    requires multiset(b) <= multiset(a)
    ensures |multiset(a) - multiset(b)| == |a| - |b|
  {
    assert |multiset(a)| == |a| && |multiset(b)| == |b|;
    assert (multiset(a) - multiset(b)) + multiset(b) == multiset(a);
  }

  /**
   Mutual exclusion: however many processes open it, a semaphore that was first opened at
   1 is never held by two processes, or twice by one.
   */
  lemma MutualExclusion(es: seq<Event>, p: int, q: int)
    requires Disciplined(es) && Opening(es) == 1
    requires p in Holders(Play(Start(), es)) && q in Holders(Play(Start(), es))
    ensures p == q && Holders(Play(Start(), es))[p] == 1 && Play(Start(), es).sem.value == 0
  {
    hide Play, Disciplined, Holders, Opening;
    HoldersBounded(es);
    SingleHolder(Holders(Play(Start(), es)), p, q);
  }

  lemma SingleHolder(m: multiset<int>, p: int, q: int)
    requires |m| <= 1 && p in m && q in m
    ensures p == q && m[p] == 1 && |m| == 1
  {
    var rest := m - multiset{p};
    assert m == multiset{p} + rest;
    assert |rest| == 0 && rest == multiset{};
  }

  // ----- the waiter ring never fills -----

  lemma {:induction false} UniqueInRange(q: seq<int>, n: nat)
    requires Distinct(q) && forall i | 0 <= i < |q| :: 1 <= q[i] <= n
    ensures |q| <= n
    decreases n
  {
    assert q == [] || 1 <= q[0] <= n;
    if n > 0 {
      if k: nat :| k < |q| && q[k] == n {
        RemoveFacts(q, k);
        UniqueInRange(Remove(q, k), n - 1);
      } else {
        UniqueInRange(q, n - 1);
      }
    }
  }

  /** With distinct pids from 1 to 20, a caller that is not queued always finds room in the ring. */
  lemma RingNeverFull(s: Sem, pid: int)
    requires Distinct(s.queue) && pid !in s.queue && 1 <= pid <= MAX_PROCESSES
    requires forall p <- s.queue :: 1 <= p <= MAX_PROCESSES
    ensures |s.queue| < MAX_PROCESSES && (Wait(s, pid).1 == Refused <==> s.value == CLOSED)
    ensures Distinct(Wait(s, pid).0.queue)
  {
    var q := s.queue + [pid];
    forall i | 0 <= i < |q| ensures 1 <= q[i] <= MAX_PROCESSES { assert i < |s.queue| ==> q[i] in s.queue; }
    UniqueInRange(q, MAX_PROCESSES);
  }

  // ----- the waiter ring in place -----

  lemma TakenNext(q: seq<int>, alive: set<int>, n: nat)
    requires n < |q|
    ensures Taken(q[n..], alive) == if q[n] in alive then 1 else 1 + Taken(q[n + 1..], alive)
    ensures q[n..][1..] == q[n + 1..]
  {
  }

  class Semaphore {
    var value: int
    const waiting: array<int>
    var head: nat
    var tail: nat
    var count: nat

    ghost predicate Valid()
      reads this
    {
      && waiting.Length == MAX_PROCESSES && head < MAX_PROCESSES && count <= MAX_PROCESSES
      && tail == Slot(MAX_PROCESSES, head, count)
    }

    /** The value and the waiters, from the one that has waited longest. */
    ghost function View(): Sem
      requires Valid()
      reads this, waiting
    {
      Sem(value, RingSeq(waiting[..], head, count))
    }

    /** init_semaphores */
    constructor ()
      ensures Valid() && View() == Sem(CLOSED, []) && fresh(waiting)
    {
      value, head, tail, count := CLOSED, 0, 0, 0;
      waiting := new int[MAX_PROCESSES](_ => 0);
    }

    method SemOpen(initial: int)
      requires Valid()
      modifies this
      ensures Valid() && View() == Open(old(View()), initial)
    {
      if value != CLOSED { return; }
      value := initial;
      head, tail, count := 0, 0, 0;
    }

    /** sem_wait up to the block of the caller */
    method SemWait(pid: int) returns (r: WaitResult)
      requires Valid()
      modifies this, waiting
      ensures Valid() && (View(), r) == Wait(old(View()), pid)
    {
      if value == CLOSED { return Refused; }
      if value == 0 {
        if count >= MAX_PROCESSES { return Refused; }
        RingPush(waiting[..], head, count, pid);
        waiting[tail] := pid;
        assert waiting[..] == old(waiting[..])[tail := pid];
        tail := Slot(MAX_PROCESSES, tail, 1);
        count := count + 1;
        return Enqueued;
      }
      value := value - 1;
      return Acquired;
    }

    /** The loop of sem_post: takes waiters off the ring up to the first one that is alive. */
    static method TakeLive(w: seq<int>, head0: nat, count0: nat, alive: set<int>)
      returns (head: nat, count: nat, found: bool, pid: int)
      requires |w| == MAX_PROCESSES && head0 < MAX_PROCESSES && count0 <= MAX_PROCESSES
      ensures var q := RingSeq(w, head0, count0); var n := Taken(q, alive);
              && head < MAX_PROCESSES && count == |q| - n && RingSeq(w, head, count) == q[n..]
              && Slot(MAX_PROCESSES, head, count) == Slot(MAX_PROCESSES, head0, count0)
              && (found <==> n > 0 && q[n - 1] in alive) && (found ==> pid == q[n - 1])
    {
      hide RingSeq, Taken, Slot;
      head, count, found, pid := head0, count0, false, 0;
      ghost var q, n := RingSeq(w, head0, count0), 0;
      assert q[0..] == q;
      while count > 0
        invariant head < MAX_PROCESSES && n + count == |q| && RingSeq(w, head, count) == q[n..]
        invariant Slot(MAX_PROCESSES, head, count) == Slot(MAX_PROCESSES, head0, count0)
        invariant Taken(q, alive) == n + Taken(q[n..], alive)
        invariant n > 0 ==> q[n - 1] !in alive
        decreases count
      {
        RingPop(w, head, count);
        TakenNext(q, alive, n);
        pid := w[head];
        head := Slot(MAX_PROCESSES, head, 1);
        count := count - 1;
        n := n + 1;
        if pid in alive { return head, count, true, pid; }
      }
    }

    /** sem_post up to the wake-up of the process it returns */
    method SemPost(alive: set<int>) returns (r: PostResult)
      requires Valid()
      modifies this`value, this`head, this`count
      ensures Valid() && (View(), r) == Post(old(View()), alive)
    {
      hide RingSeq, Taken, Slot;
      if value == CLOSED { return Rejected; }
      var found, pid;
      head, count, found, pid := TakeLive(waiting[..], head, count, alive);
      if found { return Handed(pid); }
      value := value + 1;
      return Counted;
    }

    /** sem_close up to the wake-up of the processes it returns */
    method SemClose(alive: set<int>) returns (woken: seq<int>)
      requires Valid()
      modifies this`value, this`head, this`count, this`tail
      ensures Valid() && (View(), woken) == Close(old(View()), alive)
    {
      hide RingSeq;
      if value == CLOSED { return []; }
      ghost var w, q := waiting[..], RingSeq(waiting[..], head, count);
      var toWake: seq<int> := [];
      while count > 0
        invariant Valid() && |toWake| + count == |q| && RingSeq(w, head, count) == q[|toWake|..]
        invariant toWake == q[..|toWake|]
        decreases count
      {
        RingPop(w, head, count);
        toWake := toWake + [waiting[head]];
        head := Slot(MAX_PROCESSES, head, 1);
        count := count - 1;
      }
      value := CLOSED;
      woken := [];
      var i := 0;
      while i < |toWake|
        invariant 0 <= i <= |q| && toWake == q && woken == WokenByClose(q[..i], alive)
      {
        assert q[..i + 1][..i] == q[..i];
        if i in alive { woken := woken + [toWake[i]]; }
        i := i + 1;
      }
    }
  }
}
