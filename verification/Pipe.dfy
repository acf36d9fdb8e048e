/**
 One live pipe: a ring of bytes between writers and readers, guarded by a semaphore
 that counts free places and one that counts stored bytes.
 */
module Pipe {
  import opened Bytes
  import opened Circle
  import opened RingBuffer
  import opened Semaphores

  const BUFFER_SIZE := 2048

  // ----- any number of writers and readers -----

  /** What a process is doing to the pipe; one that is doing nothing, or is dead, is nowhere. */
  datatype Place =
    | WaitsFree   // a writer, queued for a free place
    | HasFree     // a writer, granted a free place
    | HasStored   // a writer, about to announce the byte it has stored
    | WaitsData   // a reader, queued for a byte
    | HasData     // a reader, granted a byte
    | HasTaken    // a reader, about to announce the place it has emptied

  /**
   The pipe, its semaphores, and what everybody is doing.  written and taken are the
   bytes stored and read so far; lostFree and lostData are units granted to processes
   that died before they used or announced them.
   */
  datatype Sys = Sys(buffer: seq<Byte>, readPos: nat, writePos: nat, data: Sem, free: Sem,
                     alive: set<int>, place: map<int, Place>,
                     written: seq<Byte>, taken: seq<Byte>, lostFree: nat, lostData: nat)

  datatype Event =
    | WriterWaits(pid: int) | WriterStores(pid: int, b: Byte) | WriterPosts(pid: int)
    | ReaderWaits(pid: int) | ReaderTakes(pid: int) | ReaderPosts(pid: int)
    | Starts(pid: int) | Dies(pid: int)
    | Woken(pid: int)   // by something other than the pipe: an entry of the sleep list, or an unblock

  /** pipe_init, with both semaphores closed before */
  function Init(alive: set<int>): Sys {
    Sys(seq(BUFFER_SIZE, _ => 0), 0, 0, Open(Sem(CLOSED, []), 0), Open(Sem(CLOSED, []), BUFFER_SIZE), alive, map[], [], [], 0, 0)
  }

  /** The position after pos in the ring. */
  function Advance(pos: nat): (q: nat)
    ensures q < BUFFER_SIZE
  {
    (pos + 1) % BUFFER_SIZE
  }

  predicate At(s: Sys, pid: int, x: Place) {
    pid in s.place && s.place[pid] == x
  }

  predicate Possible(s: Sys, e: Event) {
    match e
    case WriterWaits(p) => p in s.alive && p !in s.place
    case WriterStores(p, _) => At(s, p, HasFree)
    case WriterPosts(p) => At(s, p, HasStored)
    case ReaderWaits(p) => p in s.alive && p !in s.place
    case ReaderTakes(p) => At(s, p, HasData)
    case ReaderPosts(p) => At(s, p, HasTaken)
    case Starts(p) => p !in s.alive && 1 <= p <= MAX_PROCESSES
    case Dies(p) => p in s.alive
    case Woken(p) => p in s.alive
  }

  /** A new process has a pid that neither queue still holds, and nothing but the pipe wakes who waits for it. */
  predicate Harmless(s: Sys, e: Event) {
    match e
    case Starts(p) => p !in s.free.queue && p !in s.data.queue
    case Woken(p) => !At(s, p, WaitsFree) && !At(s, p, WaitsData)
    case _ => true
  }

  predicate Enabled(s: Sys, e: Event) {
    Possible(s, e) && Harmless(s, e)
  }

  function Move(s: Sys, pid: int, x: Place): Sys {
    s.(place := s.place[pid := x])
  }

  function Leave(s: Sys, pid: int): Sys {
    s.(place := s.place - {pid})
  }

  /** A refused wait goes on as if it had been granted: the code does not look at what sem_wait returns. */
  function WaitFree(s: Sys, pid: int): Sys {
    var (f, r) := Wait(s.free, pid);
    Move(s.(free := f), pid, if r == Enqueued then WaitsFree else HasFree)
  }

  function WaitData(s: Sys, pid: int): Sys {
    var (d, r) := Wait(s.data, pid);
    Move(s.(data := d), pid, if r == Enqueued then WaitsData else HasData)
  }

  function PostData(s: Sys): Sys {
    var (d, r) := Post(s.data, s.alive);
    if r.Handed? then Move(s.(data := d), r.pid, HasData) else s.(data := d)
  }

  function PostFree(s: Sys): Sys {
    var (f, r) := Post(s.free, s.alive);
    if r.Handed? then Move(s.(free := f), r.pid, HasFree) else s.(free := f)
  }

  predicate Sound(s: Sys) {
    |s.buffer| == BUFFER_SIZE && s.readPos < BUFFER_SIZE && s.writePos < BUFFER_SIZE
  }

  function Step(s: Sys, e: Event): Sys
    requires Sound(s)
  {
    match e
    case WriterWaits(p) => WaitFree(s, p)
    case WriterStores(p, b) =>
      Move(s.(buffer := s.buffer[s.writePos := b], writePos := Advance(s.writePos), written := s.written + [b]), p, HasStored)
    case WriterPosts(p) => PostData(Leave(s, p))
    case ReaderWaits(p) => WaitData(s, p)
    case ReaderTakes(p) =>
      Move(s.(readPos := Advance(s.readPos), taken := s.taken + [s.buffer[s.readPos]]), p, HasTaken)
    case ReaderPosts(p) => PostFree(Leave(s, p))
    case Starts(p) => s.(alive := s.alive + {p})
    case Dies(p) =>
      Leave(s.(alive := s.alive - {p},
               lostFree := s.lostFree + (if At(s, p, HasFree) || At(s, p, HasTaken) then 1 else 0),
               lostData := s.lostData + (if At(s, p, HasData) || At(s, p, HasStored) then 1 else 0)), p)
    case Woken(p) =>
      if At(s, p, WaitsFree) then Move(s, p, HasFree) else if At(s, p, WaitsData) then Move(s, p, HasData) else s
  }

  // ----- the invariant -----

  /** Where the k-th byte written goes. */
  function PlaceOf(k: nat): (i: nat)
    ensures i < BUFFER_SIZE
  {
    k % BUFFER_SIZE
  }

  ghost function Those(place: map<int, Place>, x: Place): set<int> {
    set p <- place | place[p] == x
  }

  ghost function Stored(s: Sys): int { |s.written| - |s.taken| }

  /** The bytes stored and not yet read are in the ring, in order, between the two positions. */
  ghost predicate RingHolds(s: Sys) {
    && Sound(s) && 0 <= Stored(s) <= BUFFER_SIZE && s.taken <= s.written
    && s.readPos == PlaceOf(|s.taken|) && s.writePos == PlaceOf(|s.written|)
    && forall k | |s.taken| <= k < |s.written| :: s.buffer[PlaceOf(k)] == s.written[k]
  }

  /** Every place of the ring, and every byte in it, has exactly one unit somewhere. */
  ghost predicate UnitsAddUp(s: Sys) {
    && s.free.value + |Those(s.place, HasFree)| + |Those(s.place, HasTaken)| + s.lostFree + Stored(s) == BUFFER_SIZE
    && s.data.value + |Those(s.place, HasData)| + |Those(s.place, HasStored)| + s.lostData == Stored(s)
    && s.free.value >= 0 && s.data.value >= 0
  }

  /** Exactly the queued processes that are alive wait, each in one queue. */
  ghost predicate QueueHolds(q: Sem, s: Sys, x: Place) {
    && SemInv(q) && Distinct(q.queue)
    && (forall p <- q.queue :: 1 <= p <= MAX_PROCESSES && (p in s.alive ==> At(s, p, x)))
    && forall p :: At(s, p, x) ==> p in q.queue
  }

  ghost predicate PipeInv(s: Sys) {
    && RingHolds(s) && UnitsAddUp(s)
    && QueueHolds(s.free, s, WaitsFree) && QueueHolds(s.data, s, WaitsData)
    && s.place.Keys <= s.alive && forall p <- s.alive :: 1 <= p <= MAX_PROCESSES
  }

  // ----- every step keeps it -----

  lemma ThoseMove(place: map<int, Place>, p: int, x: Place, y: Place)
    ensures Those(place[p := x], y) == if x == y then Those(place, y) + {p} else Those(place, y) - {p}
    ensures p in Those(place, y) <==> p in place && place[p] == y
  {
  }

  lemma ThoseLeave(place: map<int, Place>, p: int, y: Place)
    ensures Those(place - {p}, y) == Those(place, y) - {p}
    ensures p in Those(place, y) <==> p in place && place[p] == y
  {
  }

  /** How the counts move with one process. */
  lemma CountMove(place: map<int, Place>, p: int, x: Place, y: Place)
    ensures |Those(place[p := x], y)| + (if p in place && place[p] == y then 1 else 0)
            == |Those(place, y)| + (if x == y then 1 else 0)
  {
    ThoseMove(place, p, x, y);
  }

  lemma CountLeave(place: map<int, Place>, p: int, y: Place)
    ensures |Those(place - {p}, y)| + (if p in place && place[p] == y then 1 else 0) == |Those(place, y)|
  {
    ThoseLeave(place, p, y);
  }

  lemma MoveCounts(place: map<int, Place>, p: int, x: Place)
    ensures forall y ::
              |Those(place[p := x], y)| + (if p in place && place[p] == y then 1 else 0) == |Those(place, y)| + (if x == y then 1 else 0)
  {
    forall y ensures |Those(place[p := x], y)| + (if p in place && place[p] == y then 1 else 0)
                     == |Those(place, y)| + (if x == y then 1 else 0) { CountMove(place, p, x, y); }
  }

  lemma LeaveCounts(place: map<int, Place>, p: int)
    ensures forall y :: |Those(place - {p}, y)| + (if p in place && place[p] == y then 1 else 0) == |Those(place, y)|
  {
    forall y ensures |Those(place - {p}, y)| + (if p in place && place[p] == y then 1 else 0) == |Those(place, y)| {
      CountLeave(place, p, y);
    }
  }

  /** A granted writer finds a free place, and what it stores overwrites nothing unread. */
  lemma StoreKeeps(s: Sys, p: int, b: Byte)
    requires PipeInv(s) && At(s, p, HasFree)
    ensures Stored(s) < BUFFER_SIZE && PipeInv(Step(s, WriterStores(p, b)))
  {
    hide PlaceOf, Advance;
    MoveCounts(s.place, p, HasStored);
    NextPlace(|s.written|);
    var t := Step(s, WriterStores(p, b));
    forall k | |t.taken| <= k < |t.written| ensures t.buffer[PlaceOf(k)] == t.written[k] {
      if k < |s.written| { DistinctPlaces(k, |s.written|); }
    }
  }

  lemma DistinctPlaces(i: nat, j: nat)
    requires i < j < i + BUFFER_SIZE
    ensures PlaceOf(i) != PlaceOf(j)
  {
  }

  lemma NextPlace(k: nat)
    ensures PlaceOf(k + 1) == Advance(PlaceOf(k))
  {
  }

  /** A granted reader finds a byte, and it is the oldest one not yet read. */
  lemma TakeKeeps(s: Sys, p: int)
    requires PipeInv(s) && At(s, p, HasData)
    ensures |s.taken| < |s.written| && Step(s, ReaderTakes(p)).taken == s.taken + [s.written[|s.taken|]]
    ensures PipeInv(Step(s, ReaderTakes(p)))
  {
    hide PlaceOf, Advance;
    MoveCounts(s.place, p, HasTaken);
    NextPlace(|s.taken|);
    assert s.buffer[PlaceOf(|s.taken|)] == s.written[|s.taken|];
  }

  lemma NotQueued(q: Sem, s: Sys, x: Place, p: int)
    requires QueueHolds(q, s, x) && p in s.alive && p !in s.place
    ensures p !in q.queue
  {
  }

  lemma RoomFor(q: Sem, s: Sys, x: Place, p: int)
    requires QueueHolds(q, s, x) && p !in q.queue && 1 <= p <= MAX_PROCESSES
    ensures |q.queue| < MAX_PROCESSES
  {
    RingNeverFull(q, p);
  }

  /** A queue keeps its processes when one joins it, or moves elsewhere between places that are not its own. */
  lemma QueueEnqueue(q: Sem, s: Sys, x: Place, p: int, t: Sys)
    requires QueueHolds(q, s, x) && q.value == 0 && p !in q.queue && p in s.alive && 1 <= p <= MAX_PROCESSES
    requires t.place == s.place[p := x] && t.alive == s.alive
    ensures QueueHolds(q.(queue := q.queue + [p]), t, x)
  {
  }

  lemma QueueElsewhere(q: Sem, v: int, s: Sys, x: Place, t: Sys)
    requires QueueHolds(q, s, x) && t.alive == s.alive && forall p :: At(t, p, x) <==> At(s, p, x)
    requires v >= -1 && (v != 0 ==> q.queue == [])
    ensures QueueHolds(Sem(v, q.queue), t, x)
  {
  }

  lemma QueuePost(q: Sem, s: Sys, x: Place, y: Place, t: Sys)
    requires QueueHolds(q, s, x) && q.value >= 0 && x != y && t.alive == s.alive && s.place.Keys <= s.alive
    requires var r := Post(q, s.alive).1; t.place == if r.Handed? then s.place[r.pid := y] else s.place
    ensures QueueHolds(Post(q, s.alive).0, t, x)
    ensures Post(q, s.alive).1.Handed? ==> At(s, Post(q, s.alive).1.pid, x) && Post(q, s.alive).1.pid in s.alive
    ensures Post(q, s.alive).0.value == q.value + if Post(q, s.alive).1.Handed? then 0 else 1
  {
    hide Post, Distinct;
    PostServesFirstLive(q, s.alive);
    PostKeepsDistinct(q, s.alive);
    var (u, r) := Post(q, s.alive);
    forall p
      ensures p in u.queue ==> p in q.queue
      ensures p in s.alive ==> (p in u.queue <==> p in q.queue && r != Handed(p))
    {
      PostKeepsQueue(q, s.alive, p);
    }
  }

  lemma WaitFreeKeeps(s: Sys, p: int)
    requires PipeInv(s) && Enabled(s, WriterWaits(p))
    ensures PipeInv(Step(s, WriterWaits(p)))
  {
    hide QueueHolds, RingHolds;
    QueueFacts(s);
    NotQueued(s.free, s, WaitsFree, p);
    RoomFor(s.free, s, WaitsFree, p);
    var t := Step(s, WriterWaits(p));
    MoveCounts(s.place, p, t.place[p]);
    RingSame(s, t);
    QueueElsewhere(s.data, s.data.value, s, WaitsData, t);
    if s.free.value == 0 {
      QueueEnqueue(s.free, s, WaitsFree, p, t);
    } else {
      QueueElsewhere(s.free, s.free.value - 1, s, WaitsFree, t);
    }
  }

  lemma WaitDataKeeps(s: Sys, p: int)
    requires PipeInv(s) && Enabled(s, ReaderWaits(p))
    ensures PipeInv(Step(s, ReaderWaits(p)))
  {
    hide QueueHolds, RingHolds;
    QueueFacts(s);
    NotQueued(s.data, s, WaitsData, p);
    RoomFor(s.data, s, WaitsData, p);
    var t := Step(s, ReaderWaits(p));
    MoveCounts(s.place, p, t.place[p]);
    RingSame(s, t);
    QueueElsewhere(s.free, s.free.value, s, WaitsFree, t);
    if s.data.value == 0 {
      QueueEnqueue(s.data, s, WaitsData, p, t);
    } else {
      QueueElsewhere(s.data, s.data.value - 1, s, WaitsData, t);
    }
  }

  lemma QueueFacts(s: Sys)
    requires PipeInv(s)
    ensures SemInv(s.free) && SemInv(s.data) && Sound(s)
  {
  }

  lemma RingSame(s: Sys, t: Sys)
    requires RingHolds(s) && t.buffer == s.buffer && t.readPos == s.readPos && t.writePos == s.writePos
    requires t.written == s.written && t.taken == s.taken
    ensures RingHolds(t)
  {
  }

  lemma PostDataKeeps(s: Sys, p: int)
    requires PipeInv(s) && At(s, p, HasStored)
    ensures PipeInv(Step(s, WriterPosts(p)))
  {
    hide QueueHolds, RingHolds, Post;
    QueueFacts(s);
    var a, t := Leave(s, p), Step(s, WriterPosts(p));
    LeaveCounts(s.place, p);
    QueueElsewhere(s.free, s.free.value, s, WaitsFree, a);
    QueueElsewhere(s.data, s.data.value, s, WaitsData, a);
    QueuePost(a.data, a, WaitsData, HasData, t);
    var r := Post(a.data, a.alive).1;
    if r.Handed? {
      MoveCounts(a.place, r.pid, HasData);
    }
    QueueElsewhere(a.free, a.free.value, a, WaitsFree, t);
    RingSame(s, t);
  }

  lemma PostFreeKeeps(s: Sys, p: int)
    requires PipeInv(s) && At(s, p, HasTaken)
    ensures PipeInv(Step(s, ReaderPosts(p)))
  {
    hide QueueHolds, RingHolds, Post;
    QueueFacts(s);
    var a, t := Leave(s, p), Step(s, ReaderPosts(p));
    LeaveCounts(s.place, p);
    QueueElsewhere(s.free, s.free.value, s, WaitsFree, a);
    QueueElsewhere(s.data, s.data.value, s, WaitsData, a);
    QueuePost(a.free, a, WaitsFree, HasFree, t);
    var r := Post(a.free, a.alive).1;
    if r.Handed? {
      MoveCounts(a.place, r.pid, HasFree);
    }
    QueueElsewhere(a.data, a.data.value, a, WaitsData, t);
    RingSame(s, t);
  }

  lemma StartsKeeps(s: Sys, p: int)
    requires PipeInv(s) && Enabled(s, Starts(p))
    ensures PipeInv(Step(s, Starts(p))) && Step(s, Starts(p)) == s.(alive := s.alive + {p})
  {
    RingSame(s, Step(s, Starts(p)));
  }

  lemma DiesKeeps(s: Sys, p: int)
    requires PipeInv(s) && Enabled(s, Dies(p))
    ensures PipeInv(Step(s, Dies(p)))
    ensures var t := Step(s, Dies(p));
            t.alive == s.alive - {p} && t.place == s.place - {p} && t.free == s.free && t.data == s.data
  {
    LeaveCounts(s.place, p);
    RingSame(s, Step(s, Dies(p)));
  }

  lemma StepKeeps(s: Sys, e: Event)
    requires PipeInv(s) && Enabled(s, e)
    ensures Sound(s) && PipeInv(Step(s, e))
  {
    hide PipeInv, Step;
    SoundOf(s);
    match e
    case WriterWaits(p) => WaitFreeKeeps(s, p);
    case WriterStores(p, b) => StoreKeeps(s, p, b);
    case WriterPosts(p) => PostDataKeeps(s, p);
    case ReaderWaits(p) => WaitDataKeeps(s, p);
    case ReaderTakes(p) => TakeKeeps(s, p);
    case ReaderPosts(p) => PostFreeKeeps(s, p);
    case Starts(p) => StartsKeeps(s, p);
    case Dies(p) => DiesKeeps(s, p);
    case Woken(p) => NotWaiting(s, p);
  }

  lemma NotWaiting(s: Sys, p: int)
    requires Sound(s) && !At(s, p, WaitsFree) && !At(s, p, WaitsData)
    ensures Step(s, Woken(p)) == s
  {
  }

  /** A step keeps the invariant if and only if it is harmless. */
  lemma StepKeepsIff(s: Sys, e: Event)
    requires PipeInv(s) && Possible(s, e)
    ensures Sound(s) && (PipeInv(Step(s, e)) <==> Harmless(s, e))
  {
    hide RingHolds, UnitsAddUp;
    SoundOf(s);
    if Harmless(s, e) {
      StepKeeps(s, e);
    } else {
      match e
      case Starts(p) => assert p !in Step(s, e).place;
      case Woken(p) => assert p in s.free.queue || p in s.data.queue;
    }
  }

  lemma SoundOf(s: Sys)
    requires PipeInv(s)
    ensures Sound(s)
  {
  }

  ghost predicate Reaches(s: Sys, es: seq<Event>, t: Sys)
    decreases |es|
  {
    if es == [] then t == s else Sound(s) && Enabled(s, es[0]) && Reaches(Step(s, es[0]), es[1..], t)
  }

  lemma {:induction false} RunKeeps(s: Sys, es: seq<Event>, t: Sys)
    requires PipeInv(s) && Reaches(s, es, t)
    ensures PipeInv(t)
    decreases |es|
  {
    hide PipeInv, Step, Enabled;
    if es != [] {
      StepKeeps(s, es[0]);
      RunKeeps(Step(s, es[0]), es[1..], t);
    }
  }

  lemma InitKeeps(alive: set<int>)
    requires forall p <- alive :: 1 <= p <= MAX_PROCESSES
    ensures PipeInv(Init(alive))
  {
  }

  // ----- what the events say -----

  /** The bytes that writers have stored in a run, in order. */
  function BytesStored(es: seq<Event>): seq<Byte> {
    if es == [] then []
    else BytesStored(es[..|es| - 1]) + if es[|es| - 1].WriterStores? then [es[|es| - 1].b] else []
  }

  function ReadsDone(es: seq<Event>): nat {
    if es == [] then 0 else ReadsDone(es[..|es| - 1]) + if es[|es| - 1].ReaderTakes? then 1 else 0
  }

  /** How many processes have died in a run while they were at x or y. */
  ghost function DeathsAt(s: Sys, es: seq<Event>, x: Place, y: Place): nat {
    if es == [] then 0
    else
      var e, u := es[|es| - 1], After(s, es[..|es| - 1]);
      DeathsAt(s, es[..|es| - 1], x, y) + if e.Dies? && (At(u, e.pid, x) || At(u, e.pid, y)) then 1 else 0
  }

  ghost function After(s: Sys, es: seq<Event>): Sys {
    if es == [] then s
    else
      var u := After(s, es[..|es| - 1]);
      if Sound(u) then Step(u, es[|es| - 1]) else u
  }

  /** The counters of a state are what the events of the run add up to. */
  ghost predicate Booked(s: Sys, es: seq<Event>, t: Sys) {
    && t == After(s, es) && t.written == BytesStored(es) && |t.taken| == ReadsDone(es)
    && t.lostFree == DeathsAt(s, es, HasFree, HasTaken) && t.lostData == DeathsAt(s, es, HasData, HasStored)
  }

  lemma StepBooked(s: Sys, es: seq<Event>, t: Sys, e: Event)
    requires Sound(t) && Booked(s, es, t)
    ensures Booked(s, es + [e], Step(t, e))
  {
    hide Post, Wait, Advance;
    assert (es + [e])[..|es|] == es;
  }

  lemma {:induction false} RunBooked(s: Sys, es: seq<Event>, t: Sys, fs: seq<Event>, u: Sys)
    requires Booked(s, es, t) && Reaches(t, fs, u)
    ensures Booked(s, es + fs, u)
    decreases |fs|
  {
    hide Booked, Step, Enabled;
    if fs == [] {
      assert es + fs == es;
    } else {
      StepBooked(s, es, t, fs[0]);
      assert es + fs == (es + [fs[0]]) + fs[1..];
      RunBooked(s, es + [fs[0]], Step(t, fs[0]), fs[1..], u);
    }
  }

  lemma InitBooked(alive: set<int>, es: seq<Event>, t: Sys)
    requires Reaches(Init(alive), es, t)
    ensures Booked(Init(alive), es, t)
  {
    hide Reaches;
    RunBooked(Init(alive), [], Init(alive), es, t);
    assert [] + es == es;
  }

  /** What a post does to a semaphore and to those who wait for it at x, where y is the place of one who has a unit. */
  ghost predicate HandedOn(q: Sem, s: Sys, p: int, x: Place, y: Place, q': Sem, t: Sys) {
    if exists i :: FirstAlive(q.queue, s.alive, i)
    then exists i :: FirstAlive(q.queue, s.alive, i) && At(s, q.queue[i], x) && q' == Sem(q.value, q.queue[i + 1..])
                     && t.place == (s.place - {p})[q.queue[i] := y]
    else q' == Sem(q.value + 1, []) && t.place == s.place - {p} && forall w :: !At(s, w, x)
  }

  ghost predicate FirstAlive(queue: seq<int>, alive: set<int>, i: int) {
    0 <= i < |queue| && queue[i] in alive && forall j | 0 <= j < i :: queue[j] !in alive
  }

  lemma WaitersAreLive(q: Sem, s: Sys, x: Place)
    requires QueueHolds(q, s, x) && s.place.Keys <= s.alive
    ensures (exists w :: At(s, w, x)) ==> HasLive(q.queue, s.alive)
  {
    if w :| At(s, w, x) { assert w in q.queue && w in s.alive; }
  }

  lemma PostHandsOn(q: Sem, s: Sys, p: int, x: Place, y: Place, t: Sys)
    requires QueueHolds(q, s, x) && q.value >= 0 && s.place.Keys <= s.alive && !At(s, p, x)
    requires var r := Post(q, s.alive).1; t.place == if r.Handed? then (s.place - {p})[r.pid := y] else s.place - {p}
    ensures HandedOn(q, s, p, x, y, Post(q, s.alive).0, t)
  {
    hide Post, Distinct;
    PostServesFirstLive(q, s.alive);
    var (u, r) := Post(q, s.alive);
    if r.Handed? {
      var i :| 0 <= i < |q.queue| && q.queue[i] == r.pid && r.pid in s.alive && u.queue == q.queue[i + 1..]
               && forall j | 0 <= j < i :: q.queue[j] !in s.alive;
      assert FirstAlive(q.queue, s.alive, i) && r.pid in q.queue;
      assert u == Sem(q.value, q.queue[i + 1..]);
    } else {
      WaitersAreLive(q, s, x);
    }
  }

  /** A reader that has taken a byte announces the place: the writer that has waited longest gets it, or it is on offer. */
  lemma PlaceIsAnnounced(s: Sys, p: int)
    requires PipeInv(s) && At(s, p, HasTaken)
    ensures Sound(s)
    ensures var t := Step(s, ReaderPosts(p));
            t.lostFree == s.lostFree && t.data == s.data && HandedOn(s.free, s, p, WaitsFree, HasFree, t.free, t)
  {
    hide Post, QueueHolds, HandedOn;
    ValuesKnown(s);
    PostHandsOn(s.free, s, p, WaitsFree, HasFree, Step(s, ReaderPosts(p)));
  }

  /** So a writer announces the byte it has stored. */
  lemma ByteIsAnnounced(s: Sys, p: int)
    requires PipeInv(s) && At(s, p, HasStored)
    ensures Sound(s)
    ensures var t := Step(s, WriterPosts(p));
            t.lostData == s.lostData && t.free == s.free && HandedOn(s.data, s, p, WaitsData, HasData, t.data, t)
  {
    hide Post, QueueHolds, HandedOn;
    ValuesKnown(s);
    PostHandsOn(s.data, s, p, WaitsData, HasData, Step(s, WriterPosts(p)));
  }

  lemma ValuesKnown(s: Sys)
    requires PipeInv(s)
    ensures Sound(s) && s.free.value >= 0 && s.data.value >= 0 && s.place.Keys <= s.alive
  {
  }

  /**
   The pipe is a queue of bytes: after any interleaving of writers and readers, also
   when some of them die, the bytes read are a prefix of the bytes stored, as many as
   there were reads, at most 2048 are stored, and every byte not yet read is still in
   its place in the ring.
   */
  lemma FirstInFirstOut(alive: set<int>, es: seq<Event>, t: Sys)
    requires (forall p <- alive :: 1 <= p <= MAX_PROCESSES) && Reaches(Init(alive), es, t)
    ensures t.taken <= BytesStored(es) && |t.taken| == ReadsDone(es) && |BytesStored(es)| - ReadsDone(es) <= 2048
    ensures |t.buffer| == 2048
    ensures forall k | ReadsDone(es) <= k < |BytesStored(es)| :: t.buffer[PlaceOf(k)] == BytesStored(es)[k]
  {
    hide Reaches, Init, UnitsAddUp, QueueHolds, BytesStored, ReadsDone, DeathsAt, After;
    InitKeeps(alive);
    RunKeeps(Init(alive), es, t);
    InitBooked(alive, es, t);
  }

  /**
   Nothing is stuck: once everyone has finished what it was granted, the free places and
   the stored bytes are on offer again, but for one unit for each process that died with
   one.  If nobody has, a waiting reader means an empty pipe and a waiting writer a full one.
   */
  lemma UnitsComeBack(alive: set<int>, es: seq<Event>, t: Sys)
    requires (forall p <- alive :: 1 <= p <= MAX_PROCESSES) && Reaches(Init(alive), es, t)
    requires forall p <- t.place :: t.place[p] == WaitsFree || t.place[p] == WaitsData
    ensures var (stored, s) := (|BytesStored(es)| - ReadsDone(es), Init(alive));
            && t.data.value == stored - DeathsAt(s, es, HasData, HasStored)
            && t.free.value == 2048 - stored - DeathsAt(s, es, HasFree, HasTaken)
            && ((exists p :: At(t, p, WaitsData)) ==> t.data.value == 0)
            && ((exists p :: At(t, p, WaitsFree)) ==> t.free.value == 0)
  {
    hide Reaches, Init, BytesStored, ReadsDone, DeathsAt, After;
    InitKeeps(alive);
    RunKeeps(Init(alive), es, t);
    InitBooked(alive, es, t);
    forall y | y != WaitsFree && y != WaitsData ensures |Those(t.place, y)| == 0 { NobodyThere(t.place, y); }
    if p :| At(t, p, WaitsData) { assert p in t.data.queue; }
    if p :| At(t, p, WaitsFree) { assert p in t.free.queue; }
  }

  /** Without deaths no unit is lost. */
  lemma {:induction false} NobodyDied(s: Sys, es: seq<Event>, x: Place, y: Place)
    requires forall e <- es :: !e.Dies?
    ensures DeathsAt(s, es, x, y) == 0
  {
    if es != [] {
      assert es[|es| - 1] in es;
      NobodyDied(s, es[..|es| - 1], x, y);
    }
  }

  /** Woken by anything else, a reader of the empty pipe reads a byte that nobody wrote. */
  lemma ReadsWhatNobodyWrote(p: int) returns (s: Sys, t: Sys)
    requires 1 <= p <= MAX_PROCESSES
    ensures Reaches(Init({p}), [ReaderWaits(p)], s) && Sound(s) && Possible(s, Woken(p))
    ensures Reaches(Step(s, Woken(p)), [ReaderTakes(p)], t) && t.written == [] && t.taken == [0]
  {
    s := Step(Init({p}), ReaderWaits(p));
    t := Step(Step(s, Woken(p)), ReaderTakes(p));
    assert [ReaderWaits(p)][1..] == [] && [ReaderTakes(p)][1..] == [];
  }

  lemma NobodyThere(place: map<int, Place>, y: Place)
    requires forall p <- place :: place[p] != y
    ensures |Those(place, y)| == 0
  {
    assert (forall p :: p !in Those(place, y)) ==> Those(place, y) == {};
  }

  // ----- the ring in place -----

  lemma AdvanceIsSlot(pos: nat)
    ensures Advance(pos) == Slot(BUFFER_SIZE, pos, 1)
  {
  }

  class Ring {
    const buffer: array<Byte>
    var readPos: nat
    var writePos: nat
    var data: nat
    var free: nat

    ghost predicate Valid()
      reads this
    {
      && buffer.Length == BUFFER_SIZE && readPos < BUFFER_SIZE && data + free == BUFFER_SIZE
      && writePos == Slot(BUFFER_SIZE, readPos, data)
    }

    /** The bytes stored, from the oldest on. */
    ghost function Contents(): (c: seq<Byte>)
      requires Valid()
      reads this, buffer
      ensures |c| == data
    {
      RingSeq(buffer[..], readPos, data)
    }

    constructor ()
      ensures Valid() && Contents() == [] && fresh(buffer)
    {
      buffer := new Byte[BUFFER_SIZE](_ => 0);
      readPos, writePos, data, free := 0, 0, 0, BUFFER_SIZE;
    }

    /** pipe_write up to the first byte it would have to wait for: how many it has written by then. */
    method Write(bytes: seq<Byte>) returns (written: nat)
      requires Valid()
      modifies this`writePos, this`data, this`free, buffer
      ensures Valid() && written == (if |bytes| <= old(free) then |bytes| else old(free))
      ensures Contents() == old(Contents()) + bytes[..written]
    {
      hide RingSeq, Slot, Advance;
      written := 0;
      ghost var c := Contents();
      assert c + bytes[..0] == c;
      while written < |bytes| && free > 0
        invariant Valid() && written <= |bytes| && free + written == old(free)
        invariant Contents() == c + bytes[..written]
      {
        RingPush(buffer[..], readPos, data, bytes[written]);
        AdvanceIsSlot(writePos);
        ghost var was := buffer[..];
        free := free - 1;
        buffer[writePos] := bytes[written];
        assert buffer[..] == was[writePos := bytes[written]];
        writePos := Advance(writePos);
        MoreWritten(c, bytes, written);
        written := written + 1;
        data := data + 1;
      }
    }

    /** pipe_read up to the first byte it would have to wait for. */
    method Read(count: nat) returns (bytes: seq<Byte>)
      requires Valid()
      modifies this`readPos, this`data, this`free
      ensures Valid() && |bytes| == if count <= old(data) then count else old(data)
      ensures old(Contents()) == bytes + Contents()
    {
      hide RingSeq, Slot, Advance;
      bytes := [];
      ghost var c := Contents();
      assert c == [] + c;
      while |bytes| < count && data > 0
        invariant Valid() && |bytes| <= count && data + |bytes| == old(data)
        invariant c == bytes + Contents()
      {
        RingPop(buffer[..], readPos, data);
        AdvanceIsSlot(readPos);
        MoreRead(bytes, buffer[readPos], RingSeq(buffer[..], Advance(readPos), data - 1));
        data := data - 1;
        bytes := bytes + [buffer[readPos]];
        readPos := Advance(readPos);
        free := free + 1;
      }
    }
  }

  lemma MoreWritten(c: seq<Byte>, bytes: seq<Byte>, n: nat)
    requires n < |bytes|
    ensures (c + bytes[..n]) + [bytes[n]] == c + bytes[..n + 1]
  {
  }

  lemma MoreRead(bytes: seq<Byte>, x: Byte, rest: seq<Byte>)
    ensures bytes + ([x] + rest) == (bytes + [x]) + rest
  {
  }
}
