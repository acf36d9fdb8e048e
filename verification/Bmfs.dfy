/**
 Placement of new files on a BMFS disk: create() looks through a copy of the
 directory, sorted by starting block, for a gap between two files.
 */
module Bmfs {

  datatype Mark = End | Unused | Used

  const DELETED: char := '\U{1}'

  /** The first byte of a name says what its record is. */
  function MarkOf(name: string): Mark {
    if name == "" then End else if name[0] == DELETED then Unused else Used
  }

  /** A directory record, with its name up to the terminating zero; a deleted one keeps its extent. */
  datatype Record = Record(name: string, start: nat, reserved: nat, size: nat) {
    function Is(): Mark { MarkOf(name) }
  }

  const ENTRIES := 64
  const TWO_64: int := 0x1_0000_0000_0000_0000

  /** Arithmetic on unsigned long long */
  function U64(x: int): (y: nat)
    ensures 0 <= x < TWO_64 ==> y == x
  {
    x % TWO_64
  }

  const TWO_31: int := 0x8000_0000

  /** The int that a 64-bit difference is returned as */
  function ToInt(x: int): (y: int)
    ensures -TWO_31 <= x < TWO_31 ==> y == x
  {
    (x + TWO_31) % (2 * TWO_31) - TWO_31
  }

  function EndOf(r: Record): nat { U64(r.start + r.reserved) }

  /** The order in which qsort puts records: live ones by starting block, deleted ones last. */
  function StartingBlockCmp(a: Record, b: Record): int {
    if a.Is() == Unused then 1
    else if b.Is() == Unused then -1
    else ToInt(a.start - b.start)
  }

  /** What is left of the contract of qsort when the comparison calls two deleted records each the greater. */
  ghost predicate Sorted(s: seq<Record>) {
    forall i, j | 0 <= i < j < |s| :: !(StartingBlockCmp(s[i], s[j]) > 0 && StartingBlockCmp(s[j], s[i]) < 0)
  }

  // ----- reading the directory -----

  /** The first record with a mark, or the length if there is none. */
  function First(dir: seq<Record>, m: Mark): (i: nat)
    ensures i <= |dir| && (i < |dir| ==> dir[i].Is() == m) && forall j | 0 <= j < i :: dir[j].Is() != m
  {
    if dir == [] || dir[0].Is() == m then 0 else 1 + First(dir[1..], m)
  }

  /** The records in use or deleted: none at all when the end of the directory is not marked. */
  function NumUsed(dir: seq<Record>): (n: nat)
    ensures n <= |dir|
  {
    if First(dir, End) < |dir| then First(dir, End) else 0
  }

  /** Where a new record goes: the first deleted one, or else the end mark; -1 when there is neither. */
  function FirstFree(dir: seq<Record>): (i: int)
    ensures -1 <= i < |dir|
  {
    var n := First(dir, End);
    var u := First(dir[..n], Unused);
    if u < n then u else if n < |dir| then n else -1
  }

  /** findfile */
  predicate Exists(dir: seq<Record>, name: string) {
    exists i :: 0 <= i < First(dir, End) && dir[i].Is() == Used && dir[i].name == name
  }

  // ----- the search -----

  /** The search from the i-th record of the sorted copy on; 0 stands for nothing found. */
  function Search(s: seq<Record>, i: nat, prev: nat, last: int, request: nat): nat
    requires i <= |s|
    decreases |s| - i
  {
    var thisStart: int := if i == |s| || s[i].Is() == Unused then last else s[i].start;
    if U64(thisStart - prev) >= request then prev
    else if i == |s| then 0
    else Search(s, i + 1, EndOf(s[i]), last, request)
  }

  /** A start is free when the extent lies between block 1 and the last block and meets no live file. */
  ghost predicate Fits(recs: multiset<Record>, last: int, request: nat, x: nat) {
    1 <= x && x + request <= last && forall r <- recs :: r.Is() == Used ==> x + request <= r.start || r.start + r.reserved <= x
  }

  ghost predicate FitExists(recs: multiset<Record>, last: int, request: nat) {
    exists x: nat :: Fits(recs, last, request, x)
  }

  /** No place is free below x. */
  ghost predicate NoneBelow(recs: multiset<Record>, last: int, request: nat, x: nat) {
    forall y: nat | Fits(recs, last, request, y) :: x <= y
  }

  predicate Clear(a: Record, b: Record) {
    a.start + a.reserved <= b.start || b.start + b.reserved <= a.start
  }

  /**
   Live extents are not empty and do not overlap; all extents, also of deleted files,
   lie on the disk, whose block numbers an int can hold.
   */
  ghost predicate WellPlaced(recs: multiset<Record>, last: int) {
    && 1 <= last < TWO_31
    && (forall r <- recs :: r.Is() != End && 1 <= r.start && r.start + r.reserved <= last)
    && (forall r <- recs :: r.Is() == Used ==> r.reserved >= 1 && recs[r] == 1)
    && forall a, b | a in recs && b in recs && a != b && a.Is() == Used && b.Is() == Used :: Clear(a, b)
  }

  lemma SeenTwice(s: seq<Record>, i: nat, j: nat)
    requires i < j < |s| && s[i] == s[j]
    ensures multiset(s)[s[i]] >= 2
  {
    assert s == s[..j] + s[j..];
    assert s[i] in s[..j] && s[j] in s[j..];
  }

  /** The live records come first in the sorted copy, each ending before the next one starts. */
  lemma LiveInOrder(s: seq<Record>, last: int, i: nat, j: nat)
    requires WellPlaced(multiset(s), last) && Sorted(s) && i < j < |s| && s[j].Is() == Used
    ensures s[i].Is() == Used && s[i].start + s[i].reserved <= s[j].start
  {
    var a, b := s[i], s[j];
    assert a in multiset(s) && b in multiset(s);
    if a == b { SeenTwice(s, i, j); }
  }

  /** Every live record before i ends by prev, which is block 1 or more. */
  ghost predicate Passed(s: seq<Record>, i: nat, prev: nat)
    requires i <= |s|
  {
    prev >= 1 && forall k | 0 <= k < i :: s[k].Is() == Used && s[k].start + s[k].reserved <= prev
  }

  /** Whether the search has given the right answer: the least free place, or none when there is none. */
  ghost predicate Right(recs: multiset<Record>, last: int, request: nat, x: nat) {
    if FitExists(recs, last, request) then Fits(recs, last, request, x) && NoneBelow(recs, last, request, x) else x == 0
  }

  lemma GapClear(s: seq<Record>, i: nat, prev: nat, last: int, request: nat, k: nat)
    requires WellPlaced(multiset(s), last) && Sorted(s) && i <= |s| && Passed(s, i, prev)
    requires i < |s| && s[i].Is() == Used ==> prev + request <= s[i].start
    requires k < |s| && s[k].Is() == Used
    ensures prev + request <= s[k].start || s[k].start + s[k].reserved <= prev
  {
    hide WellPlaced, Sorted;
    if k > i { LiveInOrder(s, last, i, k); }
  }

  lemma OnDisk(s: seq<Record>, last: int, i: nat)
    requires WellPlaced(multiset(s), last) && i < |s|
    ensures 1 <= s[i].start && s[i].start + s[i].reserved <= last < TWO_31
  {
    assert s[i] in multiset(s);
  }

  /** The search comes right at the first gap that is wide enough. */
  lemma GapFits(s: seq<Record>, i: nat, prev: nat, last: int, request: nat)
    requires WellPlaced(multiset(s), last) && Sorted(s) && i <= |s| && Passed(s, i, prev)
    requires NoneBelow(multiset(s), last, request, prev)
    requires if i < |s| && s[i].Is() == Used then prev + request <= s[i].start else prev + request <= last
    ensures Right(multiset(s), last, request, prev)
  {
    hide WellPlaced, Sorted, Passed, NoneBelow;
    var m := multiset(s);
    forall r | r in m && r.Is() == Used ensures prev + request <= r.start || r.start + r.reserved <= prev {
      var k :| 0 <= k < |s| && s[k] == r;
      GapClear(s, i, prev, last, request, k);
    }
    if i < |s| { OnDisk(s, last, i); }
    PrevPositive(s, i, prev);
    assert Fits(m, last, request, prev);
  }

  lemma PrevPositive(s: seq<Record>, i: nat, prev: nat)
    requires i <= |s| && Passed(s, i, prev)
    ensures prev >= 1
  {
  }

  /** A gap that is too narrow leaves no free place below the end of the record behind it. */
  lemma GapTooNarrow(s: seq<Record>, i: nat, prev: nat, last: int, request: nat)
    requires WellPlaced(multiset(s), last) && Sorted(s) && i < |s| && s[i].Is() == Used && Passed(s, i, prev)
    requires NoneBelow(multiset(s), last, request, prev) && s[i].start < prev + request
    ensures EndOf(s[i]) == s[i].start + s[i].reserved <= last && Passed(s, i + 1, EndOf(s[i]))
    ensures NoneBelow(multiset(s), last, request, EndOf(s[i]))
    ensures i + 1 < |s| && s[i + 1].Is() == Used ==> EndOf(s[i]) <= s[i + 1].start
  {
    hide WellPlaced, Sorted, NoneBelow;
    OnDisk(s, last, i);
    forall k | 0 <= k < i ensures s[k].Is() == Used && s[k].start + s[k].reserved <= EndOf(s[i]) { LiveInOrder(s, last, k, i); }
    if i + 1 < |s| && s[i + 1].Is() == Used { LiveInOrder(s, last, i, i + 1); }
    NoneBelowNext(multiset(s), last, request, prev, s[i]);
  }

  lemma NoneBelowNext(m: multiset<Record>, last: int, request: nat, prev: nat, r: Record)
    requires NoneBelow(m, last, request, prev) && r in m && r.Is() == Used && r.start < prev + request
    requires EndOf(r) == r.start + r.reserved
    ensures NoneBelow(m, last, request, EndOf(r))
  {
  }

  ghost predicate Rewinds(r: Record, last: int, request: nat) {
    r.Is() == Unused && r.start + r.reserved + request <= last
  }

  /** Behind the live records the search looks only at where deleted files used to end. */
  lemma {:induction false} SearchDeleted(s: seq<Record>, i: nat, prev: nat, last: int, request: nat)
    requires WellPlaced(multiset(s), last) && i <= |s| && prev <= last < prev + request
    requires forall k | i <= k < |s| :: s[k].Is() == Unused
    ensures Search(s, i, prev, last, request) != 0 <==> exists k :: i <= k < |s| && Rewinds(s[k], last, request)
    decreases |s| - i
  {
    if i < |s| {
      assert s[i] in multiset(s);
      var end := EndOf(s[i]);
      if !Rewinds(s[i], last, request) {
        SearchDeleted(s, i + 1, end, last, request);
      }
    }
  }

  /** From block 1 on, the answer is right unless there is no room and the end of some deleted file is far enough from the end. */
  lemma {:induction false} SearchFrom(s: seq<Record>, i: nat, prev: nat, last: int, request: nat)
    requires WellPlaced(multiset(s), last) && Sorted(s)
    requires i <= |s| && Passed(s, i, prev) && prev <= last && NoneBelow(multiset(s), last, request, prev)
    requires i < |s| && s[i].Is() == Used ==> prev <= s[i].start
    ensures Right(multiset(s), last, request, Search(s, i, prev, last, request)) <==>
            FitExists(multiset(s), last, request) || !exists k :: i <= k < |s| && Rewinds(s[k], last, request)
    decreases |s| - i
  {
    var m := multiset(s);
    if i < |s| { assert s[i] in m; }
    if i < |s| && s[i].Is() == Used {
      if prev + request <= s[i].start {
        GapFits(s, i, prev, last, request);
        assert FitExists(m, last, request);
      } else {
        GapTooNarrow(s, i, prev, last, request);
        SearchFrom(s, i + 1, EndOf(s[i]), last, request);
      }
    } else if prev + request <= last {
      GapFits(s, i, prev, last, request);
      assert FitExists(m, last, request);
    } else {
      forall k | i <= k < |s| ensures s[k].Is() == Unused { DeletedLast(s, last, i, k); }
      SearchDeleted(s, i, prev, last, request);
      assert !FitExists(m, last, request);
    }
  }

  lemma DeletedLast(s: seq<Record>, last: int, i: nat, k: nat)
    requires WellPlaced(multiset(s), last) && Sorted(s) && i <= k < |s| && s[i].Is() != Used
    ensures s[k].Is() == Unused
  {
    assert s[i] in multiset(s) && s[k] in multiset(s);
    if i < k && s[k].Is() == Used { LiveInOrder(s, last, i, k); }
  }

  /**
   With the records it is given, the search is right exactly when there is room or no
   deleted file ended far enough from the end of the disk.
   */
  lemma SearchExact(recs: seq<Record>, s: seq<Record>, last: int, request: nat)
    requires WellPlaced(multiset(recs), last) && multiset(s) == multiset(recs) && Sorted(s)
    ensures Right(multiset(recs), last, request, Search(s, 0, 1, last, request)) <==>
            FitExists(multiset(recs), last, request) || forall r <- recs :: !Rewinds(r, last, request)
  {
    if |s| > 0 { assert s[0] in multiset(s); }
    SearchFrom(s, 0, 1, last, request);
    forall r ensures r in recs <==> r in s { assert r in multiset(recs) <==> r in multiset(s); }
    if k :| 0 <= k < |s| && Rewinds(s[k], last, request) { assert s[k] in recs; }
    if r :| r in recs && Rewinds(r, last, request) {
      var k :| 0 <= k < |s| && s[k] == r;
    }
  }

  /** The records of a directory up to its end mark, or all of them. */
  function Records(dir: seq<Record>): seq<Record> {
    dir[..First(dir, End)]
  }

  /**
   When the search comes right: with an end mark, if there is room or no deleted file
   ended far enough from the end of the disk; without one, when no record is looked at,
   if block 1 is a free place or the request is larger than the disk.
   */
  ghost predicate ComesRight(dir: seq<Record>, last: int, request: nat) {
    var recs := multiset(Records(dir));
    if First(dir, End) < |dir| then FitExists(recs, last, request) || forall r <- Records(dir) :: !Rewinds(r, last, request)
    else Fits(recs, last, request, 1) || 1 + request > last
  }

  /** For every directory the search finds the least free place, or none when there is none, exactly in these cases. */
  lemma SearchRight(dir: seq<Record>, copy: seq<Record>, last: int, request: nat)
    requires WellPlaced(multiset(Records(dir)), last) && multiset(copy) == multiset(dir[..NumUsed(dir)]) && Sorted(copy)
    ensures Right(multiset(Records(dir)), last, request, Search(copy, 0, 1, last, request)) <==> ComesRight(dir, last, request)
  {
    if First(dir, End) < |dir| {
      SearchExact(Records(dir), copy, last, request);
    } else {
      NothingToCopy(dir, copy);
      assert Search(copy, 0, 1, last, request) == if 1 + request <= last then 1 else 0;
    }
  }

  lemma NothingToCopy(dir: seq<Record>, copy: seq<Record>)
    requires multiset(copy) == multiset(dir[..NumUsed(dir)]) && NumUsed(dir) == 0
    ensures copy == []
  {
    assert |multiset(copy)| == |copy|;
  }

  // ----- creating and deleting files -----

  /** Sizes are in MiB and blocks hold two of them. */
  function BlocksRequested(maxsize: nat): (n: nat)
    ensures maxsize >= 1 ==> n >= 1 && 2 * n >= maxsize && 2 * n <= maxsize + 1
  {
    (if maxsize % 2 != 0 then maxsize + 1 else maxsize) / 2
  }

  /** The index of the last block of the disk. */
  function LastBlock(disksize: nat): nat {
    U64(disksize / 2 - 1)
  }

  datatype Outcome = AlreadyExists | NoFreeEntry | NoRoom | Created(slot: nat, start: nat)

  function Put(dir: seq<Record>, slot: nat, r: Record, n: nat): seq<Record>
    requires slot < |dir| && n <= |dir|
  {
    var d := dir[slot := r];
    if slot == n && n + 1 < ENTRIES && n + 1 < |d| then d[n + 1 := d[n + 1].(name := "")] else d
  }

  /** create(), given what qsort makes of the records in use. */
  function Create(dir: seq<Record>, name: string, maxsize: nat, disksize: nat, copy: seq<Record>): (seq<Record>, Outcome)
    requires |dir| == ENTRIES
  {
    var request := BlocksRequested(maxsize);
    if Exists(dir, name) then (dir, AlreadyExists)
    else if FirstFree(dir) == -1 then (dir, NoFreeEntry)
    else
      var start := Search(copy, 0, 1, LastBlock(disksize), request);
      if start == 0 then (dir, NoRoom)
      else (Put(dir, FirstFree(dir), Record(name, start, request, 0), NumUsed(dir)), Created(FirstFree(dir), start))
  }

  /** What delete() makes of a record: it writes over the first byte of the name. */
  function Deleted(r: Record): (d: Record)
    ensures d.Is() == Unused && d.start == r.start && d.reserved == r.reserved && d.size == r.size
  {
    r.(name := [DELETED] + if r.name == "" then "" else r.name[1..])
  }

  function Delete(dir: seq<Record>, slot: nat): seq<Record>
    requires slot < |dir|
  {
    dir[slot := Deleted(dir[slot])]
  }

  lemma {:induction false} FirstIs(dir: seq<Record>, m: Mark, i: nat)
    requires i <= |dir| && (i < |dir| ==> dir[i].Is() == m) && forall j | 0 <= j < i :: dir[j].Is() != m
    ensures First(dir, m) == i
  {
  }

  /**
   Without an end mark no record is counted, so a new one in the very first slot is
   taken for one put in place of the end mark, and the second slot becomes the end.
   */
  predicate Forgets(dir: seq<Record>) {
    First(dir, End) == |dir| && FirstFree(dir) == 0
  }

  /** What a record put in the first free slot makes of the records, whatever its name. */
  lemma PutRecords(dir: seq<Record>, r: Record)
    requires |dir| == ENTRIES && FirstFree(dir) >= 0
    ensures var slot := FirstFree(dir);
            slot <= |Records(dir)| && (slot < |Records(dir)| ==> Records(dir)[slot].Is() == Unused)
            && Records(Put(dir, slot, r, NumUsed(dir))) ==
               if r.Is() == End then Records(dir)[..slot]
               else if Forgets(dir) then [r]
               else if slot < |Records(dir)| then Records(dir)[slot := r]
               else Records(dir) + [r]
  {
    hide Forgets, First, FirstFree;
    FreeFacts(dir);
    var slot, n := FirstFree(dir), First(dir, End);
    var d := Put(dir, slot, r, NumUsed(dir));
    if r.Is() == End { FirstIs(d, End, slot); }
    else if Forgets(dir) { ForgetsFacts(dir); FirstIs(d, End, 1); }
    else if slot < n { KeptFacts(dir); FirstIs(d, End, n); }
    else { FirstIs(d, End, n + 1); }
  }

  /** The first free slot is that of a deleted record, or the end mark's. */
  lemma FreeFacts(dir: seq<Record>)
    requires FirstFree(dir) >= 0
    ensures var n := First(dir, End);
            && FirstFree(dir) <= n && (FirstFree(dir) == n ==> n < |dir|)
            && (FirstFree(dir) < n ==> dir[FirstFree(dir)].Is() == Unused)
            && (n < |dir| ==> dir[n].Is() == End) && forall i | 0 <= i < n :: dir[i].Is() != End
  {
  }

  lemma ForgetsFacts(dir: seq<Record>)
    requires Forgets(dir)
    ensures FirstFree(dir) == 0 && First(dir, End) == |dir|
  {
  }

  lemma KeptFacts(dir: seq<Record>)
    requires !Forgets(dir) && FirstFree(dir) >= 0
    ensures First(dir, End) == |dir| ==> FirstFree(dir) > 0
  {
  }

  lemma AddPlaced(recs: multiset<Record>, last: int, request: nat, r: Record)
    requires WellPlaced(recs, last) && r.Is() != End && r.reserved == request >= 1 && Fits(recs, last, request, r.start)
    ensures WellPlaced(recs + multiset{r}, last)
  {
    var m := recs + multiset{r};
    assert r.Is() == Used ==> r !in recs;
    forall a | a in m ensures a in recs || a == r { }
  }

  lemma DropPlaced(recs: multiset<Record>, last: int, r: Record)
    requires WellPlaced(recs, last)
    ensures WellPlaced(recs - multiset{r}, last)
  {
    var m := recs - multiset{r};
    forall a | a in m ensures a in recs { }
  }

  // ----- what create() does to the files -----

  /** 64 records whose files do not overlap; copy is what qsort may make of those that are counted. */
  ghost predicate Orderly(dir: seq<Record>, disksize: nat, copy: seq<Record>) {
    && |dir| == ENTRIES && WellPlaced(multiset(Records(dir)), LastBlock(disksize))
    && multiset(copy) == multiset(dir[..NumUsed(dir)]) && Sorted(copy)
  }

  /** The file is where it should be, or refused for lack of room. */
  ghost predicate Served(recs: multiset<Record>, last: int, request: nat, outcome: Outcome) {
    match outcome
    case Created(_, start) => Fits(recs, last, request, start) && NoneBelow(recs, last, request, start)
    case NoRoom => !FitExists(recs, last, request)
    case _ => true
  }

  /**
   create() refuses a name that exists and a full directory; otherwise it puts the file
   at the least free place, and refuses when there is none, exactly in the directories
   in which the search comes right.
   */
  lemma CreateChooses(dir: seq<Record>, name: string, maxsize: nat, disksize: nat, copy: seq<Record>)
    requires Orderly(dir, disksize, copy)
    ensures var (dir', outcome), recs := Create(dir, name, maxsize, disksize, copy), multiset(Records(dir));
            var last, request := LastBlock(disksize), BlocksRequested(maxsize);
            && (outcome == AlreadyExists <==> Exists(dir, name))
            && (outcome == NoFreeEntry <==> !Exists(dir, name) && forall r <- dir :: r.Is() == Used)
            && (outcome.Created? || dir' == dir)
            && (outcome.Created? || outcome.NoRoom? ==> (Served(recs, last, request, outcome) <==> ComesRight(dir, last, request)))
  {
    hide WellPlaced, Fits, NoneBelow, Sorted, Search, ComesRight;
    SearchRight(dir, copy, LastBlock(disksize), BlocksRequested(maxsize));
    NoPlaceIsZero(multiset(Records(dir)), LastBlock(disksize), BlocksRequested(maxsize));
    NoneFree(dir);
  }

  lemma NoneFree(dir: seq<Record>)
    ensures FirstFree(dir) == -1 <==> forall r <- dir :: r.Is() == Used
  {
    var n := First(dir, End);
    if n < |dir| { assert dir[n] in dir; }
    else if First(dir[..n], Unused) < n { assert dir[First(dir[..n], Unused)] in dir; }
  }

  lemma NoPlaceIsZero(recs: multiset<Record>, last: int, request: nat)
    ensures !Fits(recs, last, request, 0)
  {
  }

  // ----- the same in MiB: blocks are of 2 MiB, the first and the last are not for files -----

  /** The disk has room for a file of this size from block x on, clear of every file. */
  ghost predicate FreeOn(recs: multiset<Record>, disksize: nat, maxsize: nat, x: nat) {
    && 1 <= x && 2 * x + maxsize + maxsize % 2 + 2 <= disksize
    && forall r <- recs :: r.Is() == Used ==> 2 * x + maxsize + maxsize % 2 <= 2 * r.start || r.start + r.reserved <= x
  }

  ghost predicate RoomOn(recs: multiset<Record>, disksize: nat, maxsize: nat) {
    exists x: nat :: FreeOn(recs, disksize, maxsize, x)
  }

  ghost predicate LeastOn(recs: multiset<Record>, disksize: nat, maxsize: nat, x: nat) {
    FreeOn(recs, disksize, maxsize, x) && forall y: nat | FreeOn(recs, disksize, maxsize, y) :: x <= y
  }

  /** Files are not empty and do not overlap, and every extent, also of a deleted file, lies on the disk. */
  ghost predicate LieOn(recs: multiset<Record>, disksize: nat) {
    && 4 <= disksize < 0x1_0000_0002
    && (forall r <- recs :: r.Is() != End && 1 <= r.start && 2 * (r.start + r.reserved) + 2 <= disksize)
    && (forall r <- recs :: r.Is() == Used ==> r.reserved >= 1 && recs[r] == 1)
    && forall a, b | a in recs && b in recs && a != b && a.Is() == Used && b.Is() == Used :: Clear(a, b)
  }

  /** A deleted file of which the end is far enough from the end of the disk. */
  ghost predicate Misleads(r: Record, disksize: nat, maxsize: nat) {
    r.Is() == Unused && 2 * (r.start + r.reserved) + maxsize + maxsize % 2 + 2 <= disksize
  }

  /** With an end mark, there is room or nothing misleads; without, block 1 is free or the disk too small. */
  ghost predicate ServesWell(dir: seq<Record>, disksize: nat, maxsize: nat) {
    var recs := multiset(Records(dir));
    if exists r <- dir :: r.Is() == End
    then RoomOn(recs, disksize, maxsize) || forall r <- Records(dir) :: !Misleads(r, disksize, maxsize)
    else FreeOn(recs, disksize, maxsize, 1) || maxsize + maxsize % 2 + 4 > disksize
  }

  lemma FitsIsFreeOn(recs: multiset<Record>, disksize: nat, maxsize: nat, x: nat)
    requires 4 <= disksize < 0x1_0000_0002
    ensures Fits(recs, LastBlock(disksize), BlocksRequested(maxsize), x) <==> FreeOn(recs, disksize, maxsize, x)
  {
    LastOf(disksize);
    RequestOf(maxsize);
  }

  lemma LastOf(disksize: nat)
    requires 4 <= disksize < 0x1_0000_0002
    ensures 1 <= LastBlock(disksize) == disksize / 2 - 1 < TWO_31
    ensures forall x: nat :: x <= LastBlock(disksize) <==> 2 * x + 2 <= disksize
  {
  }

  lemma RequestOf(maxsize: nat)
    ensures 2 * BlocksRequested(maxsize) == maxsize + maxsize % 2
  {
  }

  lemma PlacedIsLieOn(recs: multiset<Record>, disksize: nat)
    requires 4 <= disksize < 0x1_0000_0002
    ensures WellPlaced(recs, LastBlock(disksize)) <==> LieOn(recs, disksize)
  {
    LastOf(disksize);
  }

  lemma RightIsLeastOn(recs: multiset<Record>, disksize: nat, maxsize: nat)
    requires 4 <= disksize < 0x1_0000_0002
    ensures var last, request := LastBlock(disksize), BlocksRequested(maxsize);
            && (FitExists(recs, last, request) <==> RoomOn(recs, disksize, maxsize))
            && forall x: nat ::
                 Fits(recs, last, request, x) && NoneBelow(recs, last, request, x) <==> LeastOn(recs, disksize, maxsize, x)
  {
    hide Fits, FreeOn, LastBlock, BlocksRequested;
    forall x: nat
      ensures Fits(recs, LastBlock(disksize), BlocksRequested(maxsize), x) <==> FreeOn(recs, disksize, maxsize, x)
    {
      FitsIsFreeOn(recs, disksize, maxsize, x);
    }
  }

  lemma ComesRightIsServesWell(dir: seq<Record>, disksize: nat, maxsize: nat)
    requires 4 <= disksize < 0x1_0000_0002
    ensures ComesRight(dir, LastBlock(disksize), BlocksRequested(maxsize)) <==> ServesWell(dir, disksize, maxsize)
  {
    hide Fits, FreeOn, NoneBelow, FitExists, RoomOn, LeastOn, LastBlock, BlocksRequested;
    var recs := multiset(Records(dir));
    RightIsLeastOn(recs, disksize, maxsize);
    FitsIsFreeOn(recs, disksize, maxsize, 1);
    LastOf(disksize);
    RequestOf(maxsize);
    HasEnd(dir);
    forall r: Record ensures Rewinds(r, LastBlock(disksize), BlocksRequested(maxsize)) <==> Misleads(r, disksize, maxsize) { }
  }

  lemma HasEnd(dir: seq<Record>)
    ensures First(dir, End) < |dir| <==> exists r <- dir :: r.Is() == End
  {
    if First(dir, End) < |dir| { assert dir[First(dir, End)] in dir; }
  }

  /** The directory after a file has been entered: the first record not in use is the new one, and an end mark moves on. */
  ghost predicate Entered(dir: seq<Record>, dir': seq<Record>, slot: nat, r: Record) {
    && |dir'| == |dir| == 64 && slot < 64 && dir[slot].Is() != Used && (forall k | 0 <= k < slot :: dir[k].Is() == Used)
    && dir'[slot] == r
    && forall k | 0 <= k < 64 && k != slot ::
         dir'[k] == if k == slot + 1 && (dir[slot].Is() == End || (slot == 0 && forall x <- dir :: x.Is() != End))
                    then dir[k].(name := "") else dir[k]
  }

  lemma PutEnters(dir: seq<Record>, r: Record)
    requires |dir| == ENTRIES && FirstFree(dir) >= 0
    ensures Entered(dir, Put(dir, FirstFree(dir), r, NumUsed(dir)), FirstFree(dir), r)
  {
    hide FirstFree;
    FreeFacts(dir);
    FirstOfAll(dir);
    HasEnd(dir);
    var n := First(dir, End);
    if n == |dir| { forall x | x in dir ensures x.Is() != End { } }
  }

  lemma FirstOfAll(dir: seq<Record>)
    requires FirstFree(dir) >= 0
    ensures forall k | 0 <= k < FirstFree(dir) :: dir[k].Is() == Used
  {
    var n := First(dir, End);
    var u := First(dir[..n], Unused);
    forall k | 0 <= k < FirstFree(dir) ensures dir[k].Is() == Used { assert dir[..n][k] == dir[k]; }
  }

  /**
   create() in the disk's own terms.  When it serves well, and only then, a file goes to
   the least block from which the disk has room for it, or is refused because there is
   none; it is entered with as many blocks as its size needs, and nothing else changes.
   */
  lemma CreateOnDisk(dir: seq<Record>, name: string, maxsize: nat, disksize: nat, copy: seq<Record>)
    requires |dir| == 64 && LieOn(multiset(Records(dir)), disksize)
    requires multiset(copy) == multiset(dir[..NumUsed(dir)]) && Sorted(copy)
    requires !Exists(dir, name) && exists r <- dir :: r.Is() != Used
    ensures var (dir', outcome), recs := Create(dir, name, maxsize, disksize, copy), multiset(Records(dir));
            match outcome
            case Created(slot, start) =>
              && (LeastOn(recs, disksize, maxsize, start) <==> ServesWell(dir, disksize, maxsize))
              && Entered(dir, dir', slot, Record(name, start, (maxsize + maxsize % 2) / 2, 0))
            case NoRoom => dir' == dir && (!RoomOn(recs, disksize, maxsize) <==> ServesWell(dir, disksize, maxsize))
            case _ => false
  {
    hide LieOn, Sorted, FreeOn, Fits, NoneBelow, Search, ComesRight, ServesWell, WellPlaced, LastBlock, BlocksRequested,
         Entered, Put, LeastOn, RoomOn, FitExists, First, FirstFree;
    var recs := multiset(Records(dir));
    SizeOf(recs, disksize);
    PlacedIsLieOn(recs, disksize);
    CreateChooses(dir, name, maxsize, disksize, copy);
    RightIsLeastOn(recs, disksize, maxsize);
    ComesRightIsServesWell(dir, disksize, maxsize);
    RequestOf(maxsize);
    var outcome := Create(dir, name, maxsize, disksize, copy).1;
    if outcome.Created? {
      PutEnters(dir, Record(name, outcome.start, BlocksRequested(maxsize), 0));
    }
  }

  lemma SizeOf(recs: multiset<Record>, disksize: nat)
    requires LieOn(recs, disksize)
    ensures 4 <= disksize < 0x1_0000_0002
  {
  }

  /** Live records are as many times in the directory as before, but for the new one. */
  ghost predicate OnlyAdds(dir: seq<Record>, dir': seq<Record>, r: Record) {
    forall x: Record | x.Is() == Used ::
      multiset(Records(dir'))[x] == multiset(Records(dir))[x] + if x == r then 1 else 0
  }

  /** No live record stands behind the slot. */
  predicate NothingBehind(dir: seq<Record>, slot: int)
    requires 0 <= slot
  {
    forall k | slot < k < |Records(dir)| :: Records(dir)[k].Is() != Used
  }

  lemma AddedBehind(recs: seq<Record>, slot: nat, now: seq<Record>, r: Record)
    requires slot <= |recs| && (slot < |recs| ==> recs[slot].Is() == Unused)
    requires now == if slot < |recs| then recs[slot := r] else recs + [r]
    ensures r in now && forall x: Record | x.Is() == Used :: multiset(now)[x] == multiset(recs)[x] + if x == r then 1 else 0
  {
    if slot < |recs| {
      assert now[slot] == r;
      assert multiset(now) == (multiset(recs) + multiset{r}) - multiset{recs[slot]};
    } else {
      assert multiset(now) == multiset(recs) + multiset{r} && now[|recs|] == r;
    }
  }

  /**
   For every name and directory: the new file is listed exactly when its name starts
   with neither 0 nor 1, and the other files stay as they are unless an empty name, or
   a directory that forgets, puts an end mark in front of one of them.
   */
  lemma CreateKeepsFiles(dir: seq<Record>, name: string, maxsize: nat, disksize: nat, copy: seq<Record>)
    requires |dir| == ENTRIES
    ensures var (dir', outcome) := Create(dir, name, maxsize, disksize, copy);
            outcome.Created? ==>
              var r := Record(name, outcome.start, BlocksRequested(maxsize), 0);
              && (OnlyAdds(dir, dir', r) <==> (name != "" && !Forgets(dir)) || NothingBehind(dir, outcome.slot))
              && (r in Records(dir') && r.Is() == Used <==> MarkOf(name) == Used)
  {
    hide Search, First, FirstFree, Put;
    var (dir', outcome) := Create(dir, name, maxsize, disksize, copy);
    if outcome.Created? {
      var r := Record(name, outcome.start, BlocksRequested(maxsize), 0);
      PutRecords(dir, r);
      var recs, now, slot := Records(dir), Records(dir'), outcome.slot;
      if name == "" || Forgets(dir) {
        LostBehind(recs, slot, now, r);
      } else {
        AddedBehind(recs, slot, now, r);
      }
    }
  }

  /** When only the records in front of a free slot are left, nothing is lost exactly when nothing live stands behind it. */
  lemma LostBehind(recs: seq<Record>, slot: nat, now: seq<Record>, r: Record)
    requires slot <= |recs| && (slot < |recs| ==> recs[slot].Is() == Unused)
    requires now == (if r.Is() == End then recs[..slot] else [r]) && (r.Is() != End ==> slot == 0)
    ensures (forall x: Record | x.Is() == Used :: multiset(now)[x] == multiset(recs)[x] + if x == r then 1 else 0)
            <==> forall k | slot < k < |recs| :: recs[k].Is() != Used
  {
    if k :| slot < k < |recs| && recs[k].Is() == Used {
      LostCount(recs, slot, now, r, recs[k]);
      assert recs[slot..][k - slot] == recs[k];
    } else {
      forall x: Record | x.Is() == Used ensures multiset(now)[x] == multiset(recs)[x] + if x == r then 1 else 0 {
        NoneLiveBehind(recs, slot, x);
        LostCount(recs, slot, now, r, x);
      }
    }
  }

  lemma LostCount(recs: seq<Record>, slot: nat, now: seq<Record>, r: Record, x: Record)
    requires slot <= |recs| && x.Is() == Used
    requires now == (if r.Is() == End then recs[..slot] else [r]) && (r.Is() != End ==> slot == 0)
    ensures multiset(now)[x] == (multiset(recs)[x] + if x == r then 1 else 0) <==> x !in recs[slot..]
  {
    var tail := recs[slot..];
    assert recs == recs[..slot] + tail;
    assert multiset(recs)[x] == multiset(recs[..slot])[x] + multiset(tail)[x];
    assert x in tail <==> x in multiset(tail);
  }

  lemma NoneLiveBehind(recs: seq<Record>, slot: nat, x: Record)
    requires slot <= |recs| && (slot < |recs| ==> recs[slot].Is() == Unused) && x.Is() == Used
    requires forall k | slot < k < |recs| :: recs[k].Is() != Used
    ensures x !in recs[slot..]
  {
    forall m | 0 <= m < |recs[slot..]| ensures recs[slot..][m] != x { assert recs[slot..][m] == recs[slot + m]; }
  }

  /** In a directory that does not forget, the files lie apart afterwards exactly when the search came right. */
  lemma CreateKeepsFilesApart(dir: seq<Record>, name: string, maxsize: nat, disksize: nat, copy: seq<Record>)
    requires Orderly(dir, disksize, copy) && maxsize >= 1
    ensures var (dir', outcome) := Create(dir, name, maxsize, disksize, copy);
            outcome.Created? ==>
              && (MarkOf(name) == Used && !Forgets(dir) ==>
                    (WellPlaced(multiset(Records(dir')), LastBlock(disksize))
                     <==> ComesRight(dir, LastBlock(disksize), BlocksRequested(maxsize))))
              && (ComesRight(dir, LastBlock(disksize), BlocksRequested(maxsize)) ==>
                    WellPlaced(multiset(Records(dir')), LastBlock(disksize)))
  {
    hide WellPlaced, Fits, NoneBelow, Sorted, Search, First, FirstFree, Put, Forgets, ComesRight;
    CreateChooses(dir, name, maxsize, disksize, copy);
    var (dir', outcome) := Create(dir, name, maxsize, disksize, copy);
    if outcome.Created? {
      var last, request := LastBlock(disksize), BlocksRequested(maxsize);
      var r := Record(name, outcome.start, request, 0);
      PutRecords(dir, r);
      if ComesRight(dir, last, request) {
        PutPlaced(Records(dir), last, outcome.slot, r, Records(dir'), Forgets(dir));
      }
      if MarkOf(name) == Used && !Forgets(dir) && WellPlaced(multiset(Records(dir')), last) {
        PlacedFits(Records(dir), last, outcome.slot, r, Records(dir'));
        FreePlaceComesRight(dir, copy, last, request);
      }
    }
  }

  lemma SomePlaced(recs: seq<Record>, last: int, k: nat)
    requires WellPlaced(multiset(recs), last) && k <= |recs|
    ensures WellPlaced(multiset(recs[..k]), last)
  {
    assert recs == recs[..k] + recs[k..];
    forall x | x in multiset(recs[..k]) ensures x in multiset(recs) && multiset(recs[..k])[x] <= multiset(recs)[x] { }
  }

  lemma PutPlaced(recs: seq<Record>, last: int, slot: nat, r: Record, now: seq<Record>, forgets: bool)
    requires WellPlaced(multiset(recs), last) && r.reserved >= 1
    requires Fits(multiset(recs), last, r.reserved, r.start) && slot <= |recs|
    requires now == if r.Is() == End then recs[..slot]
                    else if forgets then [r]
                    else if slot < |recs| then recs[slot := r]
                    else recs + [r]
    ensures WellPlaced(multiset(now), last)
  {
    hide WellPlaced, Fits;
    if r.Is() == End {
      SomePlaced(recs, last, slot);
    } else {
      AddPlaced(multiset(recs), last, r.reserved, r);
      if forgets {
        assert [r] + recs == ([r] + recs)[..1] + recs && ([r] + recs)[..1] == [r];
        assert multiset([r] + recs) == multiset(recs) + multiset{r};
        SomePlaced([r] + recs, last, 1);
      } else if slot < |recs| {
        assert multiset(now) == (multiset(recs) + multiset{r}) - multiset{recs[slot]};
        DropPlaced(multiset(recs) + multiset{r}, last, recs[slot]);
      } else {
        assert multiset(now) == multiset(recs) + multiset{r};
      }
    }
  }

  lemma PlacedFits(recs: seq<Record>, last: int, slot: nat, r: Record, now: seq<Record>)
    requires WellPlaced(multiset(now), last) && r.Is() == Used && r !in recs && slot <= |recs|
    requires (slot < |recs| ==> recs[slot].Is() == Unused) && now == if slot < |recs| then recs[slot := r] else recs + [r]
    ensures Fits(multiset(recs), last, r.reserved, r.start)
  {
    assert now[slot] == r && r in multiset(now);
    forall a | a in multiset(recs) && a.Is() == Used ensures Clear(a, r) {
      var k :| 0 <= k < |recs| && recs[k] == a;
      assert now[k] == a && a in multiset(now);
    }
  }

  /** The search goes wrong only where it finds no free place. */
  lemma FreePlaceComesRight(dir: seq<Record>, copy: seq<Record>, last: int, request: nat)
    requires multiset(copy) == multiset(dir[..NumUsed(dir)])
    requires Fits(multiset(Records(dir)), last, request, Search(copy, 0, 1, last, request))
    ensures ComesRight(dir, last, request)
  {
    hide Fits;
    NoPlaceIsZero(multiset(Records(dir)), last, request);
    if First(dir, End) == |dir| { NothingToCopy(dir, copy); }
  }

  /** Deleting a file keeps the end mark, the other files and that they lie apart, but leaves its extent behind. */
  lemma DeleteKeepsFilesApart(dir: seq<Record>, last: int, slot: nat)
    requires slot < First(dir, End) && dir[slot].Is() == Used
    ensures var d := Delete(dir, slot);
            && First(d, End) == First(dir, End) && Records(d) == Records(dir)[slot := Deleted(dir[slot])]
            && (forall x: Record | x.Is() == Used ::
                  multiset(Records(d))[x] == multiset(Records(dir))[x] - if x == dir[slot] then 1 else 0)
            && (WellPlaced(multiset(Records(dir)), last) ==> WellPlaced(multiset(Records(d)), last))
  {
    hide WellPlaced, First;
    DeleteRecords(dir, slot);
    Replaced(Records(dir), slot, Deleted(dir[slot]));
    if WellPlaced(multiset(Records(dir)), last) { DeletePlaced(multiset(Records(dir)), last, dir[slot]); }
  }

  lemma DeleteRecords(dir: seq<Record>, slot: nat)
    requires slot < First(dir, End)
    ensures First(Delete(dir, slot), End) == First(dir, End) && Records(dir)[slot] == dir[slot]
    ensures Records(Delete(dir, slot)) == Records(dir)[slot := Deleted(dir[slot])]
  {
    FirstIs(Delete(dir, slot), End, First(dir, End));
  }

  lemma Replaced(recs: seq<Record>, k: nat, r: Record)
    requires k < |recs|
    ensures recs[k] in multiset(recs) && multiset(recs[k := r]) == (multiset(recs) - multiset{recs[k]}) + multiset{r}
  {
  }

  lemma DeletePlaced(recs: multiset<Record>, last: int, was: Record)
    requires WellPlaced(recs, last) && was in recs && was.Is() == Used
    ensures WellPlaced((recs - multiset{was}) + multiset{Deleted(was)}, last)
  {
    DropPlaced(recs, last, was);
    var m := (recs - multiset{was}) + multiset{Deleted(was)};
    forall a | a in m ensures a in recs - multiset{was} || a == Deleted(was) { }
  }

  // ----- runs -----

  /** What happens to a disk: create() with what qsort makes of the copy, and delete() of the file in a slot. */
  datatype Command = Make(name: string, maxsize: nat, copy: seq<Record>) | Drop(slot: nat)

  function Next(dir: seq<Record>, disksize: nat, c: Command): (d: seq<Record>)
    requires |dir| == ENTRIES
    ensures |d| == ENTRIES
  {
    match c
    case Make(name, maxsize, copy) => Create(dir, name, maxsize, disksize, copy).0
    case Drop(slot) => if slot < |dir| then Delete(dir, slot) else dir
  }

  /** Files have proper names and a size; only a file that exists is deleted. */
  ghost predicate Can(dir: seq<Record>, c: Command) {
    match c
    case Make(name, maxsize, copy) =>
      MarkOf(name) == Used && maxsize >= 1 && multiset(copy) == multiset(dir[..NumUsed(dir)]) && Sorted(copy)
    case Drop(slot) => slot < First(dir, End) && dir[slot].Is() == Used
  }

  /** No file is created while the search comes wrong, or where the directory would forget the others. */
  ghost predicate Careful(dir: seq<Record>, disksize: nat, c: Command)
    requires |dir| == ENTRIES
  {
    c.Make? && Create(dir, c.name, c.maxsize, disksize, c.copy).1.Created? ==>
      ComesRight(dir, LastBlock(disksize), BlocksRequested(c.maxsize)) && !Forgets(dir)
  }

  ghost predicate Runs(dir: seq<Record>, disksize: nat, cs: seq<Command>, t: seq<Record>)
    requires |dir| == ENTRIES
    decreases |cs|
  {
    if cs == [] then t == dir else Can(dir, cs[0]) && Runs(Next(dir, disksize, cs[0]), disksize, cs[1..], t)
  }

  ghost predicate CarefulRun(dir: seq<Record>, disksize: nat, cs: seq<Command>)
    requires |dir| == ENTRIES
    decreases |cs|
  {
    cs == [] || (Careful(dir, disksize, cs[0]) && CarefulRun(Next(dir, disksize, cs[0]), disksize, cs[1..]))
  }

  function Formatted(): seq<Record> {
    seq(ENTRIES, _ => Record("", 0, 0, 0))
  }

  lemma NextApart(dir: seq<Record>, disksize: nat, c: Command)
    requires |dir| == ENTRIES && WellPlaced(multiset(Records(dir)), LastBlock(disksize))
    requires Can(dir, c) && Careful(dir, disksize, c)
    ensures WellPlaced(multiset(Records(Next(dir, disksize, c))), LastBlock(disksize))
  {
    hide WellPlaced, ComesRight, Sorted, Search, FirstFree, Put;
    match c
    case Make(name, maxsize, copy) => CreateKeepsFilesApart(dir, name, maxsize, disksize, copy);
    case Drop(slot) => DeleteKeepsFilesApart(dir, LastBlock(disksize), slot);
  }

  lemma {:induction false} RunApart(dir: seq<Record>, disksize: nat, cs: seq<Command>, t: seq<Record>)
    requires |dir| == ENTRIES && WellPlaced(multiset(Records(dir)), LastBlock(disksize))
    requires Runs(dir, disksize, cs, t) && CarefulRun(dir, disksize, cs)
    ensures |t| == ENTRIES && WellPlaced(multiset(Records(t)), LastBlock(disksize))
    decreases |cs|
  {
    hide WellPlaced, Next, Can, Careful;
    if cs != [] {
      NextApart(dir, disksize, cs[0]);
      RunApart(Next(dir, disksize, cs[0]), disksize, cs[1..], t);
    }
  }

  ghost predicate NoneDeleted(dir: seq<Record>) {
    forall r <- Records(dir) :: r.Is() == Used
  }

  lemma OnlyTheEndIsFree(dir: seq<Record>)
    requires NoneDeleted(dir)
    ensures FirstFree(dir) == if First(dir, End) < |dir| then First(dir, End) else -1
  {
    var n := First(dir, End);
    forall j | 0 <= j < n ensures dir[j].Is() != Unused { assert Records(dir)[j] in Records(dir); }
    assert dir[..n] == Records(dir);
    FirstIs(dir[..n], Unused, n);
  }

  /** While nothing has been deleted the search comes right, and the 64th file is the last. */
  lemma MakeIsCareful(dir: seq<Record>, disksize: nat, c: Command)
    requires |dir| == ENTRIES && NoneDeleted(dir) && c.Make? && Can(dir, c)
    ensures Careful(dir, disksize, c) && NoneDeleted(Next(dir, disksize, c))
  {
    hide Search, Put, FirstFree, Sorted;
    OnlyTheEndIsFree(dir);
    var (d, outcome) := Create(dir, c.name, c.maxsize, disksize, c.copy);
    if outcome.Created? {
      var r := Record(c.name, outcome.start, BlocksRequested(c.maxsize), 0);
      PutRecords(dir, r);
    }
  }

  lemma {:induction false} MakesAreCareful(dir: seq<Record>, disksize: nat, cs: seq<Command>, t: seq<Record>)
    requires |dir| == ENTRIES && NoneDeleted(dir) && Runs(dir, disksize, cs, t) && forall c <- cs :: c.Make?
    ensures CarefulRun(dir, disksize, cs)
    decreases |cs|
  {
    hide Next, Can, Careful, NoneDeleted;
    if cs != [] {
      assert cs[0] in cs;
      MakeIsCareful(dir, disksize, cs[0]);
      forall c | c in cs[1..] ensures c.Make? { assert c in cs; }
      MakesAreCareful(Next(dir, disksize, cs[0]), disksize, cs[1..], t);
    }
  }

  /**
   From a formatted disk on, files lie apart after every run of creates and deletes in
   which no file was created while the search came wrong or the directory would forget;
   a run in which nothing is deleted is always such a one.
   */
  lemma FilesLieApart(disksize: nat, cs: seq<Command>, t: seq<Record>)
    requires 4 <= disksize < 0x1_0000_0002 && Runs(Formatted(), disksize, cs, t)
    requires CarefulRun(Formatted(), disksize, cs) || forall c <- cs :: c.Make?
    ensures |t| == 64 && LieOn(multiset(Records(t)), disksize)
  {
    hide Runs, CarefulRun;
    PlacedIsLieOn(multiset(Records(t)), disksize);
    FirstIs(Formatted(), End, 0);
    assert Records(Formatted()) == [];
    if forall c <- cs :: c.Make? { MakesAreCareful(Formatted(), disksize, cs, t); }
    RunApart(Formatted(), disksize, cs, t);
  }

  // ----- where it goes wrong -----

  /**
   Deleted records rewind the search: after a file in front of another has been
   deleted, a request that fits nowhere is put on top of the file that is still there.
   */
  lemma DeletedRecordRewinds(a: Record, d: Record, last: int)
    requires a.Is() == Used && a.start == 2 && a.reserved == 1 && d.Is() == Unused && d.start == 1 && d.reserved == 1 && last == 4
    ensures WellPlaced(multiset([d, a]), last) && Sorted([a, d]) && !FitExists(multiset([d, a]), last, 2)
    ensures Search([a, d], 0, 1, last, 2) == 2
  {
    var s := [a, d];
    assert Search(s, 2, 2, last, 2) == 2;
    assert Search(s, 1, 3, last, 2) == Search(s, 2, 2, last, 2);
    var m := multiset([d, a]);
    assert a in m;
    forall x: nat ensures !Fits(m, last, 2, x) { }
  }

  /**
   Without an end mark no file is looked at: the new one goes to block 1, whatever is
   there.  If it takes the first slot, the other 63 records are lost as well.
   */
  lemma UnmarkedDirectoryForgets(dir: seq<Record>, name: string, maxsize: nat, disksize: nat, copy: seq<Record>)
    requires |dir| == ENTRIES && First(dir, End) == ENTRIES && First(dir, Unused) < ENTRIES && !Exists(dir, name)
    requires multiset(copy) == multiset(dir[..NumUsed(dir)]) && 1 + BlocksRequested(maxsize) <= LastBlock(disksize)
    ensures var (dir', outcome) := Create(dir, name, maxsize, disksize, copy);
            && outcome == Created(First(dir, Unused), 1)
            && (MarkOf(name) != End && First(dir, Unused) == 0 ==>
                  Records(dir') == [Record(name, 1, BlocksRequested(maxsize), 0)])
  {
    assert dir[..ENTRIES] == dir && dir[..0] == [];
    NothingToCopy(dir, copy);
    PutRecords(dir, Record(name, 1, BlocksRequested(maxsize), 0));
  }

  /**
   A file of no size is kept as an empty extent at block 1.  Behind it the search takes
   a negative gap for a large one: the file b is overwritten although there is room.
   */
  lemma EmptyFileMisleads(a: Record, e: Record, b: Record)
    requires a.Is() == Used && a.start == 1 && a.reserved == 2 && e.Is() == Used && e.start == 1 && e.reserved == 0
    requires b.Is() == Used && b.start == 3 && b.reserved == 2
    ensures Sorted([a, e, b]) && Search([a, e, b], 0, 1, 10, 5) == b.start
    ensures Fits(multiset([a, e, b]), 10, 5, 5)
  {
    var s := [a, e, b];
    assert Search(s, 0, 1, 10, 5) == Search(s, 1, 3, 10, 5);
  }

  // ----- the directory in place -----

  class Disk {
    const directory: array<Record>
    const disksize: nat

    ghost predicate Valid() {
      directory.Length == ENTRIES
    }

    /** A formatted directory: every record is an end mark. */
    constructor (disksize: nat)
      ensures Valid() && fresh(directory) && this.disksize == disksize
      ensures First(directory[..], End) == 0
    {
      directory := new Record[ENTRIES](_ => Record("", 0, 0, 0));
      this.disksize := disksize;
    }

    /** findfile */
    method FindFile(name: string) returns (slot: int)
      requires Valid()
      ensures slot >= 0 <==> Exists(directory[..], name)
      ensures slot >= 0 ==> slot < First(directory[..], End) && directory[slot].Is() == Used && directory[slot].name == name
    {
      ghost var d := directory[..];
      var i := 0;
      while i < ENTRIES
        invariant 0 <= i <= ENTRIES && i <= First(d, End)
        invariant forall k | 0 <= k < i :: !(d[k].Is() == Used && d[k].name == name)
      {
        if directory[i].Is() == End { return -1; }
        if directory[i].Is() == Used && directory[i].name == name {
          assert d[i].Is() != End;
          return i;
        }
        i := i + 1;
      }
      return -1;
    }

    /** The loop that counts the records and finds a place for a new one. */
    method Scan() returns (numUsed: nat, firstFree: int)
      requires Valid()
      ensures numUsed == NumUsed(directory[..]) && firstFree == FirstFree(directory[..])
    {
      ghost var d := directory[..];
      numUsed, firstFree := 0, -1;
      var i := 0;
      while i < ENTRIES
        invariant 0 <= i <= ENTRIES && numUsed == 0 && i <= First(d, End)
        invariant firstFree == if First(d[..i], Unused) < i then First(d[..i], Unused) else -1
      {
        if directory[i].Is() == End {
          numUsed := i;
          if firstFree == -1 { firstFree := i; }
          return;
        }
        FirstGrows(d, i);
        if directory[i].Is() == Unused {
          if firstFree == -1 { firstFree := i; }
        }
        i := i + 1;
      }
    }

    /** The search loop over the sorted copy. */
    static method FindStart(copy: seq<Record>, last: nat, request: nat) returns (start: nat)
      ensures start == Search(copy, 0, 1, last, request)
    {
      start := 0;
      var prevEnd, i := 1, 0;
      while i < |copy| + 1
        invariant 0 <= i <= |copy| + 1 && start == 0
        invariant Search(copy, 0, 1, last, request) == if i <= |copy| then Search(copy, i, prevEnd, last, request) else 0
      {
        var thisStart := if i == |copy| || copy[i].Is() == Unused then last else copy[i].start;
        if U64(thisStart - prevEnd) >= request { return prevEnd; }
        if i < |copy| { prevEnd := EndOf(copy[i]); }
        i := i + 1;
      }
    }

    /** create(); copy is the directory's used part as qsort has sorted it. */
    method CreateFile(name: string, maxsize: nat, copy: seq<Record>) returns (outcome: Outcome)
      requires Valid()
      modifies directory
      ensures (directory[..], outcome) == Create(old(directory[..]), name, maxsize, disksize, copy)
    {
      var size := maxsize;
      if size % 2 != 0 { size := size + 1; }
      var found := FindFile(name);
      if found >= 0 { return AlreadyExists; }
      var blocksRequested := size / 2;
      var numUsed, firstFree := Scan();
      if firstFree == -1 { return NoFreeEntry; }
      var start := FindStart(copy, LastBlock(disksize), blocksRequested);
      if start == 0 { return NoRoom; }
      directory[firstFree] := Record(name, start, blocksRequested, 0);
      if firstFree == numUsed && numUsed + 1 < ENTRIES {
        directory[numUsed + 1] := directory[numUsed + 1].(name := "");
      }
      return Created(firstFree, start);
    }

    method DeleteFile(name: string) returns (deleted: bool)
      requires Valid()
      modifies directory
      ensures deleted <==> old(Exists(directory[..], name))
      ensures !deleted ==> directory[..] == old(directory[..])
      ensures deleted ==> exists slot :: 0 <= slot < First(old(directory[..]), End)
                                         && old(directory[slot].Is() == Used && directory[slot].name == name)
                                         && directory[..] == Delete(old(directory[..]), slot)
    {
      var slot := FindFile(name);
      if slot < 0 { return false; }
      directory[slot] := Deleted(directory[slot]);
      assert directory[..] == Delete(old(directory[..]), slot);
      return true;
    }
  }

  lemma FirstGrows(d: seq<Record>, i: nat)
    requires i < |d|
    ensures First(d[..i + 1], Unused) == (if First(d[..i], Unused) < i then First(d[..i], Unused) else if d[i].Is() == Unused then i else i + 1)
  {
    var u := First(d[..i], Unused);
    FirstIs(d[..i + 1], Unused, if u < i then u else if d[i].Is() == Unused then i else i + 1);
  }
}
