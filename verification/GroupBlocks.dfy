/**
 The blocks of the group memory manager as values: a sequence of blocks in ring
 order, from the block that the window of memory starts with.
 */
module GroupBlocks {
  import opened Circle
  import opened AbstractHeap

  const HEADER: nat := 56
  const ALIGNMENT: nat := 8
  const MIN_BLOCK: nat := 16
  const MAX_BLOCKS: nat := 1024

  function AlignUp(x: nat): (r: nat)
    ensures r % ALIGNMENT == 0 && x <= r < x + ALIGNMENT
  {
    (x + (ALIGNMENT - 1)) / ALIGNMENT * ALIGNMENT
  }

  const WORD: nat := 0x1_0000_0000_0000_0000

  /** ALIGN_UP on a machine word */
  function AlignWord(x: nat): nat {
    (x + (ALIGNMENT - 1)) % WORD / ALIGNMENT * ALIGNMENT
  }

  /** It rounds up exactly as long as the sum does not wrap; a larger request is served like one for no bytes. */
  lemma AlignWraps(x: nat)
    requires x < WORD
    ensures AlignWord(x) == AlignUp(x) <==> x + ALIGNMENT <= WORD
    ensures x + ALIGNMENT > WORD ==> AlignWord(x) == 0
  {
    if x + ALIGNMENT > WORD { assert (x + (ALIGNMENT - 1)) % WORD == x + (ALIGNMENT - 1) - WORD < ALIGNMENT; }
  }

  datatype Blk = Blk(addr: int, size: nat, free: bool, user: nat)

  function End(b: Blk): int { b.addr + HEADER + b.size }

  ghost predicate Sized(b: Blk) {
    b.size % ALIGNMENT == 0 && (if b.free then b.user == 0 else 0 < b.user <= b.size)
  }

  /** The blocks follow one another without gaps and fill a window of exactly total bytes. */
  ghost predicate Tiles(bs: seq<Blk>, total: nat) {
    && bs != []
    && (forall i | 0 <= i < |bs| - 1 :: End(bs[i]) == bs[i + 1].addr)
    && End(bs[|bs| - 1]) == bs[0].addr + total
  }

  /** No two neighbours around the ring are both free. */
  ghost predicate Coalesced(bs: seq<Blk>) {
    |bs| > 1 ==> forall i | 0 <= i < |bs| :: !(bs[i].free && bs[Succ(i, |bs|)].free)
  }

  ghost predicate AllSized(bs: seq<Blk>) {
    forall i | 0 <= i < |bs| :: Sized(bs[i])
  }

  function Addrs(bs: seq<Blk>): (r: seq<int>)
    ensures |r| == |bs| && forall i | 0 <= i < |bs| :: r[i] == bs[i].addr
  {
    seq(|bs|, i requires 0 <= i < |bs| => bs[i].addr)
  }

  /** Later blocks lie entirely above earlier ones, so no two blocks overlap. */
  lemma {:induction false} TilesAscend(bs: seq<Blk>, total: nat, i: nat, j: nat)
    requires Tiles(bs, total) && i < j < |bs|
    ensures End(bs[i]) <= bs[j].addr
    decreases j
  {
    if i + 1 < j { TilesAscend(bs, total, i, j - 1); }
  }

  lemma TilesDistinct(bs: seq<Blk>, total: nat)
    requires Tiles(bs, total)
    ensures Distinct(Addrs(bs))
  {
    forall i, j | 0 <= i < j < |bs| ensures Addrs(bs)[i] != Addrs(bs)[j] {
      TilesAscend(bs, total, i, j);
    }
  }

  /** Every block lies in the window. */
  lemma TilesBounds(bs: seq<Blk>, total: nat, i: nat)
    requires Tiles(bs, total) && i < |bs|
    ensures bs[0].addr <= bs[i].addr && End(bs[i]) <= bs[0].addr + total
  {
    if i > 0 { TilesAscend(bs, total, 0, i); }
    if i < |bs| - 1 { TilesAscend(bs, total, i, |bs| - 1); }
  }

  // ----- the two changes of shape -----

  /** Block j takes over the block after it in the ring, wherever that one lies. */
  function Absorb(bs: seq<Blk>, j: nat): (r: seq<Blk>)
    requires j < |bs| && |bs| > 1
    ensures |r| == |bs| - 1
  {
    var k := Succ(j, |bs|);
    Remove(bs[j := bs[j].(size := bs[j].size + HEADER + bs[k].size)], k)
  }

  /** Block i keeps req bytes and a free block takes the rest. */
  function Cut(bs: seq<Blk>, i: nat, req: nat): (r: seq<Blk>)
    requires i < |bs| && bs[i].size >= req + HEADER
    ensures |r| == |bs| + 1
  {
    InsertAfter(bs[i := bs[i].(size := req)], i,
                Blk(bs[i].addr + HEADER + req, bs[i].size - req - HEADER, true, 0))
  }

  /** Absorbing keeps the window full; it moves only when the last block takes over the first. */
  lemma AbsorbTiles(bs: seq<Blk>, total: nat, j: nat)
    requires Tiles(bs, total) && j < |bs| && |bs| > 1
    ensures Tiles(Absorb(bs, j), total)
    ensures Absorb(bs, j)[0].addr == if j + 1 == |bs| then bs[1].addr else bs[0].addr
  {
    var r := Absorb(bs, j);
    var n, k := |bs|, Succ(j, |bs|);
    forall i | 0 <= i < |r| - 1 ensures End(r[i]) == r[i + 1].addr {
      var o := if i < k then i else i + 1;
      assert End(bs[o]) == bs[o + 1].addr;
      if o + 1 == k { assert k + 1 < n && End(bs[k]) == bs[k + 1].addr; }
    }
  }

  lemma CutTiles(bs: seq<Blk>, total: nat, i: nat, req: nat)
    requires Tiles(bs, total) && i < |bs| && bs[i].size >= req + HEADER
    ensures Tiles(Cut(bs, i, req), total) && Cut(bs, i, req)[0].addr == bs[0].addr
  {
    var r := Cut(bs, i, req);
    forall m | 0 <= m < |r| - 1 ensures End(r[m]) == r[m + 1].addr {
      if m < i { assert End(bs[m]) == bs[m + 1].addr; }
      if m > i + 1 { assert End(bs[m - 1]) == bs[m].addr; }
      if m == i + 1 { assert End(bs[i]) == bs[i + 1].addr; }
    }
  }

  lemma MarkTiles(bs: seq<Blk>, total: nat, i: nat, free: bool, user: nat)
    requires Tiles(bs, total) && i < |bs|
    ensures Tiles(bs[i := bs[i].(free := free, user := user)], total)
  {
  }

  // ----- malloc and free on blocks -----

  function MallocBlocks(bs: seq<Blk>, i: nat, size: nat): seq<Blk>
    requires i < |bs| && bs[i].size >= AlignUp(size)
  {
    var req := AlignUp(size);
    var cut := if bs[i].size - req > HEADER + MIN_BLOCK then Cut(bs, i, req) else bs;
    cut[i := cut[i].(free := false, user := size)]
  }

  /** Where block j stands once block k is gone. */
  function Shift(j: nat, k: nat): nat { if k < j then j - 1 else j }

  function JoinNext(bs: seq<Blk>, i: nat): seq<Blk>
    requires i < |bs|
  {
    if |bs| > 1 && bs[Succ(i, |bs|)].free then Absorb(bs, i) else bs
  }

  function JoinedNextIndex(bs: seq<Blk>, i: nat): (j: nat)
    requires i < |bs|
    ensures j < |JoinNext(bs, i)|
  {
    if |bs| > 1 && bs[Succ(i, |bs|)].free then Shift(i, Succ(i, |bs|)) else i
  }

  function JoinPrev(bs: seq<Blk>, i: nat): seq<Blk>
    requires i < |bs|
  {
    if |bs| > 1 && bs[Pred(i, |bs|)].free then Absorb(bs, Pred(i, |bs|)) else bs
  }

  function JoinedPrevIndex(bs: seq<Blk>, i: nat): (j: nat)
    requires i < |bs|
    ensures j < |JoinPrev(bs, i)|
  {
    if |bs| > 1 && bs[Pred(i, |bs|)].free then Shift(Pred(i, |bs|), i) else i
  }

  /** Releasing block i: join the next block if free, then be joined by the previous one if free. */
  function FreeBlocks(bs: seq<Blk>, i: nat): seq<Blk>
    requires i < |bs|
  {
    var b0 := bs[i := bs[i].(free := true, user := 0)];
    JoinPrev(JoinNext(b0, i), JoinedNextIndex(b0, i))
  }

  ghost predicate Good(bs: seq<Blk>, total: nat) {
    Tiles(bs, total) && Coalesced(bs) && AllSized(bs)
  }

  lemma CutSized(bs: seq<Blk>, i: nat, req: nat)
    requires AllSized(bs) && i < |bs| && bs[i].free && bs[i].size >= req + HEADER && req % ALIGNMENT == 0
    ensures AllSized(Cut(bs, i, req))
  {
    var r := Cut(bs, i, req);
    forall m | 0 <= m < |r| ensures Sized(r[m]) {
      if m < i { assert Sized(bs[m]); }
      if m > i + 1 { assert Sized(bs[m - 1]); }
      if i <= m <= i + 1 { assert Sized(bs[i]); }
    }
  }

  lemma JoinedSized(b: Blk, c: Blk)
    requires Sized(b) && Sized(c) && b.free && c.free
    ensures Sized(b.(size := b.size + HEADER + c.size))
  {
  }

  lemma AbsorbSized(bs: seq<Blk>, j: nat)
    requires AllSized(bs) && j < |bs| && |bs| > 1 && bs[j].free && bs[Succ(j, |bs|)].free
    ensures AllSized(Absorb(bs, j))
  {
    hide Sized;
    var r, k := Absorb(bs, j), Succ(j, |bs|);
    JoinedSized(bs[j], bs[k]);
    forall m | 0 <= m < |r| ensures Sized(r[m]) {
      assert Sized(bs[if m < k then m else m + 1]);
    }
  }

  /** Allocation keeps the blocks tiling the same window, with no two free neighbours. */
  lemma MallocGood(bs: seq<Blk>, total: nat, i: nat, size: nat)
    requires Good(bs, total) && i < |bs| && bs[i].free && size > 0 && bs[i].size >= AlignUp(size)
    ensures Good(MallocBlocks(bs, i, size), total)
    ensures MallocBlocks(bs, i, size)[0].addr == bs[0].addr
  {
    var req := AlignUp(size);
    var r := MallocBlocks(bs, i, size);
    assert Sized(bs[i]);
    if bs[i].size - req > HEADER + MIN_BLOCK {
      CutTiles(bs, total, i, req);
      CutSized(bs, i, req);
      var c := Cut(bs, i, req);
      MarkTiles(c, total, i, false, size);
      forall m | 0 <= m < |r| ensures !(r[m].free && r[Succ(m, |r|)].free) {
        if m < i && m + 1 < i { assert !(bs[m].free && bs[Succ(m, |bs|)].free); }
        if m > i && |bs| > 1 { assert !(bs[m - 1].free && bs[Succ(m - 1, |bs|)].free); }
      }
      forall m | 0 <= m < |r| ensures Sized(r[m]) { assert Sized(c[m]); }
    } else {
      MarkTiles(bs, total, i, false, size);
      forall m | 0 <= m < |r| ensures Sized(r[m]) { assert Sized(bs[m]); }
    }
  }

  ghost predicate PairAt(bs: seq<Blk>, m: nat, i: nat)
    requires m < |bs|
  {
    bs[m].free && bs[Succ(m, |bs|)].free ==> m == i || Succ(m, |bs|) == i
  }

  /** Only the block in hand may have a free neighbour. */
  ghost predicate CoalescedBut(bs: seq<Blk>, i: nat) {
    |bs| > 1 ==> forall m | 0 <= m < |bs| :: PairAt(bs, m, i)
  }

  lemma JoinNextGood(bs: seq<Blk>, total: nat, i: nat)
    requires Tiles(bs, total) && AllSized(bs) && i < |bs| && bs[i].free && CoalescedBut(bs, i)
    ensures var r, j := JoinNext(bs, i), JoinedNextIndex(bs, i);
            Tiles(r, total) && AllSized(r) && r[j].free && CoalescedBut(r, j)
            && (|r| > 1 ==> !r[Succ(j, |r|)].free || Succ(j, |r|) == Pred(j, |r|))
            && r[j].addr == bs[i].addr
  {
    var n, k := |bs|, Succ(i, |bs|);
    if n > 1 && bs[k].free {
      AbsorbTiles(bs, total, i);
      AbsorbSized(bs, i);
      var r, j := JoinNext(bs, i), JoinedNextIndex(bs, i);
      assert PairAt(bs, k, i);
      if |r| > 1 {
        forall m | 0 <= m < |r| ensures PairAt(r, m, j) {
          assert PairAt(bs, if m < k then m else m + 1, i);
        }
      }
    }
  }

  lemma JoinPrevGood(bs: seq<Blk>, total: nat, i: nat)
    requires Tiles(bs, total) && AllSized(bs) && i < |bs| && bs[i].free && CoalescedBut(bs, i)
    requires |bs| > 1 ==> !bs[Succ(i, |bs|)].free || Succ(i, |bs|) == Pred(i, |bs|)
    ensures Good(JoinPrev(bs, i), total)
    ensures |bs| > 1 && bs[Pred(i, |bs|)].free ==> JoinPrev(bs, i)[0].addr == if i == 0 then bs[1].addr else bs[0].addr
  {
    var n, p := |bs|, Pred(i, |bs|);
    if n > 1 && bs[p].free {
      AbsorbTiles(bs, total, p);
      AbsorbSized(bs, p);
      JoinPrevCoalesced(bs, i);
    } else if n > 1 {
      forall m | 0 <= m < n ensures !(bs[m].free && bs[Succ(m, n)].free) {
        assert PairAt(bs, m, i);
      }
    }
  }

  /** Which old blocks two neighbours come from once block i has been absorbed by the one before it. */
  lemma AbsorbedNeighbours(bs: seq<Blk>, i: nat, m: nat) returns (o: nat)
    requires i < |bs| && |bs| > 1 && m < |bs| - 1 && bs[i].free
    ensures var r := Absorb(bs, Pred(i, |bs|));
            o < |bs| && o != i && r[m].free == bs[o].free
            && r[Succ(m, |r|)].free == bs[if Succ(o, |bs|) == i then Succ(i, |bs|) else Succ(o, |bs|)].free
  {
    o := if m < i then m else m + 1;
  }

  lemma JoinPrevCoalesced(bs: seq<Blk>, i: nat)
    requires i < |bs| && |bs| > 1 && bs[i].free && CoalescedBut(bs, i) && bs[Pred(i, |bs|)].free
    requires !bs[Succ(i, |bs|)].free || Succ(i, |bs|) == Pred(i, |bs|)
    ensures Coalesced(JoinPrev(bs, i))
  {
    hide Absorb;
    var n, p := |bs|, Pred(i, |bs|);
    var r := JoinPrev(bs, i);
    assert PairAt(bs, Pred(p, n), i);
    forall m | 0 <= m < |r| && |r| > 1 ensures !(r[m].free && r[Succ(m, |r|)].free) {
      var o := AbsorbedNeighbours(bs, i, m);
      assert PairAt(bs, o, i);
    }
  }

  /** The block released and a free block across the end of the ring are joined. */
  ghost predicate WrapsAround(bs: seq<Blk>, i: nat)
    requires i < |bs|
  {
    |bs| > 1 && ((i == |bs| - 1 && bs[0].free) || (i == 0 && |bs| > 2 && bs[|bs| - 1].free))
  }

  /**
   Releasing a block keeps the blocks tiling a window of the same length, with no two
   free neighbours.  The window stays where it is unless the join goes around the ring,
   and then it moves up to the block after the one it started with.
   */
  lemma FreeGood(bs: seq<Blk>, total: nat, i: nat)
    requires Good(bs, total) && i < |bs| && !bs[i].free
    ensures Good(FreeBlocks(bs, i), total)
    ensures !WrapsAround(bs, i) ==> FreeBlocks(bs, i)[0].addr == bs[0].addr
    ensures WrapsAround(bs, i) ==> FreeBlocks(bs, i)[0].addr > bs[0].addr
  {
    var b0 := bs[i := bs[i].(free := true, user := 0)];
    var n := |bs|;
    MarkTiles(bs, total, i, true, 0);
    forall m | 0 <= m < n ensures Sized(b0[m]) { assert Sized(bs[m]); }
    if n > 1 {
      forall m | 0 <= m < n ensures PairAt(b0, m, i) {
        assert !(bs[m].free && bs[Succ(m, n)].free);
      }
    }
    JoinNextGood(b0, total, i);
    var b1, i1 := JoinNext(b0, i), JoinedNextIndex(b0, i);
    JoinPrevGood(b1, total, i1);
    FreeWindow(bs, total, i, b0, b1, i1);
  }

  /** The blocks that are left when j takes over its successor keep their addresses, and are free as before. */
  lemma AbsorbedAt(bs: seq<Blk>, j: nat, m: nat)
    requires j < |bs| && |bs| > 1 && m < |bs| - 1
    ensures var o := if m < Succ(j, |bs|) then m else m + 1;
            Absorb(bs, j)[m].addr == bs[o].addr && Absorb(bs, j)[m].free == bs[o].free
  {
  }

  lemma FreeWindow(bs: seq<Blk>, total: nat, i: nat, b0: seq<Blk>, b1: seq<Blk>, i1: nat)
    requires Tiles(bs, total) && Coalesced(bs) && i < |bs| && !bs[i].free
    requires b0 == bs[i := bs[i].(free := true, user := 0)]
    requires b1 == JoinNext(b0, i) && i1 == JoinedNextIndex(b0, i)
    ensures JoinPrev(b1, i1)[0].addr == bs[0].addr || WrapsAround(bs, i)
    ensures WrapsAround(bs, i) ==> JoinPrev(b1, i1)[0].addr > bs[0].addr
  {
    hide Absorb, Tiles, Coalesced;
    var n := |bs|;
    if n > 1 {
      TilesAscend(bs, total, 0, 1);
      if n > 2 { TilesAscend(bs, total, 0, 2); }
      if bs[Succ(i, n)].free {
        AbsorbedAt(b0, i, 0);
        if n > 2 {
          AbsorbedAt(b0, i, 1);
          AbsorbedAt(b0, i, n - 2);
          AbsorbedAt(b1, Pred(i1, n - 1), 0);
        }
      } else {
        AbsorbedAt(b0, Pred(i, n), 0);
      }
    }
  }

  // ----- the regions in use, as callers see them -----

  ghost predicate UniqueAddrs(bs: seq<Blk>) {
    forall i, j | 0 <= i < j < |bs| :: bs[i].addr != bs[j].addr
  }

  lemma TilesUnique(bs: seq<Blk>, total: nat)
    requires Tiles(bs, total)
    ensures UniqueAddrs(bs)
  {
    forall i, j | 0 <= i < j < |bs| ensures bs[i].addr != bs[j].addr { TilesAscend(bs, total, i, j); }
  }

  function HeapOf(bs: seq<Blk>): Heap {
    if bs == [] then map[]
    else
      var n := |bs| - 1;
      if bs[n].free then HeapOf(bs[..n])
      else HeapOf(bs[..n])[bs[n].addr + HEADER := Region(bs[n].user, bs[n].size)]
  }

  /** Every region in the heap is the payload of a block in use. */
  lemma {:induction false} HeapHasBlock(bs: seq<Blk>, p: int) returns (i: nat)
    requires p in HeapOf(bs)
    ensures i < |bs| && !bs[i].free && p == bs[i].addr + HEADER && HeapOf(bs)[p] == Region(bs[i].user, bs[i].size)
  {
    var n := |bs| - 1;
    if !bs[n].free && p == bs[n].addr + HEADER { i := n; } else { i := HeapHasBlock(bs[..n], p); }
  }

  lemma {:induction false} BlockInHeap(bs: seq<Blk>, i: nat)
    requires UniqueAddrs(bs) && i < |bs| && !bs[i].free
    ensures var p := bs[i].addr + HEADER; p in HeapOf(bs) && HeapOf(bs)[p] == Region(bs[i].user, bs[i].size)
  {
    var n := |bs| - 1;
    if i < n { BlockInHeap(bs[..n], i); }
  }

  lemma NotInHeap(bs: seq<Blk>, p: int)
    requires forall i | 0 <= i < |bs| :: bs[i].free || bs[i].addr + HEADER != p
    ensures p !in HeapOf(bs)
  {
    if p in HeapOf(bs) { var i := HeapHasBlock(bs, p); }
  }

  lemma HeapOfSeparate(bs: seq<Blk>, total: nat)
    requires Tiles(bs, total)
    ensures Separate(HeapOf(bs))
  {
    var h := HeapOf(bs);
    forall p <- h, q <- h | p < q ensures p + h[p].cap <= q {
      var i := HeapHasBlock(bs, p);
      var j := HeapHasBlock(bs, q);
      if i < j { TilesAscend(bs, total, i, j); } else if j < i { TilesAscend(bs, total, j, i); }
    }
  }

  /** Free blocks do not show in the heap, whatever their place and size. */
  lemma {:induction false} FreeBlockChanged(bs: seq<Blk>, i: nat, b: Blk)
    requires i < |bs| && bs[i].free && b.free
    ensures HeapOf(bs[i := b]) == HeapOf(bs)
  {
    var n := |bs| - 1;
    if i < n {
      FreeBlockChanged(bs[..n], i, b);
      assert bs[i := b][..n] == bs[..n][i := b];
    } else {
      assert bs[i := b][..n] == bs[..n];
    }
  }

  lemma {:induction false} FreeBlockRemoved(bs: seq<Blk>, i: nat)
    requires i < |bs| && bs[i].free
    ensures HeapOf(Remove(bs, i)) == HeapOf(bs)
  {
    var n := |bs| - 1;
    if i < n {
      FreeBlockRemoved(bs[..n], i);
      assert Remove(bs, i)[..n - 1] == Remove(bs[..n], i);
    } else {
      assert Remove(bs, i) == bs[..n];
    }
  }

  lemma AbsorbHeap(bs: seq<Blk>, j: nat, k: nat)
    requires j < |bs| && |bs| > 1 && k == Succ(j, |bs|) && bs[j].free && bs[k].free
    ensures HeapOf(Absorb(bs, j)) == HeapOf(bs)
  {
    hide HeapOf, Absorb, Remove;
    AbsorbIs(bs, j);
    ChangeAndRemove(bs, j, k, bs[j].(size := bs[j].size + HEADER + bs[k].size));
  }

  lemma AbsorbIs(bs: seq<Blk>, j: nat)
    requires j < |bs| && |bs| > 1
    ensures Absorb(bs, j) == Remove(bs[j := bs[j].(size := bs[j].size + HEADER + bs[Succ(j, |bs|)].size)], Succ(j, |bs|))
  {
  }

  lemma ChangeAndRemove(bs: seq<Blk>, j: nat, k: nat, b: Blk)
    requires j < |bs| && k < |bs| && j != k && bs[j].free && bs[k].free && b.free
    ensures HeapOf(Remove(bs[j := b], k)) == HeapOf(bs)
  {
    hide *;
    FreeBlockChanged(bs, j, b);
    FreeBlockRemoved(bs[j := b], k);
  }

  lemma CutHeap(bs: seq<Blk>, i: nat, req: nat)
    requires i < |bs| && bs[i].free && bs[i].size >= req + HEADER
    ensures HeapOf(Cut(bs, i, req)) == HeapOf(bs)
  {
    hide HeapOf;
    var c := bs[i := bs[i].(size := req)];
    var r := Cut(bs, i, req);
    FreeBlockChanged(bs, i, c[i]);
    FreeBlockRemoved(r, i + 1);
    assert Remove(r, i + 1) == c;
  }

  lemma {:induction false} MarkUsedHeap(bs: seq<Blk>, i: nat, user: nat)
    requires UniqueAddrs(bs) && i < |bs| && bs[i].free
    ensures var p := bs[i].addr + HEADER;
            p !in HeapOf(bs)
            && HeapOf(bs[i := bs[i].(free := false, user := user)]) == HeapOf(bs)[p := Region(user, bs[i].size)]
  {
    var n, p := |bs| - 1, bs[i].addr + HEADER;
    var c := bs[i := bs[i].(free := false, user := user)];
    NotInHeap(bs, p);
    if i < n {
      MarkUsedHeap(bs[..n], i, user);
      assert c[..n] == bs[..n][i := c[i]];
    } else {
      assert c[..n] == bs[..n];
    }
  }

  lemma MarkFreeHeap(bs: seq<Blk>, i: nat)
    requires UniqueAddrs(bs) && i < |bs| && !bs[i].free
    ensures var c := bs[i := bs[i].(free := true, user := 0)]; var p := bs[i].addr + HEADER;
            UniqueAddrs(c) && p in HeapOf(bs) && HeapOf(bs)[p] == Region(bs[i].user, bs[i].size)
            && HeapOf(c) == HeapOf(bs) - {p}
  {
    var c, p := bs[i := bs[i].(free := true, user := 0)], bs[i].addr + HEADER;
    MarkUsedHeap(c, i, bs[i].user);
    assert c[i := c[i].(free := false, user := bs[i].user)] == bs;
  }

  /** Blocks start at multiples of 8 from the first one on. */
  lemma {:induction false} AddrsAligned(bs: seq<Blk>, total: nat, i: nat)
    requires Tiles(bs, total) && AllSized(bs) && i < |bs|
    ensures (bs[i].addr - bs[0].addr) % 8 == 0
  {
    if i > 0 {
      AddrsAligned(bs, total, i - 1);
      assert Sized(bs[i - 1]) && End(bs[i - 1]) == bs[i].addr;
    }
  }

  /**
   In numbers: a request is rounded up to a multiple of 8; the block is split exactly
   when more than 72 bytes are left over, of which 56 become the header of the rest; so
   a region is never more than 79 bytes larger than was asked for.
   */
  lemma ServedFigures(bs: seq<Blk>, total: nat, i: nat, size: nat)
    requires Good(bs, total) && i < |bs| && bs[i].free && size > 0 && bs[i].size >= AlignUp(size)
    ensures var r, need := MallocBlocks(bs, i, size), (size + 7) / 8 * 8;
            && (if bs[i].size - need > 72
                then |r| == |bs| + 1 && r[i].size == need
                     && r[i + 1] == Blk(bs[i].addr + 56 + need, bs[i].size - need - 56, true, 0)
                else |r| == |bs| && r[i].size == bs[i].size)
            && r[i].addr == bs[i].addr && !r[i].free && r[i].user == size && size <= r[i].size <= size + 79
    ensures (bs[i].addr - bs[0].addr) % 8 == 0
  {
    AddrsAligned(bs, total, i);
  }

  lemma MallocHeap(bs: seq<Blk>, total: nat, i: nat, size: nat)
    requires Good(bs, total) && i < |bs| && bs[i].free && size > 0 && bs[i].size >= AlignUp(size)
    ensures var r, p := MallocBlocks(bs, i, size), bs[i].addr + HEADER;
            p !in HeapOf(bs) && HeapOf(r) == HeapOf(bs)[p := Region(size, r[i].size)] && r[i].size >= size
  {
    hide HeapOf, Tiles, Coalesced, AllSized, UniqueAddrs;
    var req := AlignUp(size);
    if bs[i].size - req > HEADER + MIN_BLOCK {
      CutHeap(bs, i, req);
      CutTiles(bs, total, i, req);
      TilesUnique(Cut(bs, i, req), total);
      MarkUsedHeap(Cut(bs, i, req), i, size);
    } else {
      TilesUnique(bs, total);
      MarkUsedHeap(bs, i, size);
    }
  }

  lemma FreeHeap(bs: seq<Blk>, total: nat, i: nat)
    requires Good(bs, total) && i < |bs| && !bs[i].free
    ensures var p := bs[i].addr + HEADER;
            p in HeapOf(bs) && HeapOf(bs)[p].req == bs[i].user && HeapOf(FreeBlocks(bs, i)) == HeapOf(bs) - {p}
  {
    hide HeapOf, Tiles, Coalesced, AllSized, UniqueAddrs;
    var b0 := bs[i := bs[i].(free := true, user := 0)];
    TilesUnique(bs, total);
    MarkFreeHeap(bs, i);
    if |bs| > 1 && b0[Succ(i, |bs|)].free { AbsorbHeap(b0, i, Succ(i, |bs|)); }
    var b1, i1 := JoinNext(b0, i), JoinedNextIndex(b0, i);
    if |b1| > 1 && b1[Pred(i1, |b1|)].free { AbsorbHeap(b1, Pred(i1, |b1|), i1); }
  }

  // ----- figures -----

  function LiveCount(bs: seq<Blk>): nat {
    if bs == [] then 0 else LiveCount(bs[..|bs| - 1]) + if bs[|bs| - 1].free then 0 else 1
  }

  function FreeCount(bs: seq<Blk>): nat {
    if bs == [] then 0 else FreeCount(bs[..|bs| - 1]) + if bs[|bs| - 1].free then 1 else 0
  }

  /** Bytes of the blocks that are free (or in use), headers included. */
  function Bytes(bs: seq<Blk>, free: bool): nat {
    if bs == [] then 0
    else Bytes(bs[..|bs| - 1], free) + if bs[|bs| - 1].free == free then bs[|bs| - 1].size + HEADER else 0
  }

  lemma {:induction false} BytesFill(bs: seq<Blk>, total: nat)
    requires Tiles(bs, total)
    ensures Bytes(bs, true) + Bytes(bs, false) == total
  {
    var n := |bs| - 1;
    if n == 0 {
      assert bs[..0] == [];
    } else {
      assert End(bs[n - 1]) == bs[n].addr;
      BytesFill(bs[..n], End(bs[n - 1]) - bs[0].addr) by { TilesAscend(bs, total, 0, n); }
    }
  }

  lemma {:induction false} LiveCountIsHeapSize(bs: seq<Blk>)
    requires UniqueAddrs(bs)
    ensures |HeapOf(bs)| == LiveCount(bs)
  {
    if bs != [] {
      var n := |bs| - 1;
      LiveCountIsHeapSize(bs[..n]);
      NotInHeap(bs[..n], bs[n].addr + HEADER);
    }
  }

  /** A row in which no two neighbours are free has at most one more free block than blocks in use. */
  lemma {:induction false} FreeAlternates(bs: seq<Blk>)
    requires forall i | 0 <= i < |bs| - 1 :: !(bs[i].free && bs[i + 1].free)
    ensures FreeCount(bs) <= LiveCount(bs) + if bs != [] && bs[0].free && bs[|bs| - 1].free then 1 else 0
    ensures bs != [] && !bs[|bs| - 1].free ==> FreeCount(bs) + (if bs[0].free then 0 else 1) <= LiveCount(bs)
    ensures bs != [] && bs[|bs| - 1].free && !bs[0].free ==> FreeCount(bs) <= LiveCount(bs)
  {
    if bs != [] {
      var n := |bs| - 1;
      if n > 0 {
        assert !(bs[n - 1].free && bs[n].free);
        FreeAlternates(bs[..n]);
      } else {
        assert bs[..0] == [];
      }
    }
  }

  /** At most as many free blocks as blocks in use, or a single free block holding everything. */
  lemma FewFreeBlocks(bs: seq<Blk>, total: nat)
    requires Good(bs, total)
    ensures FreeCount(bs) <= LiveCount(bs) || (|bs| == 1 && bs[0].free && LiveCount(bs) == 0 && FreeCount(bs) == 1)
    ensures LiveCount(bs) == 0 ==> |bs| == 1 && bs[0].free && bs[0].size == total - HEADER
  {
    var n := |bs|;
    forall i | 0 <= i < n - 1 ensures !(bs[i].free && bs[i + 1].free) {
      assert !(bs[i].free && bs[Succ(i, n)].free);
    }
    if n > 1 {
      assert !(bs[n - 1].free && bs[Succ(n - 1, n)].free);
    } else {
      assert bs[..0] == [];
    }
    FreeAlternates(bs);
    CountsAddUp(bs);
  }

  lemma {:induction false} CountsAddUp(bs: seq<Blk>)
    ensures FreeCount(bs) + LiveCount(bs) == |bs|
  {
    if bs != [] { CountsAddUp(bs[..|bs| - 1]); }
  }

  // ----- the block the window starts with -----

  lemma MallocKeepsFirst(bs: seq<Blk>, i: nat, size: nat)
    requires i < |bs| && bs[i].free && bs[i].size >= AlignUp(size) && !bs[0].free
    ensures MallocBlocks(bs, i, size)[0] == bs[0]
  {
  }

  /** A block in use that starts the window is untouched by the release of any other block. */
  lemma FreeKeepsFirst(bs: seq<Blk>, i: nat)
    requires i < |bs| && !bs[i].free && !bs[0].free && i != 0
    ensures |FreeBlocks(bs, i)| > 0 && FreeBlocks(bs, i)[0] == bs[0]
  {
    var b0 := bs[i := bs[i].(free := true, user := 0)];
    var b1, i1 := JoinNext(b0, i), JoinedNextIndex(b0, i);
    assert b1[0] == bs[0] && i1 != 0;
  }

  // ----- runs -----

  datatype Op = MallocAt(i: nat, size: nat) | FreeAt(i: nat)

  ghost predicate OpStep(bs: seq<Blk>, op: Op, cs: seq<Blk>) {
    match op
    case MallocAt(i, size) =>
      i < |bs| && bs[i].free && size > 0 && bs[i].size >= AlignUp(size) && cs == MallocBlocks(bs, i, size)
    case FreeAt(i) => i < |bs| && !bs[i].free && cs == FreeBlocks(bs, i)
  }

  ghost predicate OpRun(states: seq<seq<Blk>>, ops: seq<Op>) {
    |states| == |ops| + 1 && forall n | 0 <= n < |ops| :: OpStep(states[n], ops[n], states[n + 1])
  }

  lemma OpGood(bs: seq<Blk>, op: Op, cs: seq<Blk>, total: nat)
    requires Good(bs, total) && OpStep(bs, op, cs)
    ensures Good(cs, total) && bs[0].addr <= cs[0].addr
  {
    hide MallocBlocks, FreeBlocks, Coalesced, AllSized, WrapsAround;
    match op
    case MallocAt(i, size) => MallocGood(bs, total, i, size);
    case FreeAt(i) => FreeGood(bs, total, i);
  }

  /** Along every run the blocks stay a gapless, fully coalesced tiling of the same length. */
  lemma {:induction false} RunGood(states: seq<seq<Blk>>, ops: seq<Op>, total: nat, n: nat)
    requires OpRun(states, ops) && Good(states[0], total) && n < |states|
    ensures Good(states[n], total) && states[0][0].addr <= states[n][0].addr
  {
    hide OpStep, Coalesced, AllSized;
    if n > 0 {
      RunGood(states, ops, total, n - 1);
      OpGood(states[n - 1], ops[n - 1], states[n], total);
    }
  }

  /** As long as the block that starts the arena stays in use, the window is the arena itself. */
  lemma {:induction false} RunAnchored(states: seq<seq<Blk>>, ops: seq<Op>, total: nat, n: nat)
    requires OpRun(states, ops) && Good(states[0], total) && n < |states|
    requires !states[0][0].free && forall m | 0 <= m < |ops| :: ops[m] != FreeAt(0)
    ensures Good(states[n], total) && states[n][0] == states[0][0]
    ensures forall i | 0 <= i < |states[n]| ::
              states[0][0].addr <= states[n][i].addr && End(states[n][i]) <= states[0][0].addr + total
  {
    if n > 0 {
      RunAnchored(states, ops, total, n - 1);
      assert OpStep(states[n - 1], ops[n - 1], states[n]) && ops[n - 1] != FreeAt(0);
      match ops[n - 1] {
        case MallocAt(i, size) => MallocKeepsFirst(states[n - 1], i, size);
        case FreeAt(i) => FreeKeepsFirst(states[n - 1], i);
      }
    }
    RunGood(states, ops, total, n);
    forall i | 0 <= i < |states[n]|
      ensures states[0][0].addr <= states[n][i].addr && End(states[n][i]) <= states[0][0].addr + total
    {
      TilesBounds(states[n], total, i);
    }
  }

  /** What an operation is to the caller. */
  function EventOf(bs: seq<Blk>, op: Op): Event {
    match op
    case MallocAt(i, size) => Allocate(size, if i < |bs| then bs[i].addr + HEADER else NULL)
    case FreeAt(i) => if i < |bs| then Release(bs[i].addr + HEADER, bs[i].user) else Release(NULL, 0)
  }

  lemma OpIsStep(bs: seq<Blk>, op: Op, cs: seq<Blk>, total: nat)
    requires Good(bs, total) && OpStep(bs, op, cs) && bs[0].addr >= 0
    ensures Step(HeapOf(bs), EventOf(bs, op), HeapOf(cs))
  {
    hide HeapOf, Good, MallocStep, FreeStep, MallocBlocks, FreeBlocks;
    match op
    case MallocAt(i, size) => MallocIsStep(bs, total, i, size);
    case FreeAt(i) => FreeIsStep(bs, total, i);
  }

  lemma MallocIsStep(bs: seq<Blk>, total: nat, i: nat, size: nat)
    requires Good(bs, total) && bs[0].addr >= 0 && i < |bs| && bs[i].free && size > 0 && bs[i].size >= AlignUp(size)
    ensures MallocStep(HeapOf(bs), size, bs[i].addr + HEADER, HeapOf(MallocBlocks(bs, i, size)))
  {
    hide HeapOf, Coalesced, AllSized, Separate, MallocBlocks, MallocStep;
    TilesBounds(bs, total, i);
    MallocHeap(bs, total, i, size);
    MallocGood(bs, total, i, size);
    HeapOfSeparate(MallocBlocks(bs, i, size), total);
    MallocStepFor(HeapOf(bs), size, bs[i].addr + HEADER, HeapOf(MallocBlocks(bs, i, size)));
  }

  lemma FreeIsStep(bs: seq<Blk>, total: nat, i: nat)
    requires Good(bs, total) && i < |bs| && !bs[i].free
    ensures FreeStep(HeapOf(bs), bs[i].addr + HEADER, bs[i].user, HeapOf(FreeBlocks(bs, i)))
  {
    hide HeapOf, Good, FreeBlocks;
    FreeHeap(bs, total, i);
  }

  /**
   Every run of the manager is a run of the heap that both managers promise: live
   regions never overlap, and what was granted is what was released and what is live.
   */
  lemma RunRefinesHeap(states: seq<seq<Blk>>, ops: seq<Op>, total: nat, hs: seq<Heap>, es: seq<Event>)
    requires OpRun(states, ops) && Good(states[0], total) && states[0][0].addr >= 0 && HeapOf(states[0]) == map[]
    requires |hs| == |states| && forall n | 0 <= n < |states| :: hs[n] == HeapOf(states[n])
    requires |es| == |ops| && forall n | 0 <= n < |ops| :: es[n] == EventOf(states[n], ops[n])
    ensures Run(hs, es)
    ensures Separate(HeapOf(states[|ops|])) && Granted(es) == Released(es) + Requested(HeapOf(states[|ops|]))
  {
    hide HeapOf, Good, EventOf, Separate;
    forall n | 0 <= n < |es| ensures Step(hs[n], es[n], hs[n + 1]) {
      RunGood(states, ops, total, n);
      assert OpStep(states[n], ops[n], states[n + 1]);
      OpIsStep(states[n], ops[n], states[n + 1], total);
    }
    RunConserves(hs, es);
  }

  /**
   Once the first block is released the window can leave the arena: two regions served
   from a fresh arena of 144 bytes and released in address order.
   */
  lemma WindowCanSlide(start: int)
    ensures var s0, s4 := [Blk(start, 88, true, 0)], [Blk(start + 64, 88, true, 0)];
            var s1 := [Blk(start, 8, false, 8), Blk(start + 64, 24, true, 0)];
            var s2 := [Blk(start, 8, false, 8), Blk(start + 64, 24, false, 24)];
            var s3 := [Blk(start, 8, true, 0), Blk(start + 64, 24, false, 24)];
            && Good(s0, 144) && OpRun([s0, s1, s2, s3, s4], [MallocAt(0, 8), MallocAt(1, 24), FreeAt(0), FreeAt(1)])
            && End(s4[0]) > start + 144
  {
    var s0, s1 := [Blk(start, 88, true, 0)], [Blk(start, 8, false, 8), Blk(start + 64, 24, true, 0)];
    var s2 := [Blk(start, 8, false, 8), Blk(start + 64, 24, false, 24)];
    var s3 := [Blk(start, 8, true, 0), Blk(start + 64, 24, false, 24)];
    assert MallocBlocks(s0, 0, 8) == s1;
    assert MallocBlocks(s1, 1, 24) == s2;
    assert FreeBlocks(s2, 0) == s3;
    var b0 := [Blk(start, 8, true, 0), Blk(start + 64, 24, true, 0)];
    assert Absorb(b0, 1) == [Blk(start + 64, 88, true, 0)];
    assert FreeBlocks(s3, 1) == [Blk(start + 64, 88, true, 0)];
  }
}
