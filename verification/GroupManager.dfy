/**
 The group memory manager: first fit over a ring of free blocks, with all blocks
 on a second ring in address order.  Every header field is a map from the header's
 address to the field's value.
 */
module GroupManager {
  import opened Circle
  import opened AbstractHeap
  import opened GroupBlocks

  // ----- what the header fields must say about the blocks -----

  ghost predicate Physical(size: map<int, nat>, next: map<int, int>, prev: map<int, int>, bs: seq<Blk>) {
    Sizes(size, bs) && Forward(next, Addrs(bs)) && Backward(prev, Addrs(bs))
  }

  ghost predicate Sizes(size: map<int, nat>, bs: seq<Blk>) {
    forall i | 0 <= i < |bs| :: bs[i].addr in size && size[bs[i].addr] == bs[i].size
  }

  ghost predicate FlagAt(isFree: map<int, bool>, userSize: map<int, nat>, b: Blk, hand: int) {
    b.addr in isFree && b.addr in userSize
    && (if b.addr == hand then !isFree[b.addr] else isFree[b.addr] == b.free && userSize[b.addr] == b.user)
  }

  /** The block in hand is marked in use whatever it is about to become. */
  ghost predicate Flags(isFree: map<int, bool>, userSize: map<int, nat>, bs: seq<Blk>, hand: int) {
    forall i | 0 <= i < |bs| :: FlagAt(isFree, userSize, bs[i], hand)
  }

  ghost predicate FreeRing(freeNext: map<int, int>, freePrev: map<int, int>, head: int, f: seq<int>) {
    && Distinct(f) && (forall i | 0 <= i < |f| :: f[i] != NULL)
    && head == (if f == [] then NULL else f[0])
    && Forward(freeNext, f) && Backward(freePrev, f)
  }

  ghost predicate FreeAt(bs: seq<Blk>, x: int) {
    exists i :: 0 <= i < |bs| && bs[i].addr == x && bs[i].free
  }

  /** The free ring holds exactly the free blocks, less the one in hand. */
  ghost predicate Listed(f: seq<int>, bs: seq<Blk>, hand: int) {
    forall x :: x in f <==> x != hand && FreeAt(bs, x)
  }

  lemma FreeAtIndex(bs: seq<Blk>, i: nat)
    requires UniqueAddrs(bs) && i < |bs|
    ensures FreeAt(bs, bs[i].addr) <==> bs[i].free
  {
  }

  // ----- the elementary steps, on values -----

  lemma ListedCut(f: seq<int>, bs: seq<Blk>, i: nat, req: nat)
    requires Listed(f, bs, NULL) && i < |bs| && bs[i].free && bs[i].size >= req + HEADER && bs[i].addr > 0
    ensures Listed([bs[i].addr + HEADER + req] + f, Cut(bs, i, req), NULL)
  {
    var r, y := Cut(bs, i, req), bs[i].addr + HEADER + req;
    forall x ensures x in [y] + f <==> x != NULL && FreeAt(r, x) {
      if FreeAt(r, x) {
        var m :| 0 <= m < |r| && r[m].addr == x && r[m].free;
        if m != i + 1 { var o := if m <= i then m else m - 1; assert bs[o].addr == x && bs[o].free; }
      }
      if FreeAt(bs, x) {
        var m :| 0 <= m < |bs| && bs[m].addr == x && bs[m].free;
        var o := if m <= i then m else m + 1;
        assert r[o].addr == x && r[o].free;
      }
      assert r[i + 1].addr == y && r[i + 1].free;
    }
  }

  lemma ListedTaken(f: seq<int>, bs: seq<Blk>, i: nat, idx: nat, user: nat)
    requires Listed(f, bs, NULL) && Distinct(f) && UniqueAddrs(bs) && i < |bs| && idx < |f| && f[idx] == bs[i].addr
    ensures Listed(Remove(f, idx), bs[i := bs[i].(free := false, user := user)], NULL)
  {
    var c := bs[i := bs[i].(free := false, user := user)];
    RemoveFacts(f, idx);
    forall x ensures FreeAt(c, x) <==> FreeAt(bs, x) && x != bs[i].addr {
      if FreeAt(c, x) { var m :| 0 <= m < |c| && c[m].addr == x && c[m].free; assert bs[m] == c[m]; }
      if FreeAt(bs, x) && x != bs[i].addr { var m :| 0 <= m < |bs| && bs[m].addr == x && bs[m].free; assert c[m] == bs[m]; }
    }
  }

  lemma ListedInHand(f: seq<int>, bs: seq<Blk>, i: nat)
    requires Listed(f, bs, NULL) && UniqueAddrs(bs) && i < |bs| && !bs[i].free
    requires forall m | 0 <= m < |bs| :: bs[m].addr > 0
    ensures Listed(f, bs[i := bs[i].(free := true, user := 0)], bs[i].addr)
  {
    var c := bs[i := bs[i].(free := true, user := 0)];
    forall x | x != bs[i].addr ensures FreeAt(c, x) <==> FreeAt(bs, x) {
      if FreeAt(c, x) { var m :| 0 <= m < |c| && c[m].addr == x && c[m].free; assert bs[m] == c[m]; }
      if FreeAt(bs, x) { var m :| 0 <= m < |bs| && bs[m].addr == x && bs[m].free; assert c[m] == bs[m]; }
    }
    forall x ensures x in f <==> x != bs[i].addr && FreeAt(c, x) {
      FreeAtIndex(bs, i);
      assert x in f <==> x != NULL && FreeAt(bs, x);
    }
  }

  /** Block j takes over block k; one of them is in hand and the other leaves the free ring. */
  lemma ListedAbsorb(f: seq<int>, bs: seq<Blk>, j: nat, k: nat, hand: int, idx: nat)
    requires UniqueAddrs(bs) && j < |bs| && |bs| > 1 && k == Succ(j, |bs|) && bs[j].free && bs[k].free
    requires Listed(f, bs, hand) && Distinct(f) && idx < |f|
    requires (hand == bs[j].addr && f[idx] == bs[k].addr) || (hand == bs[k].addr && f[idx] == bs[j].addr)
    ensures Listed(Remove(f, idx), Absorb(bs, j), bs[j].addr)
  {
    hide Absorb, UniqueAddrs, Distinct, FreeAt;
    RemoveFacts(f, idx);
    forall x | x != bs[j].addr ensures FreeAt(Absorb(bs, j), x) <==> FreeAt(bs, x) && x != bs[k].addr {
      AbsorbFreeAt(bs, j, k, x);
    }
    AbsorbedAddrs(bs, j, k);
  }

  lemma AbsorbedAddrs(bs: seq<Blk>, j: nat, k: nat)
    requires UniqueAddrs(bs) && j < |bs| && |bs| > 1 && k == Succ(j, |bs|) && bs[j].free && bs[k].free
    ensures bs[j].addr != bs[k].addr && FreeAt(bs, bs[j].addr) && FreeAt(bs, bs[k].addr)
  {
  }

  lemma AbsorbFreeAt(bs: seq<Blk>, j: nat, k: nat, x: int)
    requires UniqueAddrs(bs) && j < |bs| && |bs| > 1 && k == Succ(j, |bs|) && bs[j].free && bs[k].free && x != bs[j].addr
    ensures FreeAt(Absorb(bs, j), x) <==> FreeAt(bs, x) && x != bs[k].addr
  {
    var r := Absorb(bs, j);
    if FreeAt(r, x) {
      var m :| 0 <= m < |r| && r[m].addr == x && r[m].free;
      var o := if m < k then m else m + 1;
      assert bs[o].addr == x && bs[o].free;
    }
    if FreeAt(bs, x) && x != bs[k].addr {
      var m :| 0 <= m < |bs| && bs[m].addr == x && bs[m].free;
      var o := if m < k then m else m - 1;
      assert r[o].addr == x && r[o].free;
    }
  }

  lemma ListedBack(f: seq<int>, bs: seq<Blk>, i: nat, hand: int)
    requires Listed(f, bs, hand) && i < |bs| && bs[i].addr == hand && bs[i].free
    requires forall m | 0 <= m < |bs| :: bs[m].addr > 0
    ensures hand !in f && Listed([hand] + f, bs, NULL)
  {
    assert FreeAt(bs, hand);
    forall x ensures x in [hand] + f <==> x != NULL && FreeAt(bs, x) {
      assert x in f <==> x != hand && FreeAt(bs, x);
    }
  }

  lemma SizesCut(size: map<int, nat>, bs: seq<Blk>, i: nat, req: nat, y: int)
    requires Sizes(size, bs) && i < |bs| && bs[i].size >= req + HEADER && y == bs[i].addr + HEADER + req
    requires UniqueAddrs(Cut(bs, i, req))
    ensures Sizes(size[y := bs[i].size - req - HEADER][bs[i].addr := req], Cut(bs, i, req))
  {
    var r := Cut(bs, i, req);
    var size' := size[y := bs[i].size - req - HEADER][bs[i].addr := req];
    assert r[i].addr == bs[i].addr && r[i + 1].addr == y;
    forall m | 0 <= m < |r| ensures r[m].addr in size' && size'[r[m].addr] == r[m].size {
      if m < i { assert r[m] == bs[m] && r[m].addr != r[i].addr && r[m].addr != r[i + 1].addr; }
      if m > i + 1 { assert r[m] == bs[m - 1] && r[m].addr != r[i].addr && r[m].addr != r[i + 1].addr; }
    }
  }

  lemma NewAddress(bs: seq<Blk>, total: nat, i: nat, req: nat)
    requires Tiles(bs, total) && i < |bs| && bs[i].size >= req + HEADER
    ensures bs[i].addr + HEADER + req !in Addrs(bs) && Distinct(Addrs(bs)) && UniqueAddrs(Cut(bs, i, req))
    ensures Addrs(Cut(bs, i, req)) == InsertAfter(Addrs(bs), i, bs[i].addr + HEADER + req)
  {
    CutTiles(bs, total, i, req);
    TilesUnique(Cut(bs, i, req), total);
    TilesDistinct(bs, total);
    forall m | 0 <= m < |bs| ensures bs[m].addr != bs[i].addr + HEADER + req {
      if m < i { TilesAscend(bs, total, m, i); } else if m > i { TilesAscend(bs, total, i, m); }
    }
  }

  lemma PhysicalCut(size: map<int, nat>, next: map<int, int>, prev: map<int, int>, bs: seq<Blk>, total: nat, i: nat, req: nat,
                    c: int, y: int, q: int)
    requires Physical(size, next, prev, bs) && Tiles(bs, total) && i < |bs| && bs[i].size >= req + HEADER
    requires c == bs[i].addr && y == c + HEADER + req && q == bs[Succ(i, |bs|)].addr
    ensures c in size && c in next && next[c] == q && y !in Addrs(bs)
    ensures Physical(size[y := bs[i].size - req - HEADER][c := req], next[y := q][c := y],
                     prev[y := c][q := y], Cut(bs, i, req))
  {
    hide Forward, Backward, Sizes, Tiles, Distinct, UniqueAddrs;
    NewAddress(bs, total, i, req);
    SizesCut(size, bs, i, req, y);
    ForwardInsert(next, Addrs(bs), i, y);
    BackwardInsert(prev, Addrs(bs), i, y);
    NextOf(size, next, prev, bs, i);
  }

  lemma NextOf(size: map<int, nat>, next: map<int, int>, prev: map<int, int>, bs: seq<Blk>, i: nat)
    requires Physical(size, next, prev, bs) && i < |bs|
    ensures bs[i].addr in size && size[bs[i].addr] == bs[i].size
    ensures bs[i].addr in next && next[bs[i].addr] == bs[Succ(i, |bs|)].addr
    ensures bs[i].addr in prev && prev[bs[i].addr] == bs[Pred(i, |bs|)].addr
  {
    assert Addrs(bs)[i] == bs[i].addr;
    BackwardAt(prev, Addrs(bs), i);
  }

  lemma SizesAbsorb(size: map<int, nat>, bs: seq<Blk>, j: nat, k: nat)
    requires Sizes(size, bs) && UniqueAddrs(bs) && j < |bs| && |bs| > 1 && k == Succ(j, |bs|)
    ensures bs[j].addr in size && bs[k].addr in size
    ensures Sizes(size[bs[j].addr := size[bs[j].addr] + HEADER + size[bs[k].addr]], Absorb(bs, j))
  {
    var r := Absorb(bs, j);
    var size' := size[bs[j].addr := size[bs[j].addr] + HEADER + size[bs[k].addr]];
    forall m | 0 <= m < |r| ensures r[m].addr in size' && size'[r[m].addr] == r[m].size {
      var o := if m < k then m else m + 1;
      assert r[m].addr == bs[o].addr;
    }
  }

  lemma PhysicalAbsorb(size: map<int, nat>, next: map<int, int>, prev: map<int, int>, bs: seq<Blk>, total: nat,
                       j: nat, k: nat, b: int, x: int, q: int)
    requires Physical(size, next, prev, bs) && Tiles(bs, total) && j < |bs| && |bs| > 1 && k == Succ(j, |bs|)
    requires b == bs[j].addr && x == bs[k].addr && q == bs[Succ(k, |bs|)].addr
    ensures b in size && x in size && x in next && next[x] == q && x in prev && prev[x] == b && b in next && next[b] == x
    ensures Physical(size[b := size[b] + HEADER + size[x]], next[b := q], prev[q := b], Absorb(bs, j))
  {
    hide Forward, Backward, Sizes, Tiles, Distinct, UniqueAddrs;
    TilesDistinct(bs, total);
    TilesUnique(bs, total);
    NextOf(size, next, prev, bs, j);
    NextOf(size, next, prev, bs, k);
    AddrsAbsorb(bs, j, k);
    SizesAbsorb(size, bs, j, k);
    ForwardRemove(next, Addrs(bs), k);
    BackwardRemove(prev, Addrs(bs), k);
  }

  lemma AddrsAbsorb(bs: seq<Blk>, j: nat, k: nat)
    requires j < |bs| && |bs| > 1 && k == Succ(j, |bs|)
    ensures Addrs(Absorb(bs, j)) == Remove(Addrs(bs), k) && Pred(k, |bs|) == j
  {
  }

  lemma FlagsCut(isFree: map<int, bool>, userSize: map<int, nat>, bs: seq<Blk>, i: nat, req: nat, y: int)
    requires Flags(isFree, userSize, bs, NULL) && i < |bs| && bs[i].free && bs[i].size >= req + HEADER
    requires y == bs[i].addr + HEADER + req && y > 0 && y !in Addrs(bs)
    ensures Flags(isFree[y := true], userSize[y := 0], Cut(bs, i, req), NULL)
  {
    var r := Cut(bs, i, req);
    forall m | 0 <= m < |r| ensures FlagAt(isFree[y := true], userSize[y := 0], r[m], NULL) {
      if m != i + 1 {
        var o := if m <= i then m else m - 1;
        assert FlagAt(isFree, userSize, bs[o], NULL) && Addrs(bs)[o] == bs[o].addr;
      }
    }
  }

  lemma FlagsAbsorb(isFree: map<int, bool>, userSize: map<int, nat>, isFree': map<int, bool>, bs: seq<Blk>,
                    j: nat, k: nat, hand: int)
    requires UniqueAddrs(bs) && Flags(isFree, userSize, bs, hand) && j < |bs| && |bs| > 1 && k == Succ(j, |bs|)
    requires hand == bs[j].addr || hand == bs[k].addr
    requires isFree' == isFree[if hand == bs[j].addr then bs[k].addr else bs[j].addr := false]
    ensures Flags(isFree', userSize, Absorb(bs, j), bs[j].addr)
  {
    var r := Absorb(bs, j);
    assert FlagAt(isFree, userSize, bs[j], hand);
    forall m | 0 <= m < |r| ensures FlagAt(isFree', userSize, r[m], bs[j].addr) {
      var o := if m < k then m else m + 1;
      assert FlagAt(isFree, userSize, bs[o], hand);
      assert o != j ==> bs[o].addr != bs[j].addr;
      assert bs[o].addr != bs[k].addr;
    }
  }

  /** Marking one block and nothing else. */
  lemma FlagsMark(isFree: map<int, bool>, userSize: map<int, nat>, isFree': map<int, bool>, userSize': map<int, nat>,
                  bs: seq<Blk>, i: nat, b: Blk, hand: int, hand': int)
    requires UniqueAddrs(bs) && Flags(isFree, userSize, bs, hand) && i < |bs| && b.addr == bs[i].addr
    requires b.addr in isFree' && isFree' == isFree[b.addr := isFree'[b.addr]]
    requires b.addr in userSize' && userSize' == userSize[b.addr := userSize'[b.addr]]
    requires (hand == NULL || hand == b.addr) && (hand' == NULL || hand' == b.addr)
    requires FlagAt(isFree', userSize', b, hand')
    requires forall m | 0 <= m < |bs| :: bs[m].addr > 0
    ensures Flags(isFree', userSize', bs[i := b], hand')
  {
    var cs := bs[i := b];
    forall m | 0 <= m < |bs| ensures FlagAt(isFree', userSize', cs[m], hand') {
      assert FlagAt(isFree, userSize, bs[m], hand);
    }
  }

  lemma MarkPhysical(size: map<int, nat>, next: map<int, int>, prev: map<int, int>, bs: seq<Blk>, i: nat, b: Blk)
    requires Physical(size, next, prev, bs) && i < |bs| && b.addr == bs[i].addr && b.size == bs[i].size
    ensures Physical(size, next, prev, bs[i := b])
  {
    assert Addrs(bs[i := b]) == Addrs(bs);
  }

  lemma AddrsPositive(bs: seq<Blk>, total: nat)
    requires Tiles(bs, total) && bs[0].addr > 0
    ensures forall m | 0 <= m < |bs| :: bs[m].addr > 0
  {
    forall m | 0 <= m < |bs| ensures bs[m].addr > 0 { TilesBounds(bs, total, m); }
  }

  lemma RingOfOne(fn: map<int, int>, fp: map<int, int>, head: int, f: seq<int>, k: nat)
    requires FreeRing(fn, fp, head, f) && k < |f|
    ensures f[k] in fn && f[k] in fp && f[k] != NULL
    ensures fn[f[k]] == f[k] <==> |f| == 1
  {
    BackwardAt(fp, f, k);
  }

  lemma RingRemove(fn: map<int, int>, fp: map<int, int>, head: int, f: seq<int>, k: nat, b: int, p: int, q: int)
    requires FreeRing(fn, fp, head, f) && k < |f| && |f| > 1 && b == f[k]
    requires b in fn && b in fp && q == fn[b] && p == fp[b]
    ensures p != b && q != b
    ensures FreeRing(fn[p := q][b := NULL], fp[q := p][b := NULL], if head == b then q else head, Remove(f, k))
  {
    BackwardAt(fp, f, k);
    var r := Remove(f, k);
    ForwardRemove(fn, f, k);
    BackwardRemove(fp, f, k);
    RemoveFacts(f, k);
    StaleLinks(fn[p := q], fp[q := p], r, b);
  }

  lemma StaleLinks(fn: map<int, int>, fp: map<int, int>, r: seq<int>, b: int)
    requires Forward(fn, r) && Backward(fp, r) && b !in r
    ensures Forward(fn[b := NULL], r) && Backward(fp[b := NULL], r)
  {
    ForwardFrame(fn, fn[b := NULL], r);
    forall i | 0 <= i < |r| ensures r[i] in fp { BackwardAt(fp, r, i); }
    BackwardFrame(fp, fp[b := NULL], r);
  }

  lemma RingPush(fn: map<int, int>, fp: map<int, int>, head: int, f: seq<int>, b: int, tail: int)
    requires FreeRing(fn, fp, head, f) && f != [] && b != NULL && b !in f && tail == f[|f| - 1]
    ensures head == f[0] && head in fp && fp[head] == tail && b != head && b != tail
    ensures FreeRing(fn[b := head][tail := b], fp[b := tail][head := b], b, [b] + f)
  {
    BackwardAt(fp, f, 0);
    CirclePush(fn, fp, f, b);
  }

  /** Everything about the fields at once, as a relation between values. */
  ghost predicate State(size: map<int, nat>, next: map<int, int>, prev: map<int, int>, isFree: map<int, bool>,
                        userSize: map<int, nat>, bs: seq<Blk>, f: seq<int>, start: nat, total: nat, hand: int)
  {
    && Tiles(bs, total) && bs[0].addr >= start > 0
    && Physical(size, next, prev, bs)
    && Flags(isFree, userSize, bs, hand)
    && Listed(f, bs, hand)
  }

  lemma StateCut(size: map<int, nat>, next: map<int, int>, prev: map<int, int>, isFree: map<int, bool>,
                 userSize: map<int, nat>, bs: seq<Blk>, f: seq<int>, start: nat, total: nat,
                 i: nat, req: nat, c: int, y: int, q: int)
    requires State(size, next, prev, isFree, userSize, bs, f, start, total, NULL)
    requires i < |bs| && bs[i].free && bs[i].size >= req + HEADER
    requires c == bs[i].addr && y == c + HEADER + req && q == bs[Succ(i, |bs|)].addr
    ensures c in next && next[c] == q && c in size && y != NULL && y !in f
    ensures State(size[y := bs[i].size - req - HEADER][c := req], next[y := q][c := y], prev[y := c][q := y],
                  isFree[y := true], userSize[y := 0], Cut(bs, i, req), [y] + f, start, total, NULL)
  {
    AddrsPositive(bs, total);
    PhysicalCut(size, next, prev, bs, total, i, req, c, y, q);
    FlagsCut(isFree, userSize, bs, i, req, y);
    ListedCut(f, bs, i, req);
    CutTiles(bs, total, i, req);
    forall m | 0 <= m < |bs| ensures bs[m].addr != y { assert Addrs(bs)[m] == bs[m].addr; }
  }

  lemma StateTaken(size: map<int, nat>, next: map<int, int>, prev: map<int, int>, isFree: map<int, bool>,
                   userSize: map<int, nat>, bs: seq<Blk>, f: seq<int>, start: nat, total: nat,
                   i: nat, idx: nat, user: nat, c: int)
    requires State(size, next, prev, isFree, userSize, bs, f, start, total, NULL) && Distinct(f)
    requires i < |bs| && bs[i].free && c == bs[i].addr && idx < |f| && f[idx] == c
    ensures c in isFree && isFree[c]
    ensures State(size, next, prev, isFree[c := false], userSize[c := user],
                  bs[i := bs[i].(free := false, user := user)], Remove(f, idx), start, total, NULL)
  {
    AddrsPositive(bs, total);
    TilesUnique(bs, total);
    var b := bs[i].(free := false, user := user);
    assert FlagAt(isFree, userSize, bs[i], NULL);
    MarkPhysical(size, next, prev, bs, i, b);
    FlagsMark(isFree, userSize, isFree[c := false], userSize[c := user], bs, i, b, NULL, NULL);
    ListedTaken(f, bs, i, idx, user);
    MarkTiles(bs, total, i, false, user);
  }

  lemma StateInHand(size: map<int, nat>, next: map<int, int>, prev: map<int, int>, isFree: map<int, bool>,
                    userSize: map<int, nat>, bs: seq<Blk>, f: seq<int>, start: nat, total: nat, i: nat, c: int)
    requires State(size, next, prev, isFree, userSize, bs, f, start, total, NULL)
    requires i < |bs| && !bs[i].free && c == bs[i].addr
    ensures State(size, next, prev, isFree, userSize[c := 0], bs[i := bs[i].(free := true, user := 0)], f, start, total, c)
  {
    AddrsPositive(bs, total);
    TilesUnique(bs, total);
    var b := bs[i].(free := true, user := 0);
    assert FlagAt(isFree, userSize, bs[i], NULL);
    MarkPhysical(size, next, prev, bs, i, b);
    FlagsMark(isFree, userSize, isFree, userSize[c := 0], bs, i, b, NULL, c);
    ListedInHand(f, bs, i);
    MarkTiles(bs, total, i, true, 0);
  }

  lemma StateAbsorb(size: map<int, nat>, next: map<int, int>, prev: map<int, int>, isFree: map<int, bool>,
                    userSize: map<int, nat>, bs: seq<Blk>, f: seq<int>, start: nat, total: nat,
                    j: nat, k: nat, hand: int, idx: nat, b: int, x: int, q: int)
    requires State(size, next, prev, isFree, userSize, bs, f, start, total, hand) && Distinct(f)
    requires j < |bs| && |bs| > 1 && k == Succ(j, |bs|) && bs[j].free && bs[k].free
    requires b == bs[j].addr && x == bs[k].addr && q == bs[Succ(k, |bs|)].addr && idx < |f|
    requires (hand == b && f[idx] == x) || (hand == x && f[idx] == b)
    ensures b in size && x in size && x in next && next[x] == q && x in prev && prev[x] == b && b in next && next[b] == x
    ensures State(size[b := size[b] + HEADER + size[x]], next[b := q], prev[q := b],
                  isFree[f[idx] := false], userSize, Absorb(bs, j), Remove(f, idx), start, total, b)
  {
    TilesUnique(bs, total);
    PhysicalAbsorb(size, next, prev, bs, total, j, k, b, x, q);
    FlagsAbsorb(isFree, userSize, isFree[f[idx] := false], bs, j, k, hand);
    ListedAbsorb(f, bs, j, k, hand, idx);
    AbsorbTiles(bs, total, j);
    if |bs| > 1 { TilesAscend(bs, total, 0, 1); }
  }

  lemma StateBack(size: map<int, nat>, next: map<int, int>, prev: map<int, int>, isFree: map<int, bool>,
                  userSize: map<int, nat>, bs: seq<Blk>, f: seq<int>, start: nat, total: nat, i: nat, hand: int)
    requires State(size, next, prev, isFree, userSize, bs, f, start, total, hand)
    requires i < |bs| && bs[i].free && bs[i].user == 0 && hand == bs[i].addr
    ensures hand !in f && hand != NULL
    ensures State(size, next, prev, isFree[hand := true], userSize[hand := 0], bs, [hand] + f, start, total, NULL)
  {
    hide Tiles, Physical, Listed;
    AddrsPositive(bs, total);
    TilesUnique(bs, total);
    assert FlagAt(isFree, userSize, bs[i], hand);
    FlagsMark(isFree, userSize, isFree[hand := true], userSize[hand := 0], bs, i, bs[i], hand, NULL);
    assert bs[i := bs[i]] == bs;
    ListedBack(f, bs, i, hand);
  }

  /** What the fields of one block say. */
  lemma StateAt(size: map<int, nat>, next: map<int, int>, prev: map<int, int>, isFree: map<int, bool>,
                userSize: map<int, nat>, bs: seq<Blk>, f: seq<int>, start: nat, total: nat, hand: int, i: nat)
    requires State(size, next, prev, isFree, userSize, bs, f, start, total, hand) && i < |bs|
    ensures var b, n := bs[i], |bs|;
            && b.addr in size && size[b.addr] == b.size && b.addr > 0
            && b.addr in next && next[b.addr] == bs[Succ(i, n)].addr
            && b.addr in prev && prev[b.addr] == bs[Pred(i, n)].addr
            && b.addr in isFree && b.addr in userSize
            && (b.addr == hand ==> !isFree[b.addr])
            && (b.addr != hand ==> isFree[b.addr] == b.free && userSize[b.addr] == b.user)
            && (b.addr in f <==> b.free && b.addr != hand)
            && (forall m | 0 <= m < n && m != i :: bs[m].addr != b.addr)
  {
    AddrsPositive(bs, total);
    TilesUnique(bs, total);
    NextOf(size, next, prev, bs, i);
    assert FlagAt(isFree, userSize, bs[i], hand);
    FreeAtIndex(bs, i);
  }

  ghost predicate HoldsAt(bs: seq<Blk>, x: int, req: nat) {
    exists j :: 0 <= j < |bs| && bs[j].addr == x && bs[j].size >= req
  }

  /** A request served by block i, the first on the free ring that holds it, and split if much is left over. */
  ghost predicate ServedBy(bs: seq<Blk>, f: seq<int>, bytes: nat, i: nat, k: nat, bs': seq<Blk>, f': seq<int>) {
    && i < |bs| && k < |f| && bs[i].free && f[k] == bs[i].addr && bs[i].size >= AlignUp(bytes)
    && (forall m | 0 <= m < k :: !HoldsAt(bs, f[m], AlignUp(bytes)))
    && bs' == MallocBlocks(bs, i, bytes)
    && f' == (if bs[i].size - AlignUp(bytes) > HEADER + MIN_BLOCK then [f[k] + HEADER + AlignUp(bytes)] else [])
             + Remove(f, k)
  }

  lemma NothingListed(f: seq<int>, bs: seq<Blk>)
    requires Listed(f, bs, NULL) && forall m | 0 <= m < |bs| :: bs[m].addr > 0
    ensures f == [] <==> forall i | 0 <= i < |bs| :: !bs[i].free
  {
    if i :| 0 <= i < |bs| && bs[i].free { assert FreeAt(bs, bs[i].addr); }
    if f != [] { assert f[0] in f && FreeAt(bs, f[0]); }
  }

  /** The block, its size included, that an entry of the free ring stands for. */
  lemma BlockOfFree(size: map<int, nat>, next: map<int, int>, prev: map<int, int>, isFree: map<int, bool>,
                    userSize: map<int, nat>, bs: seq<Blk>, f: seq<int>, start: nat, total: nat, k: nat) returns (i: nat)
    requires State(size, next, prev, isFree, userSize, bs, f, start, total, NULL) && k < |f|
    ensures i < |bs| && bs[i].addr == f[k] && bs[i].free
    ensures f[k] in size && size[f[k]] == bs[i].size
    ensures forall req :: HoldsAt(bs, f[k], req) <==> size[f[k]] >= req
  {
    assert f[k] in f && FreeAt(bs, f[k]);
    i :| 0 <= i < |bs| && bs[i].addr == f[k] && bs[i].free;
    StateAt(size, next, prev, isFree, userSize, bs, f, start, total, NULL, i);
  }

  lemma FreeSizeAt(size: map<int, nat>, next: map<int, int>, prev: map<int, int>, isFree: map<int, bool>,
                   userSize: map<int, nat>, bs: seq<Blk>, f: seq<int>, start: nat, total: nat, m: nat, req: nat)
    requires State(size, next, prev, isFree, userSize, bs, f, start, total, NULL) && m < |f|
    ensures f[m] in size && (HoldsAt(bs, f[m], req) <==> size[f[m]] >= req)
  {
    var i := BlockOfFree(size, next, prev, isFree, userSize, bs, f, start, total, m);
  }

  lemma NoFit(f: seq<int>, bs: seq<Blk>, req: nat)
    requires Listed(f, bs, NULL) && forall m | 0 <= m < |bs| :: bs[m].addr > 0
    requires forall m | 0 <= m < |f| :: !HoldsAt(bs, f[m], req)
    ensures forall i | 0 <= i < |bs| :: bs[i].free ==> bs[i].size < req
  {
    forall i | 0 <= i < |bs| && bs[i].free ensures bs[i].size < req {
      assert FreeAt(bs, bs[i].addr);
      var m :| 0 <= m < |f| && f[m] == bs[i].addr;
      assert !HoldsAt(bs, f[m], req);
    }
  }

  lemma PositiveAddrs(size: map<int, nat>, next: map<int, int>, prev: map<int, int>, isFree: map<int, bool>,
                      userSize: map<int, nat>, bs: seq<Blk>, f: seq<int>, start: nat, total: nat, hand: int)
    requires State(size, next, prev, isFree, userSize, bs, f, start, total, hand)
    ensures Tiles(bs, total) && Listed(f, bs, hand) && forall m | 0 <= m < |bs| :: bs[m].addr > 0
  {
    AddrsPositive(bs, total);
  }

  lemma GoodAt(bs: seq<Blk>, total: nat, i: nat)
    requires Good(bs, total) && i < |bs|
    ensures bs[i].size % ALIGNMENT == 0 && Sized(bs[i])
  {
    assert Sized(bs[i]);
  }

  lemma HeadOfRing(fn: map<int, int>, fp: map<int, int>, head: int, f: seq<int>)
    requires FreeRing(fn, fp, head, f)
    ensures (head == NULL <==> f == []) && (f != [] ==> head == f[0])
    ensures Distinct(f)
  {
  }

  /** What a served request does to blocks, lists and the heap as callers see it. */
  lemma Served(bs: seq<Blk>, f: seq<int>, total: nat, bytes: nat, i: nat, k: nat, bs': seq<Blk>, f': seq<int>,
               blocks: nat, requested: nat)
    requires Good(bs, total) && bytes > 0 && i < |bs| && k < |f| && bs[i].free && f[k] == bs[i].addr > 0
    requires HoldsAt(bs, f[k], AlignUp(bytes)) && forall m | 0 <= m < k :: !HoldsAt(bs, f[m], AlignUp(bytes))
    requires Counted(blocks, requested, HeapOf(bs))
    requires var split := bs[i].size - AlignUp(bytes) > HEADER + MIN_BLOCK;
             var cut := if split then Cut(bs, i, AlignUp(bytes)) else bs;
             var g := (if split then [f[k] + HEADER + AlignUp(bytes)] else []) + f;
             i < |cut| && bs' == cut[i := cut[i].(free := false, user := bytes)]
             && f' == Remove(g, if split then k + 1 else k)
    ensures Good(bs', total) && bs'[0].addr == bs[0].addr
    ensures ServedBy(bs, f, bytes, i, k, bs', f')
    ensures var p := f[k] + HEADER;
            MallocStep(HeapOf(bs), bytes, p, HeapOf(bs')) && p in HeapOf(bs') && bytes <= HeapOf(bs')[p].cap <= bytes + 79
            && (f[k] - bs[0].addr) % 8 == 0 && Counted(blocks + 1, requested + bytes, HeapOf(bs'))
  {
    hide Good, Counted, HeapOf, MallocBlocks, MallocStep, Cut, Remove;
    GoodTiles(bs, total);
    SizeHeld(bs, total, i, AlignUp(bytes));
    ServedFigures(bs, total, i, bytes);
    MallocGood(bs, total, i, bytes);
    MallocHeap(bs, total, i, bytes);
    ServedLists(bs, f, bytes, i, k, bs', f');
    CountedAfterMalloc(blocks, requested, HeapOf(bs), f[k] + HEADER, Region(bytes, MallocBlocks(bs, i, bytes)[i].size));
    HeapOfSeparate(bs', total);
    MallocStepFor(HeapOf(bs), bytes, f[k] + HEADER, HeapOf(bs'));
  }

  lemma GoodTiles(bs: seq<Blk>, total: nat)
    requires Good(bs, total)
    ensures Tiles(bs, total)
  {
  }

  lemma CountIs(blocks: nat, requested: nat, h: Heap)
    requires Counted(blocks, requested, h)
    ensures |h| == blocks
  {
  }

  lemma SizeHeld(bs: seq<Blk>, total: nat, i: nat, req: nat)
    requires Tiles(bs, total) && i < |bs| && HoldsAt(bs, bs[i].addr, req)
    ensures bs[i].size >= req
  {
    TilesUnique(bs, total);
  }

  lemma ServedLists(bs: seq<Blk>, f: seq<int>, bytes: nat, i: nat, k: nat, bs': seq<Blk>, f': seq<int>)
    requires i < |bs| && k < |f| && bs[i].free && f[k] == bs[i].addr && bs[i].size >= AlignUp(bytes)
    requires forall m | 0 <= m < k :: !HoldsAt(bs, f[m], AlignUp(bytes))
    requires var split := bs[i].size - AlignUp(bytes) > HEADER + MIN_BLOCK;
             var cut := if split then Cut(bs, i, AlignUp(bytes)) else bs;
             var g := (if split then [f[k] + HEADER + AlignUp(bytes)] else []) + f;
             i < |cut| && bs' == cut[i := cut[i].(free := false, user := bytes)]
             && f' == Remove(g, if split then k + 1 else k)
    ensures ServedBy(bs, f, bytes, i, k, bs', f')
  {
    hide HoldsAt, AlignUp, Remove, Cut;
    RemoveBehind(f[k] + HEADER + AlignUp(bytes), f, k);
    assert [] + f == f && [] + Remove(f, k) == Remove(f, k);
  }

  lemma RemoveBehind(y: int, f: seq<int>, k: nat)
    requires k < |f|
    ensures Remove([y] + f, k + 1) == [y] + Remove(f, k)
  {
  }

  /** The free flags of the two neighbours of the block in hand, as its links find them. */
  lemma NeighbourFlags(size: map<int, nat>, next: map<int, int>, prev: map<int, int>, isFree: map<int, bool>,
                       userSize: map<int, nat>, bs: seq<Blk>, f: seq<int>, start: nat, total: nat, b: int, i: nat)
    requires State(size, next, prev, isFree, userSize, bs, f, start, total, b) && i < |bs| && bs[i].addr == b
    ensures var n, p, m := bs[Succ(i, |bs|)], bs[Pred(i, |bs|)], |bs|;
            && b in next && next[b] == n.addr && b in prev && prev[b] == p.addr && b in size
            && n.addr in isFree && isFree[n.addr] == (m > 1 && n.free)
            && p.addr in isFree && isFree[p.addr] == (m > 1 && p.free)
            && (m > 1 && n.free ==> exists idx: nat :: idx < |f| && f[idx] == n.addr)
            && (m > 1 && p.free ==> exists idx: nat :: idx < |f| && f[idx] == p.addr)
  {
    var k, q := Succ(i, |bs|), Pred(i, |bs|);
    StateAt(size, next, prev, isFree, userSize, bs, f, start, total, b, i);
    StateAt(size, next, prev, isFree, userSize, bs, f, start, total, b, k);
    StateAt(size, next, prev, isFree, userSize, bs, f, start, total, b, q);
  }

  lemma AbsorbKeeps(bs: seq<Blk>, j: nat, k: nat)
    requires j < |bs| && |bs| > 1 && k == Succ(j, |bs|)
    ensures Absorb(bs, j)[Shift(j, k)] == bs[j].(size := bs[j].size + HEADER + bs[k].size)
  {
  }

  /** A ring without one of its nodes, the others in the order they had. */
  function Without(f: seq<int>, x: int): (r: seq<int>)
    ensures x !in r && (x !in f ==> r == f)
    ensures forall y :: y in r <==> y in f && y != x
  {
    if f == [] then [] else Without(f[..|f| - 1], x) + if f[|f| - 1] == x then [] else [f[|f| - 1]]
  }

  lemma {:induction false} WithoutIs(f: seq<int>, k: nat)
    requires Distinct(f) && k < |f|
    ensures Without(f, f[k]) == Remove(f, k)
  {
    var n := |f| - 1;
    if k < n {
      WithoutIs(f[..n], k);
      assert Remove(f, k) == Remove(f[..n], k) + [f[n]];
    } else {
      assert Remove(f, k) == f[..n];
    }
  }

  /** Where the free block starts that block i has become part of. */
  function ReleasedAt(bs: seq<Blk>, i: nat): int
    requires i < |bs|
  {
    if |bs| > 2 && bs[Pred(i, |bs|)].free then bs[Pred(i, |bs|)].addr else bs[i].addr
  }

  /** The free ring after block i has been released: its neighbours have left, and what they have become heads the ring. */
  ghost predicate RingAfterRelease(bs: seq<Blk>, f: seq<int>, i: nat, f': seq<int>)
    requires i < |bs|
  {
    f' == [ReleasedAt(bs, i)] + Without(Without(f, bs[Succ(i, |bs|)].addr), bs[Pred(i, |bs|)].addr)
  }

  /** The ring once the next block has been taken over, if it was free; and once the block before has taken over. */
  function RingJoinedNext(bs: seq<Blk>, f: seq<int>, i: nat): seq<int>
    requires i < |bs|
  {
    if |bs| > 1 && bs[Succ(i, |bs|)].free then Without(f, bs[Succ(i, |bs|)].addr) else f
  }

  function RingJoinedPrev(bs: seq<Blk>, f: seq<int>, i: nat): seq<int>
    requires i < |bs|
  {
    if |bs| > 1 && bs[Pred(i, |bs|)].free then Without(f, bs[Pred(i, |bs|)].addr) else f
  }

  lemma RingsJoined(bs: seq<Blk>, f: seq<int>, i: nat)
    requires i < |bs|
    ensures !(|bs| > 1 && bs[Succ(i, |bs|)].free) ==> RingJoinedNext(bs, f, i) == f
    ensures !(|bs| > 1 && bs[Pred(i, |bs|)].free) ==> RingJoinedPrev(bs, f, i) == f
  {
  }

  lemma RingTaken(bs: seq<Blk>, f: seq<int>, i: nat, idx: nat)
    requires i < |bs| && |bs| > 1 && Distinct(f) && idx < |f|
    ensures bs[Succ(i, |bs|)].free && f[idx] == bs[Succ(i, |bs|)].addr ==> RingJoinedNext(bs, f, i) == Remove(f, idx)
    ensures bs[Pred(i, |bs|)].free && f[idx] == bs[Pred(i, |bs|)].addr ==> RingJoinedPrev(bs, f, i) == Remove(f, idx)
  {
    hide Remove, Distinct, Without;
    WithoutIs(f, idx);
  }

  lemma JoinNextKeepsPred(bs: seq<Blk>, i: nat)
    requires i < |bs|
    ensures var c, j := JoinNext(bs, i), JoinedNextIndex(bs, i);
            && c[j].addr == bs[i].addr && (|bs| <= 2 && bs[Succ(i, |bs|)].free ==> |c| == 1)
            && (|bs| > 2 ==> var b, p := c[Pred(j, |c|)], bs[Pred(i, |bs|)]; |c| > 1 && b.addr == p.addr && b.free == p.free)
            && (!(|bs| > 1 && bs[Succ(i, |bs|)].free) ==> c == bs && j == i)
  {
  }

  /**
   So what has been released is the first to be used again: a request that fits in the
   released block is served from the free block it has become part of.
   */
  lemma ReleasedIsServedFirst(bs: seq<Blk>, total: nat, i: nat, f: seq<int>, f': seq<int>, bytes: nat,
                              i2: nat, k: nat, bs2: seq<Blk>, f2: seq<int>)
    requires Good(bs, total) && i < |bs| && !bs[i].free && 0 < bytes <= bs[i].size && RingAfterRelease(bs, f, i, f')
    requires ServedBy(FreeBlocks(bs, i), f', bytes, i2, k, bs2, f2)
    ensures k == 0 && FreeBlocks(bs, i)[i2].addr == ReleasedAt(bs, i)
  {
    hide FreeBlocks, MallocBlocks, Good, Remove;
    GoodAt(bs, total, i);
    ReleasedHolds(bs, i, AlignUp(bytes));
    assert f'[0] == ReleasedAt(bs, i);
  }

  lemma ReleasedHolds(bs: seq<Blk>, i: nat, req: nat)
    requires i < |bs| && req <= bs[i].size
    ensures HoldsAt(FreeBlocks(bs, i), ReleasedAt(bs, i), req)
  {
    hide JoinNext, JoinPrev, JoinedNextIndex;
    var b0 := bs[i := bs[i].(free := true, user := 0)];
    JoinNextKeepsPred(b0, i);
    JoinNextGrows(b0, i);
    JoinPrevGrows(JoinNext(b0, i), JoinedNextIndex(b0, i), req);
  }

  lemma JoinNextGrows(bs: seq<Blk>, i: nat)
    requires i < |bs|
    ensures JoinNext(bs, i)[JoinedNextIndex(bs, i)].size >= bs[i].size
  {
  }

  lemma JoinPrevGrows(bs: seq<Blk>, i: nat, req: nat)
    requires i < |bs| && req <= bs[i].size
    ensures HoldsAt(JoinPrev(bs, i), if |bs| > 1 && bs[Pred(i, |bs|)].free then bs[Pred(i, |bs|)].addr else bs[i].addr, req)
  {
    var k := Pred(i, |bs|);
    if |bs| > 1 && bs[k].free {
      AbsorbKeeps(bs, k, i);
      assert JoinPrev(bs, i)[Shift(k, i)].addr == bs[k].addr;
    } else {
      assert JoinPrev(bs, i)[i] == bs[i];
    }
  }

  /** The two joins and the insertion come to that. */
  lemma ReleaseRing(bs: seq<Blk>, f: seq<int>, i: nat, hand: int)
    requires i < |bs| && UniqueAddrs(bs) && Listed(f, bs, hand) && bs[i].addr == hand
    ensures var c, j := JoinNext(bs, i), JoinedNextIndex(bs, i);
            var x := if |c| > 1 && c[Pred(j, |c|)].free then c[Pred(j, |c|)].addr else c[j].addr;
            RingAfterRelease(bs, f, i, [x] + RingJoinedPrev(c, RingJoinedNext(bs, f, i), j))
  {
    hide JoinNext, JoinedNextIndex, Listed, UniqueAddrs;
    JoinNextKeepsPred(bs, i);
    NeighbourListed(bs, f, i, hand, Succ(i, |bs|));
    NeighbourListed(bs, f, i, hand, Pred(i, |bs|));
  }

  lemma InHandListed(size: map<int, nat>, next: map<int, int>, prev: map<int, int>, isFree: map<int, bool>,
                     userSize: map<int, nat>, bs: seq<Blk>, f: seq<int>, start: nat, total: nat, hand: int)
    requires State(size, next, prev, isFree, userSize, bs, f, start, total, hand)
    ensures UniqueAddrs(bs) && Listed(f, bs, hand)
  {
    TilesUnique(bs, total);
  }

  lemma MarkedRing(bs: seq<Blk>, f: seq<int>, i: nat, f': seq<int>)
    requires i < |bs| && RingAfterRelease(bs[i := bs[i].(free := true, user := 0)], f, i, f')
    ensures RingAfterRelease(bs, f, i, f')
  {
  }

  lemma NeighbourListed(bs: seq<Blk>, f: seq<int>, i: nat, hand: int, k: nat)
    requires i < |bs| && k < |bs| && UniqueAddrs(bs) && Listed(f, bs, hand) && bs[i].addr == hand
    ensures bs[k].addr in f <==> bs[k].free && k != i
  {
    if bs[k].free { assert FreeAt(bs, bs[k].addr); }
  }

  ghost predicate PayloadAt(bs: seq<Blk>, p: int, i: nat) {
    i < |bs| && bs[i].addr + HEADER == p
  }

  lemma GoodUser(bs: seq<Blk>, total: nat, i: nat)
    requires Good(bs, total) && i < |bs|
    ensures bs[i].free <==> bs[i].user == 0
  {
    assert Sized(bs[i]);
  }

  /** The pointers the release routine accepts. */
  predicate InArena(p: int, start: nat, total: nat) {
    start + HEADER <= p < start + total
  }

  lemma GoodSize(bs: seq<Blk>, i: nat)
    requires AllSized(bs) && i < |bs|
    ensures bs[i].free ==> bs[i].user == 0
  {
    assert Sized(bs[i]);
  }

  lemma JoinNextSized(bs: seq<Blk>, i: nat)
    requires AllSized(bs) && i < |bs| && bs[i].free
    ensures var r := JoinNext(bs, i); forall m | 0 <= m < |r| :: r[m].free ==> r[m].user == 0
  {
    if |bs| > 1 && bs[Succ(i, |bs|)].free { AbsorbSized(bs, i); }
    var r := JoinNext(bs, i);
    forall m | 0 <= m < |r| ensures r[m].free ==> r[m].user == 0 { GoodSize(r, m); }
  }

  lemma FreeBlockNotInHeap(bs: seq<Blk>, total: nat, i: nat)
    requires Good(bs, total) && i < |bs| && bs[i].free
    ensures bs[i].addr + HEADER !in HeapOf(bs)
  {
    TilesUnique(bs, total);
    NotInHeap(bs, bs[i].addr + HEADER);
  }

  /** What a release does to blocks and to the heap as callers see it. */
  lemma Freed(bs: seq<Blk>, total: nat, i: nat, freed: nat, blocks: nat, requested: nat)
    requires Good(bs, total) && i < |bs| && !bs[i].free && freed == bs[i].user
    requires Counted(blocks, requested, HeapOf(bs))
    ensures var c, p := FreeBlocks(bs, i), bs[i].addr + HEADER;
            Good(c, total) && p in HeapOf(bs) && FreeStep(HeapOf(bs), p, freed, HeapOf(c))
            && blocks >= 1 && requested >= freed && Counted(blocks - 1, requested - freed, HeapOf(c)) && c != bs
    ensures var b0 := bs[i := bs[i].(free := true, user := 0)];
            FreeBlocks(bs, i) == JoinPrev(JoinNext(b0, i), JoinedNextIndex(b0, i)) && AllSized(b0)
    ensures FreeBlocks(bs, i)[0].addr >= bs[0].addr
  {
    hide Good, HeapOf, Counted, JoinNext, JoinPrev, JoinedNextIndex, AllSized;
    FreeGood(bs, total, i);
    FreeHeap(bs, total, i);
    CountedAfterFree(blocks, requested, HeapOf(bs), bs[i].addr + HEADER);
    SizedMarked(bs, total, i);
  }

  lemma SizedMarked(bs: seq<Blk>, total: nat, i: nat)
    requires Good(bs, total) && i < |bs|
    ensures AllSized(bs[i := bs[i].(free := true, user := 0)])
  {
    var b0 := bs[i := bs[i].(free := true, user := 0)];
    forall m | 0 <= m < |b0| ensures Sized(b0[m]) { assert Sized(bs[m]); }
  }

  datatype Info = Info(totalMemory: nat, usedMemory: int, freeMemory: nat, blockCount: nat, freeBlockCount: nat,
                       totalAllocated: nat, totalFreed: nat, currentBlocks: nat, memoryLeak: bool)

  /** Bytes of the blocks on a free ring, headers included. */
  ghost function RingBytes(size: map<int, nat>, f: seq<int>): nat {
    if f == [] then 0
    else RingBytes(size, f[..|f| - 1]) + HEADER + if f[|f| - 1] in size then size[f[|f| - 1]] else 0
  }

  lemma {:induction false} RingBytesRemove(size: map<int, nat>, f: seq<int>, k: nat)
    requires k < |f| && f[k] in size
    ensures RingBytes(size, f) == RingBytes(size, Remove(f, k)) + HEADER + size[f[k]]
  {
    var n := |f| - 1;
    if k < n {
      RingBytesRemove(size, f[..n], k);
      assert Remove(f, k)[..n - 1] == Remove(f[..n], k);
    } else {
      assert Remove(f, k) == f[..n];
    }
  }

  /** The free ring adds up to the free blocks. */
  lemma {:induction false} RingSums(size: map<int, nat>, bs: seq<Blk>, f: seq<int>)
    requires Sizes(size, bs) && UniqueAddrs(bs) && Distinct(f) && forall x :: x in f <==> FreeAt(bs, x)
    ensures RingBytes(size, f) == Bytes(bs, true) && |f| == FreeCount(bs)
  {
    assert f != [] ==> f[0] in f && FreeAt(bs, f[0]);
    if bs != [] {
      var n := |bs| - 1;
      var cs, x := bs[..n], bs[n].addr;
      FreeAtIndex(bs, n);
      forall y ensures FreeAt(bs, y) <==> FreeAt(cs, y) || (bs[n].free && y == x) {
        if FreeAt(cs, y) { var i :| 0 <= i < |cs| && cs[i].addr == y && cs[i].free; assert bs[i] == cs[i]; }
        if FreeAt(bs, y) { var i :| 0 <= i < |bs| && bs[i].addr == y && bs[i].free; assert i < n ==> cs[i] == bs[i]; }
      }
      assert !FreeAt(cs, x);
      if bs[n].free {
        var k: nat :| k < |f| && f[k] == x;
        RingBytesRemove(size, f, k);
        RemoveFacts(f, k);
        RingSums(size, cs, Remove(f, k));
      } else {
        RingSums(size, cs, f);
      }
    }
  }

  lemma FollowFree(fn: map<int, int>, fp: map<int, int>, head: int, f: seq<int>, k: nat)
    requires FreeRing(fn, fp, head, f) && k < |f|
    ensures f[k] in fn && fn[f[k]] == f[Succ(k, |f|)] && (fn[f[k]] == head <==> k + 1 == |f|) && f[k] != NULL
  {
  }

  lemma Figures(size: map<int, nat>, next: map<int, int>, prev: map<int, int>, isFree: map<int, bool>,
                userSize: map<int, nat>, bs: seq<Blk>, f: seq<int>, start: nat, total: nat, blocks: nat, requested: nat)
    requires State(size, next, prev, isFree, userSize, bs, f, start, total, NULL) && Distinct(f)
    requires Good(bs, total) && Counted(blocks, requested, HeapOf(bs))
    ensures RingBytes(size, f) == Bytes(bs, true) && |f| == FreeCount(bs)
    ensures total - Bytes(bs, true) == Bytes(bs, false)
    ensures blocks == LiveCount(bs) && FreeCount(bs) + LiveCount(bs) == |bs|
    ensures requested > 0 <==> blocks > 0
  {
    AddrsPositive(bs, total);
    TilesUnique(bs, total);
    forall x ensures x in f <==> FreeAt(bs, x) { }
    RingSums(size, bs, f);
    BytesFill(bs, total);
    LiveCountIsHeapSize(bs);
    CountsAddUp(bs);
    SomethingRequested(bs, total);
  }

  lemma SomethingRequested(bs: seq<Blk>, total: nat)
    requires Good(bs, total)
    ensures Requested(HeapOf(bs)) > 0 <==> |HeapOf(bs)| > 0
  {
    var h := HeapOf(bs);
    if |h| > 0 {
      SomeKey(h);
      var p: int :| p in h;
      var i := HeapHasBlock(bs, p);
      GoodAt(bs, total, i);
      RequestedRemove(h, p);
    }
  }

  class Group {
    var size: map<int, nat>
    var userSize: map<int, nat>
    var isFree: map<int, bool>
    var next: map<int, int>
    var prev: map<int, int>
    var freeNext: map<int, int>
    var freePrev: map<int, int>
    var freeList: int
    const memoryStart: nat
    const totalSize: nat
    var currentBlocks: nat
    var totalAllocated: nat
    var totalFreed: nat
    ghost var bs: seq<Blk>
    ghost var free: seq<int>

    /** Both rings and all header fields describe the blocks, up to the block in hand. */
    ghost predicate Described(hand: int)
      reads this`size, this`next, this`prev, this`isFree, this`userSize, this`bs, this`free,
            this`freeNext, this`freePrev, this`freeList
    {
      && State(size, next, prev, isFree, userSize, bs, free, memoryStart, totalSize, hand)
      && FreeRing(freeNext, freePrev, freeList, free)
    }

    ghost predicate Valid()
      reads this
    {
      && Described(NULL) && Good(bs, totalSize)
      && totalFreed <= totalAllocated && currentBlocks <= MAX_BLOCKS
      && Counted(currentBlocks, totalAllocated - totalFreed, HeapOf(bs))
    }

    /** insert_into_free_list */
    method InsertFree(b: int)
      requires FreeRing(freeNext, freePrev, freeList, free) && b != NULL && b !in free
      modifies this`freeNext, this`freePrev, this`isFree, this`userSize, this`freeList, this`free
      ensures FreeRing(freeNext, freePrev, freeList, free) && free == [b] + old(free)
      ensures isFree == old(isFree)[b := true] && userSize == old(userSize)[b := 0]
    {
      hide Forward, Backward, Distinct, FreeRing;
      ghost var fn, fp, head := freeNext, freePrev, freeList;
      HeadOfRing(fn, fp, head, free);
      freeNext := freeNext[b := NULL];
      freePrev := freePrev[b := NULL];
      isFree := isFree[b := true];
      userSize := userSize[b := 0];
      if freeList == NULL {
        freeNext := freeNext[b := b];
        freePrev := freePrev[b := b];
        freeList := b;
        RingSingle(freeNext, freePrev, b);
        assert free == [] && [b] + free == [b];
      } else {
        RingPush(fn, fp, head, free, b, free[|free| - 1]);
        Overwritten(fn, b, NULL, head);
        Overwritten(fp, b, NULL, free[|free| - 1]);
        var tail := freePrev[freeList];
        freeNext := freeNext[b := freeList];
        freePrev := freePrev[b := tail];
        freeNext := freeNext[tail := b];
        freePrev := freePrev[freeList := b];
        assert freeNext == fn[b := head][tail := b] && freePrev == fp[b := tail][head := b];
        freeList := b;
      }
      free := [b] + free;
    }

    /** remove_from_free_list, for a block that is on the list */
    method RemoveFree(b: int, ghost k: nat)
      requires FreeRing(freeNext, freePrev, freeList, free) && k < |free| && free[k] == b
      requires b in isFree && isFree[b]
      modifies this`freeNext, this`freePrev, this`isFree, this`freeList, this`free
      ensures FreeRing(freeNext, freePrev, freeList, free) && free == Remove(old(free), k)
      ensures isFree == old(isFree)[b := false]
    {
      hide Forward, Backward, Distinct;
      RingOfOne(freeNext, freePrev, freeList, free, k);
      if b == NULL || !isFree[b] { return; }
      ghost var fn, fp, head := freeNext, freePrev, freeList;
      if freeNext[b] == b {
        freeList := NULL;
        EmptyRing(freeNext[b := NULL], freePrev[b := NULL]);
        assert Remove(free, k) == [];
      } else {
        RingRemove(fn, fp, head, free, k, b, fp[b], fn[b]);
        freeNext := freeNext[freePrev[b] := freeNext[b]];
        freePrev := freePrev[freeNext[b] := freePrev[b]];
        if freeList == b { freeList := freeNext[b]; }
        assert freeNext == fn[fp[b] := fn[b]] && freePrev == fp[fn[b] := fp[b]];
      }
      freeNext := freeNext[b := NULL];
      freePrev := freePrev[b := NULL];
      isFree := isFree[b := false];
      free := Remove(free, k);
    }

    /** group_init */
    constructor (start: nat, bytes: nat)
      requires start > 0 && bytes >= HEADER && bytes % ALIGNMENT == 0
      ensures Valid() && memoryStart == start && totalSize == bytes
      ensures HeapOf(bs) == map[] && totalAllocated == 0 && totalFreed == 0
      ensures bs == [Blk(start, bytes - HEADER, true, 0)] && free == [start]
    {
      hide State, Good, HeapOf, Counted, FreeRing;
      memoryStart, totalSize := start, bytes;
      currentBlocks, totalAllocated, totalFreed := 0, 0, 0;
      size, userSize, isFree := map[start := AlignUp(bytes - HEADER)], map[start := 0], map[start := true];
      next, prev := map[start := start], map[start := start];
      freeNext, freePrev, freeList := map[], map[], NULL;
      bs, free := [Blk(start, bytes - HEADER, true, 0)], [];
      new;
      EmptyRing(freeNext, freePrev);
      InsertFree(start);
      assert free == [start as int] && isFree == map[start as int := true] && userSize == map[start as int := 0];
      InitialState(start, bytes);
    }

    /** Splits the block found by the search when enough is left over for another block. */
    method SplitBlock(cur: int, req: nat, ghost i: nat)
      requires Described(NULL) && i < |bs| && bs[i].free && bs[i].addr == cur && bs[i].size >= req
      requires bs[i].size % ALIGNMENT == 0 && req % ALIGNMENT == 0
      modifies this`size, this`next, this`prev, this`isFree, this`userSize, this`freeNext, this`freePrev, this`freeList,
               this`bs, this`free
      ensures Described(NULL)
      ensures old(bs)[i].size - req > HEADER + MIN_BLOCK ==>
                bs == Cut(old(bs), i, req) && free == [cur + HEADER + req] + old(free)
      ensures old(bs)[i].size - req <= HEADER + MIN_BLOCK ==> bs == old(bs) && free == old(free)
      ensures bs[i].free && bs[i].addr == cur
    {
      hide State, FreeRing, AlignUp, Cut;
      StateAt(size, next, prev, isFree, userSize, bs, free, memoryStart, totalSize, NULL, i);
      var rem := size[cur] - req;
      if rem > HEADER + MIN_BLOCK {
        ghost var s: map<int, nat>, n, p := size, next, prev;
        ghost var fl, us := isFree, userSize;
        ghost var q := bs[Succ(i, |bs|)].addr;
        StateCut(size, next, prev, isFree, userSize, bs, free, memoryStart, totalSize, i, req, cur, cur + HEADER + req, q);
        var nb := cur + HEADER + req;
        AlignedStays(rem - HEADER);
        size := size[nb := AlignUp(rem - HEADER)];
        userSize := userSize[nb := 0];
        isFree := isFree[nb := true];
        next := next[nb := next[cur]];
        prev := prev[nb := cur];
        prev := prev[next[cur] := nb];
        next := next[cur := nb];
        InsertFree(nb);
        size := size[cur := req];
        ghost var left: nat := rem - HEADER;
        assert size == s[nb := left][cur := req];
        assert isFree == fl[nb := true] && userSize == us[nb := 0];
        assert next == n[nb := q][cur := nb] && prev == p[nb := cur][q := nb];
        bs := Cut(bs, i, req);
        CutKeepsBlock(old(bs), i, req);
      }
    }

    /** Takes the chosen block off the free ring and hands it out. */
    method TakeBlock(cur: int, bytes: nat, ghost i: nat, ghost k: nat)
      requires Described(NULL) && i < |bs| && bs[i].free && bs[i].addr == cur && k < |free| && free[k] == cur
      modifies this`isFree, this`userSize, this`freeNext, this`freePrev, this`freeList, this`bs, this`free
      ensures Described(NULL)
      ensures bs == old(bs)[i := old(bs)[i].(free := false, user := bytes)] && free == Remove(old(free), k)
    {
      hide State, Forward, Backward;
      StateTaken(size, next, prev, isFree, userSize, bs, free, memoryStart, totalSize, i, k, bytes, cur);
      RemoveFree(cur, k);
      userSize := userSize[cur := bytes];
      bs := bs[i := bs[i].(free := false, user := bytes)];
    }

    /** The first block of the free ring that holds req bytes, if any. */
    method FirstFit(req: nat) returns (cur: int, ghost k: nat)
      requires Described(NULL) && freeList != NULL
      ensures cur == NULL ==> forall m | 0 <= m < |free| :: !HoldsAt(bs, free[m], req)
      ensures cur != NULL ==> k < |free| && free[k] == cur && HoldsAt(bs, cur, req)
                              && forall m | 0 <= m < k :: !HoldsAt(bs, free[m], req)
    {
      hide State, HoldsAt, FreeRing;
      HeadOfRing(freeNext, freePrev, freeList, free);
      cur, k := freeList, 0;
      while true
        invariant k < |free| && cur == free[k]
        invariant forall m | 0 <= m < k :: !HoldsAt(bs, free[m], req)
        decreases |free| - k
      {
        FreeSizeAt(size, next, prev, isFree, userSize, bs, free, memoryStart, totalSize, k, req);
        FollowFree(freeNext, freePrev, freeList, free, k);
        if size[cur] >= req { return; }
        cur := freeNext[cur];
        if cur == freeList {
          cur := NULL;
          return;
        }
        k := k + 1;
      }
    }

    method Charge(bytes: nat)
      modifies this`totalAllocated, this`currentBlocks
      ensures totalAllocated == old(totalAllocated) + bytes && currentBlocks == old(currentBlocks) + 1
    {
      totalAllocated := totalAllocated + bytes;
      currentBlocks := currentBlocks + 1;
    }

    /** group_malloc */
    method Malloc(bytes: nat) returns (p: int)
      requires Valid() && bytes + ALIGNMENT <= WORD
      modifies this`size, this`userSize, this`isFree, this`next, this`prev, this`freeNext, this`freePrev, this`freeList,
               this`currentBlocks, this`totalAllocated, this`bs, this`free
      ensures Valid()
      ensures MallocStep(old(HeapOf(bs)), bytes, p, HeapOf(bs))
      ensures p == NULL <==> bytes == 0 || old(currentBlocks) >= 1024
                             || forall i | 0 <= i < |old(bs)| :: old(bs)[i].free ==> old(bs)[i].size < AlignUp(bytes)
      ensures p != NULL ==> bytes <= HeapOf(bs)[p].cap <= bytes + 79 && (p - 56 - old(bs)[0].addr) % 8 == 0
      ensures |HeapOf(bs)| == currentBlocks <= 1024
      ensures p != NULL ==> exists i: nat, k: nat :: ServedBy(old(bs), old(free), bytes, i, k, bs, free)
                                           && p == old(bs)[i].addr + HEADER
      ensures p == NULL ==> bs == old(bs) && free == old(free)
      ensures bs[0].addr == old(bs)[0].addr && totalFreed == old(totalFreed)
    {
      hide State, AlignUp, Good, FreeRing, HeapOf, Counted, MallocBlocks, MallocStep, HoldsAt, ServedBy, Listed, Tiles;
      PositiveAddrs(size, next, prev, isFree, userSize, bs, free, memoryStart, totalSize, NULL);
      NothingListed(free, bs);
      CountIs(currentBlocks, totalAllocated - totalFreed, HeapOf(bs));
      HeadOfRing(freeNext, freePrev, freeList, free);
      if bytes == 0 || freeList == NULL || currentBlocks >= MAX_BLOCKS {
        NoMalloc(HeapOf(bs), bytes);
        return NULL;
      }
      var req := AlignUp(bytes);
      var cur;
      ghost var k;
      cur, k := FirstFit(req);
      if cur == NULL {
        NoFit(free, bs, req);
        NoMalloc(HeapOf(bs), bytes);
        return NULL;
      }
      ghost var i := BlockOfFree(size, next, prev, isFree, userSize, bs, free, memoryStart, totalSize, k);
      GoodAt(bs, totalSize, i);
      ghost var b0, f0 := bs, free;
      CutAndTake(cur, bytes, req, i, k);
      Served(b0, f0, totalSize, bytes, i, k, bs, free, currentBlocks, totalAllocated - totalFreed);
      Charge(bytes);
      p := cur + HEADER;
      CountIs(currentBlocks, totalAllocated - totalFreed, HeapOf(bs));
    }

    /** What is left over of a block goes back to the free ring; the block itself leaves it. */
    method CutAndTake(cur: int, bytes: nat, req: nat, ghost i: nat, ghost k: nat)
      requires Described(NULL) && i < |bs| && bs[i].free && bs[i].addr == cur && k < |free| && free[k] == cur
      requires bs[i].size % ALIGNMENT == 0 && req % ALIGNMENT == 0 && bs[i].size >= req
      modifies this`size, this`userSize, this`isFree, this`next, this`prev, this`freeNext, this`freePrev, this`freeList,
               this`bs, this`free
      ensures Described(NULL)
      ensures var split := old(bs)[i].size - req > HEADER + MIN_BLOCK;
              var cut := if split then Cut(old(bs), i, req) else old(bs);
              var g := (if split then [cur + HEADER + req] else []) + old(free);
              i < |cut| && bs == cut[i := cut[i].(free := false, user := bytes)]
              && free == Remove(g, if split then k + 1 else k)
    {
      hide State, FreeRing, Cut, Remove;
      ghost var f0 := free;
      assert [] + f0 == f0;
      SplitBlock(cur, req, i);
      TakeBlock(cur, bytes, i, if |free| == |f0| then k else k + 1);
    }

    /** The block in hand takes over the next block if that one is free. */
    method JoinNextBlock(b: int, ghost i: nat) returns (ghost j: nat)
      requires Described(b) && i < |bs| && bs[i].addr == b && bs[i].free
      modifies this`size, this`next, this`prev, this`isFree, this`freeNext, this`freePrev, this`freeList, this`bs, this`free
      ensures Described(b) && bs == JoinNext(old(bs), i) && j == JoinedNextIndex(old(bs), i)
      ensures j < |bs| && bs[j].addr == b && bs[j].free && bs[j].user == old(bs)[i].user
      ensures free == RingJoinedNext(old(bs), old(free), i)
    {
      hide State, FreeRing, Absorb, Remove, RingJoinedNext;
      ghost var m := |bs|;
      ghost var k := Succ(i, m);
      RingsJoined(bs, free, i);
      j := JoinedNextIndex(bs, i);
      NeighbourFlags(size, next, prev, isFree, userSize, bs, free, memoryStart, totalSize, b, i);
      if isFree[next[b]] {
        var n := next[b];
        ghost var q := bs[Succ(k, m)].addr;
        ghost var idx: nat :| idx < |free| && free[idx] == n;
        HeadOfRing(freeNext, freePrev, freeList, free);
        StateAbsorb(size, next, prev, isFree, userSize, bs, free, memoryStart, totalSize, i, k, b, idx, b, n, q);
        AbsorbKeeps(bs, i, k);
        RingTaken(bs, free, i, idx);
        RemoveFree(n, idx);
        size := size[b := size[b] + (HEADER + size[n])];
        next := next[b := next[n]];
        prev := prev[next[n] := b];
        bs := Absorb(bs, i);
      }
    }

    /** The block before the one in hand takes it over if that one is free. */
    method JoinPrevBlock(b: int, ghost i: nat) returns (joined: int, ghost j: nat)
      requires Described(b) && i < |bs| && bs[i].addr == b && bs[i].free && bs[i].user == 0
      requires forall m | 0 <= m < |bs| :: bs[m].free ==> bs[m].user == 0
      modifies this`size, this`next, this`prev, this`isFree, this`freeNext, this`freePrev, this`freeList, this`bs, this`free
      ensures Described(joined) && bs == JoinPrev(old(bs), i) && j == JoinedPrevIndex(old(bs), i)
      ensures j < |bs| && bs[j].addr == joined && bs[j].free && bs[j].user == 0
      ensures free == RingJoinedPrev(old(bs), old(free), i)
      ensures joined == if |old(bs)| > 1 && old(bs)[Pred(i, |old(bs)|)].free then old(bs)[Pred(i, |old(bs)|)].addr else b
    {
      hide State, FreeRing, Absorb, Remove, RingJoinedPrev;
      ghost var m := |bs|;
      ghost var k := Pred(i, m);
      RingsJoined(bs, free, i);
      j := JoinedPrevIndex(bs, i);
      joined := b;
      NeighbourFlags(size, next, prev, isFree, userSize, bs, free, memoryStart, totalSize, b, i);
      if isFree[prev[b]] {
        var p := prev[b];
        ghost var q := bs[Succ(i, m)].addr;
        ghost var idx: nat :| idx < |free| && free[idx] == p;
        HeadOfRing(freeNext, freePrev, freeList, free);
        StateAbsorb(size, next, prev, isFree, userSize, bs, free, memoryStart, totalSize, k, i, b, idx, p, b, q);
        AbsorbKeeps(bs, k, i);
        RingTaken(bs, free, i, idx);
        RemoveFree(p, idx);
        size := size[p := size[p] + (HEADER + size[b])];
        next := next[p := next[b]];
        prev := prev[next[b] := p];
        bs := Absorb(bs, k);
        joined := p;
      }
    }

    /** Joins the block in hand with its free neighbours and puts the result on the free ring. */
    method GiveBack(b: int, ghost i: nat)
      requires Described(b) && i < |bs| && bs[i].addr == b && bs[i].free && AllSized(bs)
      modifies this`size, this`userSize, this`next, this`prev, this`isFree, this`freeNext, this`freePrev, this`freeList,
               this`bs, this`free
      ensures Described(NULL)
      ensures bs == JoinPrev(JoinNext(old(bs), i), JoinedNextIndex(old(bs), i))
      ensures RingAfterRelease(old(bs), old(free), i, free)
    {
      hide State, FreeRing, Absorb, JoinNext, JoinPrev, JoinedNextIndex, JoinedPrevIndex, RingAfterRelease, RingJoinedNext,
           RingJoinedPrev;
      InHandListed(size, next, prev, isFree, userSize, bs, free, memoryStart, totalSize, b);
      ReleaseRing(bs, free, i, b);
      JoinNextSized(bs, i);
      GoodSize(bs, i);
      ghost var j := JoinNextBlock(b, i);
      var joined;
      joined, j := JoinPrevBlock(b, j);
      StateBack(size, next, prev, isFree, userSize, bs, free, memoryStart, totalSize, j, joined);
      InsertFree(joined);
    }

    /** The working part of group_free. */
    method Release(b: int, ghost i: nat) returns (freed: nat)
      requires Valid() && i < |bs| && bs[i].addr == b && !bs[i].free && b in userSize && userSize[b] == bs[i].user
      modifies this`size, this`userSize, this`next, this`prev, this`isFree, this`freeNext, this`freePrev, this`freeList,
               this`currentBlocks, this`totalFreed, this`bs, this`free
      ensures Valid() && freed == old(bs)[i].user
      ensures FreeStep(old(HeapOf(bs)), b + HEADER, freed, HeapOf(bs))
      ensures b + HEADER in old(HeapOf(bs))
      ensures bs == FreeBlocks(old(bs), i) && bs != old(bs)
      ensures RingAfterRelease(old(bs), old(free), i, free)
      ensures totalFreed == old(totalFreed) + freed
    {
      hide State, FreeRing, Good, HeapOf, Counted, FreeStep, FreeBlocks, JoinNext, JoinPrev, JoinedNextIndex, AllSized, Sized,
           RingAfterRelease;
      ghost var b0, f0 := bs, free;
      freed := userSize[b];
      Freed(bs, totalSize, i, freed, currentBlocks, totalAllocated - totalFreed);
      StateInHand(size, next, prev, isFree, userSize, bs, free, memoryStart, totalSize, i, b);
      userSize := userSize[b := 0];
      bs := bs[i := bs[i].(free := true, user := 0)];
      GiveBack(b, i);
      MarkedRing(b0, f0, i, free);
      currentBlocks := currentBlocks - 1;
      totalFreed := totalFreed + freed;
    }

    /** group_free, for a null pointer, an address outside the arena, or the payload address of a block. */
    method Free(p: int) returns (freed: nat)
      requires Valid()
      requires p == NULL || !InArena(p, memoryStart, totalSize) || exists i: nat :: PayloadAt(bs, p, i)
      modifies this`size, this`userSize, this`next, this`prev, this`isFree, this`freeNext, this`freePrev, this`freeList,
               this`currentBlocks, this`totalFreed, this`bs, this`free
      ensures Valid()
      ensures InArena(p, memoryStart, totalSize) ==> FreeStep(old(HeapOf(bs)), p, freed, HeapOf(bs))
      ensures InArena(p, memoryStart, totalSize) && p in old(HeapOf(bs)) ==>
                exists i: nat :: PayloadAt(old(bs), p, i) && bs == FreeBlocks(old(bs), i)
                                 && RingAfterRelease(old(bs), old(free), i, free)
      ensures !(InArena(p, memoryStart, totalSize) && p in old(HeapOf(bs))) ==>
                freed == 0 && bs == old(bs) && free == old(free)
      ensures totalFreed == old(totalFreed) + freed
    {
      hide State, FreeRing, Good, HeapOf, Counted, FreeStep, FreeBlocks, Sized, AllSized, RingAfterRelease;
      if p == NULL { return 0; }
      if p < memoryStart + HEADER || p >= memoryStart + totalSize { return 0; }
      var b := p - HEADER;
      ghost var i: nat :| PayloadAt(bs, p, i);
      StateAt(size, next, prev, isFree, userSize, bs, free, memoryStart, totalSize, NULL, i);
      GoodAt(bs, totalSize, i);
      GoodUser(bs, totalSize, i);
      if isFree[b] || userSize[b] == 0 {
        FreeBlockNotInHeap(bs, totalSize, i);
        FreeStepFor(HeapOf(bs), p, 0, HeapOf(bs));
        return 0;
      }
      freed := Release(b, i);
    }

    /** group_get_info */
    method GetInfo() returns (info: Info)
      requires Valid()
      ensures info.totalMemory == totalSize && info.totalAllocated == totalAllocated && info.totalFreed == totalFreed
      ensures info.freeMemory == Bytes(bs, true) && info.usedMemory == Bytes(bs, false)
      ensures info.freeBlockCount == FreeCount(bs) && info.currentBlocks == LiveCount(bs) && info.blockCount == |bs|
      ensures info.memoryLeak <==> info.currentBlocks > 0
      ensures info.totalAllocated - info.totalFreed == Requested(HeapOf(bs))
    {
      hide State, Forward, Backward, Listed, HeapOf, Requested, Good, Bytes;
      var freeMem, freeBlocks := 0, 0;
      if freeList != NULL {
        var cur := freeList;
        ghost var k := 0;
        while true
          invariant k < |free| && cur == free[k]
          invariant freeMem == RingBytes(size, free[..k]) && freeBlocks == k
          decreases |free| - k
        {
          assert free[..k + 1][..k] == free[..k];
          FreeSizeAt(size, next, prev, isFree, userSize, bs, free, memoryStart, totalSize, k, 0);
          freeMem := freeMem + (size[cur] + HEADER);
          freeBlocks := freeBlocks + 1;
          FollowFree(freeNext, freePrev, freeList, free, k);
          cur := freeNext[cur];
          if cur == freeList { break; }
          k := k + 1;
        }
        assert free[..|free|] == free;
      } else {
        HeadOfRing(freeNext, freePrev, freeList, free);
      }
      Figures(size, next, prev, isFree, userSize, bs, free, memoryStart, totalSize, currentBlocks, totalAllocated - totalFreed);
      info := Info(totalSize, totalSize - freeMem, freeMem, freeBlocks + currentBlocks, freeBlocks,
                   totalAllocated, totalFreed, currentBlocks, totalAllocated != totalFreed);
    }
  }

  /** One free block that fills the arena. */
  lemma InitialState(start: nat, bytes: nat)
    requires start > 0 && bytes >= HEADER && bytes % ALIGNMENT == 0
    ensures var bs, links := [Blk(start, bytes - HEADER, true, 0)], map[start as int := start as int];
            State(map[start as int := AlignUp(bytes - HEADER)], links, links, map[start as int := true], map[start as int := 0],
                  bs, [start], start, bytes, NULL)
            && Good(bs, bytes) && HeapOf(bs) == map[] && Counted(0, 0, HeapOf(bs))
  {
    var bs := [Blk(start, bytes - HEADER, true, 0)];
    AlignedStays(bytes - HEADER);
    assert bs[0].free && bs[..0] == [];
    FreeAtIndex(bs, 0);
  }

  lemma AlignedStays(x: nat)
    requires x % ALIGNMENT == 0
    ensures AlignUp(x) == x
  {
  }

  lemma CutKeepsBlock(bs: seq<Blk>, i: nat, req: nat)
    requires i < |bs| && bs[i].size >= req + HEADER
    ensures Cut(bs, i, req)[i] == bs[i].(size := req)
  {
  }

  lemma Overwritten(m: map<int, int>, b: int, x: int, y: int)
    ensures m[b := x][b := y] == m[b := y]
  {
  }

  lemma RingSingle(fn: map<int, int>, fp: map<int, int>, b: int)
    requires b != NULL && b in fn && b in fp && fn[b] == b && fp[b] == b
    ensures FreeRing(fn, fp, b, [b])
  {
  }

  lemma EmptyRing(fn: map<int, int>, fp: map<int, int>)
    ensures FreeRing(fn, fp, NULL, [])
  {
  }
}
