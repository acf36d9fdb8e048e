/**
 The shape of a buddy arena.  A tree describes how an aligned arena of order k
 is cut into blocks: every leaf is one block, free or in use.  The trees that the
 allocator keeps are canonical: no two halves of one block are both free.
 */
module BuddyTree {
  import opened Bits

  datatype Tree = Free | Used(req: nat) | Split(lo: Tree, hi: Tree)

  datatype Block = NoBlock | Block(order: nat, free: bool, req: nat)

  predicate Fits(t: Tree, k: nat) {
    match t
    case Split(lo, hi) => k > 0 && Fits(lo, k - 1) && Fits(hi, k - 1)
    case _ => true
  }

  predicate Canonical(t: Tree) {
    match t
    case Split(lo, hi) => !(lo.Free? && hi.Free?) && Canonical(lo) && Canonical(hi)
    case _ => true
  }

  predicate IsLeaf(t: Tree) { !t.Split? }

  function LeafBlock(leaf: Tree, k: nat): Block
    requires IsLeaf(leaf)
  {
    if leaf.Free? then Block(k, true, 0) else Block(k, false, leaf.req)
  }

  /** The block that starts at x when the tree is laid over the arena [a, a + Size(k)). */
  function Look(t: Tree, a: nat, k: nat, x: int): (b: Block)
    requires Fits(t, k)
    ensures b.Block? ==> a <= x && b.order <= k && x + Size(b.order) <= a + Size(k)
    ensures x == a ==> b.Block?
    decreases t
  {
    match t
    case Split(lo, hi) =>
      if x < a + Size(k - 1) then Look(lo, a, k - 1, x) else Look(hi, a + Size(k - 1), k - 1, x)
    case _ => if x == a then LeafBlock(t, k) else NoBlock
  }

  lemma {:induction false} FreeHasNoRequest(t: Tree, a: nat, k: nat, x: int)
    requires Fits(t, k) && Look(t, a, k, x).Block? && Look(t, a, k, x).free
    ensures Look(t, a, k, x).req == 0
    decreases t
  {
    if t.Split? {
      var mid := a + Size(k - 1);
      if x < mid { FreeHasNoRequest(t.lo, a, k - 1, x); } else { FreeHasNoRequest(t.hi, mid, k - 1, x); }
    }
  }

  // ----- tiling -----

  ghost predicate Covers(t: Tree, a: nat, k: nat, x: int, y: int)
    requires Fits(t, k)
  {
    Look(t, a, k, x).Block? && x <= y < x + Size(Look(t, a, k, x).order)
  }

  /** Every address of the arena lies in exactly one block. */
  lemma {:induction false} Tiling(t: Tree, a: nat, k: nat, y: int) returns (x: int)
    requires Fits(t, k) && a <= y < a + Size(k)
    ensures Covers(t, a, k, x, y)
    ensures forall z :: Covers(t, a, k, z, y) ==> z == x
    decreases t
  {
    if t.Split? {
      var mid := a + Size(k - 1);
      if y < mid {
        x := Tiling(t.lo, a, k - 1, y);
        forall z | Covers(t, a, k, z, y) ensures z == x {
          assert Covers(t.lo, a, k - 1, z, y);
        }
      } else {
        x := Tiling(t.hi, mid, k - 1, y);
        forall z | Covers(t, a, k, z, y) ensures z == x {
          assert z >= mid ==> Covers(t.hi, mid, k - 1, z, y);
        }
      }
    } else {
      x := a;
    }
  }

  lemma BlocksDisjoint(t: Tree, a: nat, k: nat, x: int, z: int)
    requires Fits(t, k) && Look(t, a, k, x).Block? && Look(t, a, k, z).Block? && x < z
    ensures x + Size(Look(t, a, k, x).order) <= z
  {
    var y := Tiling(t, a, k, z);
    assert Covers(t, a, k, z, z);
    assert !Covers(t, a, k, x, z);
  }

  lemma {:induction false} BlocksAligned(t: Tree, a: nat, k: nat, x: int)
    requires Fits(t, k) && Aligned(a, k) && Look(t, a, k, x).Block?
    ensures Aligned(x, Look(t, a, k, x).order)
    decreases t
  {
    if t.Split? {
      Halves(a, k);
      var mid := a + Size(k - 1);
      if x < mid { BlocksAligned(t.lo, a, k - 1, x); } else { BlocksAligned(t.hi, mid, k - 1, x); }
    }
  }

  lemma WholeLeaf(t: Tree, a: nat, k: nat, x: int)
    requires Fits(t, k) && Look(t, a, k, x).Block? && Look(t, a, k, x).order == k
    ensures x == a && IsLeaf(t)
  {
  }

  /** The other half of the order j + 1 part that an order j part starting at x belongs to. */
  function Partner(a: nat, k: nat, x: int, j: nat): nat
    requires j < k
    decreases k
  {
    var mid := a + Size(k - 1);
    if j == k - 1 then (if x < mid then mid else a)
    else if x < mid then Partner(a, k - 1, x, j)
    else Partner(mid, k - 1, x, j)
  }

  /** The partner of a block smaller than the arena starts a real block, never a larger one. */
  lemma {:induction false} PartnerIsBlock(t: Tree, a: nat, k: nat, x: nat, j: nat)
    requires Fits(t, k) && Look(t, a, k, x).Block? && Look(t, a, k, x).order == j < k
    ensures var s := Partner(a, k, x, j);
            Look(t, a, k, s).Block? && Look(t, a, k, s).order <= j && (s == x + Size(j) || s + Size(j) == x)
    decreases t
  {
    var mid := a + Size(k - 1);
    if j == k - 1 {
      if x < mid { WholeLeaf(t.lo, a, k - 1, x); } else { WholeLeaf(t.hi, mid, k - 1, x); }
    } else if x < mid {
      PartnerIsBlock(t.lo, a, k - 1, x, j);
    } else {
      PartnerIsBlock(t.hi, mid, k - 1, x, j);
    }
  }

  lemma {:induction false} PartnerIsXor(t: Tree, a: nat, k: nat, x: nat, j: nat)
    requires Fits(t, k) && Aligned(a, k) && Look(t, a, k, x).Block? && Look(t, a, k, x).order == j < k
    ensures Sibling(x, j) == Partner(a, k, x, j)
    decreases t
  {
    Halves(a, k);
    var mid := a + Size(k - 1);
    if j == k - 1 {
      if x < mid { WholeLeaf(t.lo, a, k - 1, x); } else { WholeLeaf(t.hi, mid, k - 1, x); }
    } else if x < mid {
      PartnerIsXor(t.lo, a, k - 1, x, j);
    } else {
      PartnerIsXor(t.hi, mid, k - 1, x, j);
    }
  }

  /**
   The address that exclusive or gives for a block smaller than the arena is always
   the start of a real block, never larger than the block itself.
   */
  lemma SiblingIsBlock(t: Tree, a: nat, k: nat, x: nat)
    requires Fits(t, k) && Aligned(a, k) && Look(t, a, k, x).Block? && Look(t, a, k, x).order < k
    ensures var j := Look(t, a, k, x).order; var s := Sibling(x, j);
            Look(t, a, k, s).Block? && Look(t, a, k, s).order <= j && (s == x + Size(j) || s + Size(j) == x)
  {
    PartnerIsXor(t, a, k, x, Look(t, a, k, x).order);
    PartnerIsBlock(t, a, k, x, Look(t, a, k, x).order);
  }

  // ----- tree surgery -----

  /** Replaces the leaf that starts at x. */
  function Mark(t: Tree, a: nat, k: nat, x: int, leaf: Tree): (r: Tree)
    requires Fits(t, k) && IsLeaf(leaf)
    ensures Fits(r, k)
  {
    match t
    case Split(lo, hi) =>
      if x < a + Size(k - 1) then Split(Mark(lo, a, k - 1, x, leaf), hi)
      else Split(lo, Mark(hi, a + Size(k - 1), k - 1, x, leaf))
    case _ => leaf
  }

  lemma {:induction false} MarkLook(t: Tree, a: nat, k: nat, x: int, leaf: Tree, z: int)
    requires Fits(t, k) && IsLeaf(leaf) && Look(t, a, k, x).Block?
    ensures Look(Mark(t, a, k, x, leaf), a, k, z)
            == if z == x then LeafBlock(leaf, Look(t, a, k, x).order) else Look(t, a, k, z)
    decreases t
  {
    if t.Split? {
      var mid := a + Size(k - 1);
      if x < mid { MarkLook(t.lo, a, k - 1, x, leaf, z); } else { MarkLook(t.hi, mid, k - 1, x, leaf, z); }
    }
  }

  lemma {:induction false} MarkUsedCanonical(t: Tree, a: nat, k: nat, x: int, req: nat)
    requires Fits(t, k) && Canonical(t)
    ensures Canonical(Mark(t, a, k, x, Used(req))) && !Mark(t, a, k, x, Used(req)).Free?
    decreases t
  {
    if t.Split? {
      var mid := a + Size(k - 1);
      if x < mid { MarkUsedCanonical(t.lo, a, k - 1, x, req); } else { MarkUsedCanonical(t.hi, mid, k - 1, x, req); }
    }
  }

  /** Freeing a leaf keeps the tree canonical unless its partner is a free block of the same order. */
  lemma {:induction false} MarkFreeCanonical(t: Tree, a: nat, k: nat, x: nat, j: nat)
    requires Fits(t, k) && Canonical(t) && Look(t, a, k, x).Block? && Look(t, a, k, x).order == j
    requires j < k ==> Look(t, a, k, Partner(a, k, x, j)) != Block(j, true, 0)
    ensures Canonical(Mark(t, a, k, x, Free))
    ensures j < k ==> !Mark(t, a, k, x, Free).Free?
    decreases t
  {
    hide Size;
    if t.Split? {
      var mid := a + Size(k - 1);
      if x < mid {
        if j < k - 1 {
          PartnerIsBlock(t.lo, a, k - 1, x, j);
          MarkFreeCanonical(t.lo, a, k - 1, x, j);
        } else { WholeLeaf(t.lo, a, k - 1, x); }
      } else {
        if j < k - 1 {
          PartnerIsBlock(t.hi, mid, k - 1, x, j);
          MarkFreeCanonical(t.hi, mid, k - 1, x, j);
        } else { WholeLeaf(t.hi, mid, k - 1, x); }
      }
    }
  }

  /** Splits the used leaf at x in two, keeping its lower half in use. */
  function Halve(t: Tree, a: nat, k: nat, x: int): (r: Tree)
    requires Fits(t, k) && Look(t, a, k, x).Block? && !Look(t, a, k, x).free && Look(t, a, k, x).order > 0
    ensures Fits(r, k) && (Canonical(t) ==> Canonical(r)) && !r.Free?
  {
    match t
    case Split(lo, hi) =>
      if x < a + Size(k - 1) then Split(Halve(lo, a, k - 1, x), hi)
      else Split(lo, Halve(hi, a + Size(k - 1), k - 1, x))
    case _ => Split(t, Free)
  }

  lemma {:induction false} HalveLook(t: Tree, a: nat, k: nat, x: int, j: nat, req: nat, z: int)
    requires Fits(t, k) && Look(t, a, k, x) == Block(j + 1, false, req)
    ensures Look(Halve(t, a, k, x), a, k, z)
            == if z == x then Block(j, false, req)
               else if z == x + Size(j) then Block(j, true, 0)
               else Look(t, a, k, z)
    decreases t
  {
    if t.Split? {
      var mid := a + Size(k - 1);
      if x < mid {
        HalveLook(t.lo, a, k - 1, x, j, req, z);
        assert x + Size(j) < mid;
      } else {
        HalveLook(t.hi, mid, k - 1, x, j, req, z);
      }
    }
  }

  /** Joins the used leaf at x with its free sibling of the same order. */
  function Fuse(t: Tree, a: nat, k: nat, x: int): (r: Tree)
    requires Fits(t, k)
    ensures Fits(r, k)
  {
    match t
    case Split(lo, hi) =>
      var mid := a + Size(k - 1);
      if x == a && lo.Used? then lo
      else if x == mid && hi.Used? then hi
      else if x < mid then Split(Fuse(lo, a, k - 1, x), hi)
      else Split(lo, Fuse(hi, mid, k - 1, x))
    case _ => t
  }

  ghost predicate Fusible(t: Tree, a: nat, k: nat, x: nat, j: nat, req: nat)
    requires Fits(t, k)
  {
    j < k && Look(t, a, k, x) == Block(j, false, req)
    && Look(t, a, k, Partner(a, k, x, j)) == Block(j, true, 0)
  }

  /** Where Fuse goes: either the two halves are the pair, or the pair lies in one half. */
  lemma FuseStep(t: Tree, a: nat, k: nat, x: nat, j: nat, req: nat)
    requires Fits(t, k) && Fusible(t, a, k, x, j, req)
    ensures t.Split?
    ensures var mid := a + Size(k - 1); var s := Partner(a, k, x, j);
            if j == k - 1
            then (x == a && s == mid && t.lo == Used(req) && t.hi.Free?)
                 || (x == mid && s == a && t.lo.Free? && t.hi == Used(req))
            else if x < mid then s < mid && s == Partner(a, k - 1, x, j) && Fusible(t.lo, a, k - 1, x, j, req)
                 else s >= mid && s == Partner(mid, k - 1, x, j) && Fusible(t.hi, mid, k - 1, x, j, req)
  {
    var mid := a + Size(k - 1);
    var s := Partner(a, k, x, j);
    if j == k - 1 {
      if x < mid {
        WholeLeaf(t.lo, a, k - 1, x);
        WholeLeaf(t.hi, mid, k - 1, s);
      } else {
        WholeLeaf(t.hi, mid, k - 1, x);
        WholeLeaf(t.lo, a, k - 1, s);
      }
    } else {
      if x < mid { PartnerIsBlock(t.lo, a, k - 1, x, j); } else { PartnerIsBlock(t.hi, mid, k - 1, x, j); }
    }
  }

  lemma NotWhole(t: Tree, a: nat, k: nat, x: nat, j: nat)
    requires Fits(t, k) && Look(t, a, k, x).Block? && Look(t, a, k, x).order == j < k
    ensures t.Split?
  {
  }

  lemma {:induction false} FuseLook(t: Tree, a: nat, k: nat, x: nat, j: nat, req: nat, z: int)
    requires Fits(t, k) && Fusible(t, a, k, x, j, req)
    ensures var s := Partner(a, k, x, j);
            Look(Fuse(t, a, k, x), a, k, z)
            == if z == (if s < x then s else x) then Block(j + 1, false, req)
               else if z == x || z == s then NoBlock
               else Look(t, a, k, z)
    decreases t
  {
    FuseStep(t, a, k, x, j, req);
    var mid := a + Size(k - 1);
    if j < k - 1 {
      if x < mid {
        NotWhole(t.lo, a, k - 1, x, j);
        FuseLook(t.lo, a, k - 1, x, j, req, z);
      } else {
        NotWhole(t.hi, mid, k - 1, x, j);
        FuseLook(t.hi, mid, k - 1, x, j, req, z);
      }
    }
  }

  lemma {:induction false} FuseCanonical(t: Tree, a: nat, k: nat, x: nat, j: nat, req: nat)
    requires Fits(t, k) && Fusible(t, a, k, x, j, req) && Canonical(t)
    ensures Canonical(Fuse(t, a, k, x)) && !Fuse(t, a, k, x).Free?
    decreases t
  {
    FuseStep(t, a, k, x, j, req);
    var mid := a + Size(k - 1);
    if j < k - 1 {
      if x < mid { FuseCanonical(t.lo, a, k - 1, x, j, req); } else { FuseCanonical(t.hi, mid, k - 1, x, j, req); }
    }
  }

  // ----- canonical form -----

  ghost predicate NoneUsed(t: Tree, a: nat, k: nat)
    requires Fits(t, k)
  {
    forall x :: Look(t, a, k, x).Block? ==> Look(t, a, k, x).free
  }

  lemma {:induction false} NothingLive(t: Tree, a: nat, k: nat)
    requires Fits(t, k) && Canonical(t) && NoneUsed(t, a, k)
    ensures t.Free?
    decreases t
  {
    match t
    case Split(lo, hi) =>
      var h := k - 1;
      var mid := a + Size(h);
      forall x | Look(lo, a, h, x).Block? ensures Look(lo, a, h, x).free {
        assert Look(t, a, k, x) == Look(lo, a, h, x);
      }
      forall x | Look(hi, mid, h, x).Block? ensures Look(hi, mid, h, x).free {
        assert Look(t, a, k, x) == Look(hi, mid, h, x);
      }
      NothingLive(lo, a, k - 1);
      NothingLive(hi, mid, k - 1);
    case Used(_) => assert Look(t, a, k, a).Block?;
    case Free =>
  }

  ghost predicate Avoids(t: Tree, a: nat, k: nat, z: int, x: int, j: nat)
    requires Fits(t, k)
  {
    var b := Look(t, a, k, z);
    b.Block? && !b.free ==> z + Size(b.order) <= x || x + Size(j) <= z
  }

  /** [x, x + Size(j)) is an aligned part of the arena in which nothing is in use. */
  ghost predicate Clear(t: Tree, a: nat, k: nat, x: int, j: nat)
    requires Fits(t, k)
  {
    Aligned(x, j) && a <= x && x + Size(j) <= a + Size(k) && j <= k
    && forall z :: Avoids(t, a, k, z, x, j)
  }

  /** A clear part that no other clear part contains. */
  ghost predicate MaximalClear(t: Tree, a: nat, k: nat, x: int, j: nat)
    requires Fits(t, k)
  {
    Clear(t, a, k, x, j)
    && forall y: int, m: nat :: Clear(t, a, k, y, m) && y <= x && x + Size(j) <= y + Size(m) ==> y == x && m == j
  }

  lemma ClearInLow(t: Tree, a: nat, k: nat, x: int, j: nat)
    requires Fits(t, k) && t.Split? && j < k && x + Size(j) <= a + Size(k - 1)
    ensures Clear(t, a, k, x, j) <==> Clear(t.lo, a, k - 1, x, j)
  {
    var h := k - 1;
    if Clear(t, a, k, x, j) {
      forall z ensures Avoids(t.lo, a, h, z, x, j) {
        assert Avoids(t, a, k, z, x, j);
      }
    }
    if Clear(t.lo, a, k - 1, x, j) {
      forall z ensures Avoids(t, a, k, z, x, j) {
        assert Avoids(t.lo, a, h, z, x, j);
      }
    }
  }

  lemma ClearInHigh(t: Tree, a: nat, k: nat, x: int, j: nat)
    requires Fits(t, k) && t.Split? && j < k && x >= a + Size(k - 1)
    ensures Clear(t, a, k, x, j) <==> Clear(t.hi, a + Size(k - 1), k - 1, x, j)
  {
    var h := k - 1;
    var mid := a + Size(h);
    if Clear(t, a, k, x, j) {
      forall z ensures Avoids(t.hi, mid, h, z, x, j) {
        assert Avoids(t, a, k, z, x, j);
      }
    }
    if Clear(t.hi, mid, k - 1, x, j) {
      forall z ensures Avoids(t, a, k, z, x, j) {
        assert Avoids(t.hi, mid, h, z, x, j);
      }
    }
  }

  lemma SizeInjective(j: nat, m: nat)
    ensures Size(j) < Size(m) <==> j < m
  {
    if j < m { SizeGrows(j, m); } else if m < j { SizeGrows(m, j); }
  }

  /** A clear part properly inside the arena lies in one of its halves. */
  lemma ClearSide(t: Tree, a: nat, k: nat, x: int, j: nat)
    requires Fits(t, k) && t.Split? && Aligned(a, k) && Clear(t, a, k, x, j) && j < k
    ensures if x < a + Size(k - 1)
            then x + Size(j) <= a + Size(k - 1) && Clear(t.lo, a, k - 1, x, j)
            else Clear(t.hi, a + Size(k - 1), k - 1, x, j)
  {
    Halves(a, k);
    var mid := a + Size(k - 1);
    if x < mid {
      NoStraddle(x, j, mid, k - 1);
      ClearInLow(t, a, k, x, j);
    } else {
      ClearInHigh(t, a, k, x, j);
    }
  }

  lemma WholeClearMeansFree(t: Tree, a: nat, k: nat, x: int)
    requires Fits(t, k) && Canonical(t) && Clear(t, a, k, x, k)
    ensures x == a && t.Free?
  {
    forall z | Look(t, a, k, z).Block? ensures Look(t, a, k, z).free {
      assert Avoids(t, a, k, z, x, k);
    }
    NothingLive(t, a, k);
  }

  lemma {:induction false} ClearInsideFree(t: Tree, a: nat, k: nat, y: int, m: nat, x: int, j: nat)
    requires Fits(t, k) && Aligned(a, k) && Canonical(t) && Clear(t, a, k, y, m)
    requires Look(t, a, k, x).Block? && Look(t, a, k, x).order == j && y <= x && x + Size(j) <= y + Size(m)
    ensures y == x && m == j
    decreases t
  {
    if m == k {
      WholeClearMeansFree(t, a, k, y);
    } else if t.Split? {
      ClearSide(t, a, k, y, m);
      Halves(a, k);
      var mid := a + Size(k - 1);
      if y < mid {
        ClearInsideFree(t.lo, a, k - 1, y, m, x, j);
      } else {
        ClearInsideFree(t.hi, mid, k - 1, y, m, x, j);
      }
    } else {
      SizeInjective(m, k);
    }
  }

  /** No clear part properly contains a free block. */
  lemma FreeBlockIsMaximal(t: Tree, a: nat, k: nat, x: int)
    requires Fits(t, k) && Aligned(a, k) && Canonical(t)
    requires Look(t, a, k, x).Block? && Look(t, a, k, x).free
    ensures MaximalClear(t, a, k, x, Look(t, a, k, x).order)
  {
    var j := Look(t, a, k, x).order;
    BlocksAligned(t, a, k, x);
    forall z ensures Avoids(t, a, k, z, x, j) {
      if Look(t, a, k, z).Block? {
        if z < x { BlocksDisjoint(t, a, k, z, x); } else if x < z { BlocksDisjoint(t, a, k, x, z); }
      }
    }
    forall y: int, m: nat | Clear(t, a, k, y, m) && y <= x && x + Size(j) <= y + Size(m) ensures y == x && m == j {
      ClearInsideFree(t, a, k, y, m, x, j);
    }
  }

  lemma {:induction false} MaximalIsFreeBlock(t: Tree, a: nat, k: nat, x: int, j: nat)
    requires Fits(t, k) && Aligned(a, k) && Canonical(t) && MaximalClear(t, a, k, x, j)
    ensures Look(t, a, k, x) == Block(j, true, 0)
    decreases t
  {
    assert t.Free? ==> Clear(t, a, k, a, k);
    assert Avoids(t, a, k, a, x, j);
    if j == k {
      WholeClearMeansFree(t, a, k, x);
    } else {
      match t
      case Free =>
      case Used(_) =>
      case Split(lo, hi) =>
        ClearSide(t, a, k, x, j);
        Halves(a, k);
        var h := k - 1;
        var mid := a + Size(h);
        if x < mid {
          forall y: int, m: nat | Clear(lo, a, h, y, m) && y <= x && x + Size(j) <= y + Size(m)
            ensures y == x && m == j
          {
            ClearInLow(t, a, k, y, m);
          }
          MaximalIsFreeBlock(lo, a, k - 1, x, j);
        } else {
          forall y: int, m: nat | Clear(hi, mid, h, y, m) && y <= x && x + Size(j) <= y + Size(m)
            ensures y == x && m == j
          {
            ClearInHigh(t, a, k, y, m);
          }
          MaximalIsFreeBlock(hi, mid, k - 1, x, j);
        }
    }
  }

  /** Canonical form: the free blocks are exactly the maximal clear aligned parts of the arena. */
  lemma CanonicalForm(t: Tree, a: nat, k: nat, x: int, j: nat)
    requires Fits(t, k) && Aligned(a, k) && Canonical(t)
    ensures Look(t, a, k, x) == Block(j, true, 0) <==> MaximalClear(t, a, k, x, j)
  {
    if Look(t, a, k, x) == Block(j, true, 0) { FreeBlockIsMaximal(t, a, k, x); }
    if MaximalClear(t, a, k, x, j) { MaximalIsFreeBlock(t, a, k, x, j); }
  }

  /** Some free block is at least as large as any clear part. */
  lemma {:induction false} ClearNeedsFreeBlock(t: Tree, a: nat, k: nat, x: int, j: nat) returns (y: int)
    requires Fits(t, k) && Aligned(a, k) && Canonical(t) && Clear(t, a, k, x, j)
    ensures Look(t, a, k, y).Block? && Look(t, a, k, y).free && Look(t, a, k, y).order >= j
    decreases t
  {
    assert Avoids(t, a, k, a, x, j);
    if j == k {
      WholeClearMeansFree(t, a, k, x);
      y := a;
    } else if t.Split? {
      ClearSide(t, a, k, x, j);
      Halves(a, k);
      var mid := a + Size(k - 1);
      if x < mid { y := ClearNeedsFreeBlock(t.lo, a, k - 1, x, j); } else { y := ClearNeedsFreeBlock(t.hi, mid, k - 1, x, j); }
    } else {
      y := a;
    }
  }

  /** A free block starts a clear part of every order up to its own. */
  lemma FreeBlockStartsClear(t: Tree, a: nat, k: nat, x: int, j: nat)
    requires Fits(t, k) && Aligned(a, k) && Canonical(t)
    requires Look(t, a, k, x).Block? && Look(t, a, k, x).free && j <= Look(t, a, k, x).order
    ensures Clear(t, a, k, x, j)
  {
    var m := Look(t, a, k, x).order;
    FreeBlockIsMaximal(t, a, k, x);
    AlignedDown(x, j, m);
    SizeInjective(m, j);
    forall z ensures Avoids(t, a, k, z, x, j) {
      assert Avoids(t, a, k, z, x, m);
    }
  }

  /** Both trees have the same blocks in use. */
  ghost predicate SameUsed(t: Tree, u: Tree, a: nat, k: nat)
    requires Fits(t, k) && Fits(u, k)
  {
    forall x :: SameUsedAt(t, u, a, k, x)
  }

  ghost predicate SameUsedAt(t: Tree, u: Tree, a: nat, k: nat, x: int)
    requires Fits(t, k) && Fits(u, k)
  {
    var b, c := Look(t, a, k, x), Look(u, a, k, x);
    (b.Block? && !b.free) || (c.Block? && !c.free) ==> b == c
  }

  /** The whole tree, and so every free block, is determined by the blocks in use. */
  lemma {:induction false} LiveDeterminesTree(t: Tree, u: Tree, a: nat, k: nat)
    requires Fits(t, k) && Fits(u, k) && Canonical(t) && Canonical(u) && SameUsed(t, u, a, k)
    ensures t == u
    decreases t
  {
    if t.Split? && u.Split? {
      var h := k - 1;
      var mid := a + Size(h);
      forall x ensures SameUsedAt(t.lo, u.lo, a, h, x) {
        assert SameUsedAt(t, u, a, k, x);
      }
      forall x ensures SameUsedAt(t.hi, u.hi, mid, h, x) {
        assert SameUsedAt(t, u, a, k, x);
      }
      LiveDeterminesTree(t.lo, u.lo, a, k - 1);
      LiveDeterminesTree(t.hi, u.hi, mid, k - 1);
    } else if t.Split? {
      LeafAgainstSplit(u, t, a, k);
    } else if u.Split? {
      assert SameUsed(u, t, a, k) by {
        forall x ensures SameUsedAt(u, t, a, k, x) { assert SameUsedAt(t, u, a, k, x); }
      }
      LeafAgainstSplit(t, u, a, k);
    } else {
      assert SameUsedAt(t, u, a, k, a);
    }
  }

  /** A leaf and a canonical split never have the same blocks in use. */
  lemma LeafAgainstSplit(leaf: Tree, t: Tree, a: nat, k: nat)
    requires IsLeaf(leaf) && t.Split? && Fits(t, k) && Canonical(t)
    ensures !SameUsed(t, leaf, a, k)
  {
    if SameUsed(t, leaf, a, k) {
      assert SameUsedAt(t, leaf, a, k, a);
      if leaf.Free? {
        forall x | Look(t, a, k, x).Block? ensures Look(t, a, k, x).free {
          assert SameUsedAt(t, leaf, a, k, x);
        }
        NothingLive(t, a, k);
      } else {
        WholeLeaf(t, a, k, a);
      }
    }
  }

  // ----- conservation of bytes -----

  function FreeBytes(t: Tree, k: nat): nat
    requires Fits(t, k)
  {
    match t
    case Free => Size(k)
    case Used(_) => 0
    case Split(lo, hi) => FreeBytes(lo, k - 1) + FreeBytes(hi, k - 1)
  }

  function UsedBytes(t: Tree, k: nat): nat
    requires Fits(t, k)
  {
    match t
    case Free => 0
    case Used(_) => Size(k)
    case Split(lo, hi) => UsedBytes(lo, k - 1) + UsedBytes(hi, k - 1)
  }

  lemma {:induction false} BytesConserved(t: Tree, k: nat)
    requires Fits(t, k)
    ensures FreeBytes(t, k) + UsedBytes(t, k) == Size(k)
  {
    if t.Split? {
      BytesConserved(t.lo, k - 1);
      BytesConserved(t.hi, k - 1);
    }
  }

  lemma {:induction false} MarkBytes(t: Tree, a: nat, k: nat, x: int, leaf: Tree)
    requires Fits(t, k) && IsLeaf(leaf) && Look(t, a, k, x).Block?
    ensures var b := Look(t, a, k, x);
            FreeBytes(Mark(t, a, k, x, leaf), k) + (if b.free then Size(b.order) else 0)
            == FreeBytes(t, k) + (if leaf.Free? then Size(b.order) else 0)
    decreases t
  {
    if t.Split? {
      var mid := a + Size(k - 1);
      if x < mid { MarkBytes(t.lo, a, k - 1, x, leaf); } else { MarkBytes(t.hi, mid, k - 1, x, leaf); }
    }
  }

  lemma {:induction false} HalveBytes(t: Tree, a: nat, k: nat, x: int)
    requires Fits(t, k) && Look(t, a, k, x).Block? && !Look(t, a, k, x).free && Look(t, a, k, x).order > 0
    ensures FreeBytes(Halve(t, a, k, x), k) == FreeBytes(t, k) + Size(Look(t, a, k, x).order - 1)
    decreases t
  {
    if t.Split? {
      var mid := a + Size(k - 1);
      if x < mid { HalveBytes(t.lo, a, k - 1, x); } else { HalveBytes(t.hi, mid, k - 1, x); }
    }
  }

  lemma {:induction false} FuseBytes(t: Tree, a: nat, k: nat, x: nat, j: nat, req: nat)
    requires Fits(t, k) && Fusible(t, a, k, x, j, req)
    ensures FreeBytes(Fuse(t, a, k, x), k) + Size(j) == FreeBytes(t, k)
    decreases t
  {
    FuseStep(t, a, k, x, j, req);
    var mid := a + Size(k - 1);
    if j < k - 1 {
      if x < mid {
        NotWhole(t.lo, a, k - 1, x, j);
        FuseBytes(t.lo, a, k - 1, x, j, req);
      } else {
        NotWhole(t.hi, mid, k - 1, x, j);
        FuseBytes(t.hi, mid, k - 1, x, j, req);
      }
    }
  }
}
