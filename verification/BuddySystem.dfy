/**
 The buddy memory manager: thirteen singly linked lists of free blocks whose
 headers live at the block addresses.
 */
module BuddySystem {
  import opened Bits
  import opened BuddyTree
  import opened Circle
  import opened AbstractHeap

  const HEADER: nat := 32
  const MAX_ORDER: nat := 12
  const WORD: nat := 0x1_0000_0000_0000_0000

  datatype Header = Header(size: nat, userSize: nat, isFree: bool, next: int)

  type Memory = map<int, Header>

  // ----- orders -----

  function OrderFrom(size: nat, k: nat): (order: nat)
    requires k <= MAX_ORDER
    ensures k <= order <= MAX_ORDER
    decreases MAX_ORDER - k
  {
    if Size(k) < size && k < MAX_ORDER then OrderFrom(size, k + 1) else k
  }

  function Order(size: nat): (order: nat)
    ensures order <= MAX_ORDER
  {
    OrderFrom(size, 0)
  }

  /** The order of the block a request is served from; adding the header wraps, as on a machine word. */
  function RequestOrder(size: nat): (order: nat)
    ensures order <= MAX_ORDER
  {
    Order((size + HEADER) % WORD)
  }

  /** The least order that holds the request, capped at the top order. */
  lemma {:induction false} OrderIsLeast(size: nat, k: nat)
    requires k <= MAX_ORDER && (k > 0 ==> Size(k - 1) < size)
    ensures var o := OrderFrom(size, k);
            (size <= Size(o) || o == MAX_ORDER) && (o > 0 ==> Size(o - 1) < size)
    decreases MAX_ORDER - k
  {
    if Size(k) < size && k < MAX_ORDER { OrderIsLeast(size, k + 1); }
  }

  lemma OrderUnique(size: nat, o: nat)
    requires o <= MAX_ORDER && (size <= Size(o) || o == MAX_ORDER) && (o > 0 ==> Size(o - 1) < size)
    ensures Order(size) == o
  {
    OrderIsLeast(size, 0);
    var m := Order(size);
    if m < o { SizeMonotone(m, o - 1); }
    if o < m { SizeMonotone(o, m - 1); }
  }

  lemma SizeMonotone(j: nat, k: nat)
    requires j <= k
    ensures Size(j) <= Size(k)
  {
    if j < k { SizeGrows(j, k); }
  }

  /** What the header of a block says about its size; top is what that of a block of the top order says. */
  ghost predicate SizeField(size: nat, order: nat, top: nat) {
    order <= MAX_ORDER && (if order < MAX_ORDER then size + HEADER == Size(order) else size + HEADER == top >= Size(MAX_ORDER))
  }

  lemma SizeFieldOrder(size: nat, order: nat, top: nat)
    requires SizeField(size, order, top)
    ensures Order(size + HEADER) == order
  {
    if order > 0 { SizeGrows(order - 1, order); }
    OrderUnique(size + HEADER, order);
  }

  lemma SizeFieldInjective(s1: nat, o1: nat, s2: nat, o2: nat, top: nat)
    requires SizeField(s1, o1, top) && SizeField(s2, o2, top) && o1 < MAX_ORDER && o2 < MAX_ORDER
    ensures s1 == s2 <==> o1 == o2
  {
    SizeInjective(o1, o2);
    SizeInjective(o2, o1);
  }

  // ----- singly linked lists threaded through the headers -----

  function At(l: seq<int>, i: nat): int {
    if i < |l| then l[i] else NULL
  }

  ghost predicate Linked(h: Memory, head: int, l: seq<int>) {
    head == At(l, 0)
    && forall i | 0 <= i < |l| :: l[i] != NULL && l[i] in h && h[l[i]].next == At(l, i + 1)
  }

  lemma LinkedFrame(h: Memory, h': Memory, head: int, l: seq<int>)
    requires Linked(h, head, l)
    requires forall x | x in l :: x in h' && h'[x].next == h[x].next
    ensures Linked(h', head, l)
  {
  }

  lemma LinkedPush(h: Memory, h': Memory, head: int, l: seq<int>, x: int)
    requires Linked(h, head, l) && x !in l && x != NULL && x in h' && h'[x].next == head
    requires forall y | y in l :: y in h' && h'[y].next == h[y].next
    ensures Linked(h', x, [x] + l)
  {
    var m := [x] + l;
    forall i | 0 <= i < |m| ensures m[i] != NULL && m[i] in h' && h'[m[i]].next == At(m, i + 1) {
      if i > 0 { assert m[i] == l[i - 1]; }
    }
  }

  lemma LinkedPop(h: Memory, head: int, l: seq<int>)
    requires Linked(h, head, l) && l != []
    ensures Linked(h, h[l[0]].next, l[1..])
  {
    var m := l[1..];
    forall i | 0 <= i < |m| ensures m[i] != NULL && m[i] in h && h[m[i]].next == At(m, i + 1) {
      assert m[i] == l[i + 1];
    }
  }

  lemma LinkedUnlink(h: Memory, h': Memory, head: int, l: seq<int>, i: nat)
    requires Linked(h, head, l) && Distinct(l) && 0 < i < |l|
    requires h' == h[l[i - 1] := h[l[i - 1]].(next := h[l[i]].next)]
    ensures Linked(h', head, Remove(l, i))
  {
    var m := Remove(l, i);
    forall j | 0 <= j < |m| ensures m[j] != NULL && m[j] in h' && h'[m[j]].next == At(m, j + 1) {
      var o := if j < i then j else j + 1;
      assert m[j] == l[o];
      assert o != i - 1 ==> l[o] != l[i - 1];
    }
  }

  // ----- what the headers and lists must say about the blocks -----

  /** The block, if any, that starts at an address. */
  type View = int -> Block

  ghost function BlockAt(v: View, x: int): Block { v(x) }

  ghost function ViewOf(t: Tree, a: nat, k: nat): (v: View)
    requires Fits(t, k)
    ensures InRange(v, a, k)
  {
    x => Look(t, a, k, x)
  }

  ghost predicate HeaderMatches(h: Memory, x: int, b: Block, top: nat, hand: int) {
    b.Block? ==>
      && x in h && SizeField(h[x].size, b.order, top)
      && (x != hand ==> h[x].isFree == b.free && h[x].userSize == b.req)
  }

  ghost predicate HeadersMatch(h: Memory, v: View, top: nat, hand: int) {
    forall x :: HeaderMatches(h, x, v(x), top, hand)
  }

  ghost predicate Lists(lists: seq<seq<int>>, v: View) {
    |lists| == MAX_ORDER + 1
    && (forall j | 0 <= j <= MAX_ORDER :: Distinct(lists[j]))
    && (forall j, x | 0 <= j <= MAX_ORDER :: x in lists[j] <==> v(x) == Block(j, true, 0))
  }

  ghost predicate AllLinked(h: Memory, heads: seq<int>, lists: seq<seq<int>>) {
    |heads| == |lists| == MAX_ORDER + 1
    && forall j | 0 <= j <= MAX_ORDER :: Linked(h, heads[j], lists[j])
  }

  /** A list other than the one an address belongs to does not change when that header's link does. */
  lemma AllLinkedUpdate(h: Memory, h': Memory, heads: seq<int>, heads': seq<int>,
                        lists: seq<seq<int>>, lists': seq<seq<int>>, j: nat, y: int)
    requires AllLinked(h, heads, lists) && j <= MAX_ORDER
    requires |heads'| == |lists'| == MAX_ORDER + 1
    requires forall i | 0 <= i <= MAX_ORDER && i != j :: heads'[i] == heads[i] && lists'[i] == lists[i] && y !in lists[i]
    requires forall x | x in h && x != y :: x in h' && h'[x].next == h[x].next
    requires Linked(h', heads'[j], lists'[j])
    ensures AllLinked(h', heads', lists')
  {
    forall i | 0 <= i <= MAX_ORDER ensures Linked(h', heads'[i], lists'[i]) {
      if i != j { LinkedFrame(h, h', heads[i], lists[i]); }
    }
  }

  // ----- what the two routines do to the lists -----

  function IndexOf(l: seq<int>, x: int): (i: nat)
    requires x in l
    ensures i < |l| && l[i] == x && x !in l[..i]
  {
    if l[0] == x then 0 else 1 + IndexOf(l[1..], x)
  }

  /** The lists after x, of order j, is handed back: join with free siblings, then push. */
  ghost function GiveBack(lists: seq<seq<int>>, x: nat, j: nat): (r: seq<seq<int>>)
    requires |lists| == MAX_ORDER + 1 && j <= MAX_ORDER
    ensures |r| == |lists|
    decreases MAX_ORDER - j
  {
    var s := Sibling(x, j);
    if j < MAX_ORDER && s in lists[j] then
      GiveBack(lists[j := Remove(lists[j], IndexOf(lists[j], s))], if s < x then s else x, j + 1)
    else lists[j := [x] + lists[j]]
  }

  /** The lists after a block of order c is split down to order j: every split pushes an upper half. */
  ghost function TakeDown(lists: seq<seq<int>>, x: int, j: nat, c: nat): (r: seq<seq<int>>)
    requires |lists| == MAX_ORDER + 1 && j <= c <= MAX_ORDER
    ensures |r| == |lists|
    decreases c - j
  {
    if c == j then lists
    else TakeDown(lists[c - 1 := [x + Size(c - 1)] + lists[c - 1]], x, j, c - 1)
  }

  lemma SiblingPair(x: nat, j: nat)
    requires Aligned(x, j)
    ensures var s := Sibling(x, j); var y := if s < x then s else x;
            Aligned(y, j + 1) && y <= x && x + Size(j) <= y + Size(j + 1) && Size(j + 1) == 2 * Size(j)
  {
    hide Sibling;
    var q := MultipleOf(x, Size(j));
    SiblingOfMultiple(q, j);
    if q % 2 == 0 { PairAt(q / 2, j); } else { PairAt((q - 1) / 2, j); }
  }

  lemma PairAt(h: nat, j: nat)
    ensures Aligned(2 * h * Size(j), j + 1)
    ensures (2 * h + 1) * Size(j) == 2 * h * Size(j) + Size(j) && Size(j + 1) == 2 * Size(j)
  {
    assert 2 * h * Size(j) == h * (2 * Size(j));
    ModOfMultiple(h, Size(j + 1));
  }

  /**
   What has been handed back lies on top of one list: a block of order o from y on, around
   the block x of order j.  The lists in between have lost one block each, and the others
   are as they were; nothing was joined exactly when the sibling of x was on no list.
   */
  ghost predicate OnTop(lists: seq<seq<int>>, x: int, j: nat, r: seq<seq<int>>, y: int, o: nat)
  {
    && x >= 0 && |r| == |lists| == 13 && j <= o <= 12 && y <= x && x + Size(j) <= y + Size(o)
    && r[o] == [y] + lists[o]
    && (forall i | 0 <= i < 13 && !(j <= i <= o) :: r[i] == lists[i])
    && (forall i | j <= i < o :: OneLess(lists[i], r[i]))
    && (o == j <==> j == 12 || Sibling(x, j) !in lists[j]) && (o == j ==> y == x)
  }

  ghost predicate OneLess(l: seq<int>, r: seq<int>) {
    exists m: nat :: m < |l| && r == Remove(l, m)
  }

  ghost predicate ReleasedOnTop(lists: seq<seq<int>>, x: int, j: nat, r: seq<seq<int>>) {
    exists y: int, o: nat :: OnTop(lists, x, j, r, y, o)
  }

  lemma OnTopStep(lists: seq<seq<int>>, x: int, j: nat, m: nat, x': int, r: seq<seq<int>>, y: int, o: nat)
    requires x >= 0 && |lists| == 13 && j < 12 && m < |lists[j]| && Sibling(x, j) in lists[j]
    requires x' <= x && x + Size(j) <= x' + Size(j + 1)
    requires OnTop(lists[j := Remove(lists[j], m)], x', j + 1, r, y, o)
    ensures OnTop(lists, x, j, r, y, o)
  {
    hide Sibling, Size, Remove;
    var lists' := lists[j := Remove(lists[j], m)];
    assert r[j] == lists'[j] && OneLess(lists[j], r[j]);
    forall i | j <= i < o ensures OneLess(lists[i], r[i]) { if i > j { assert OneLess(lists'[i], r[i]); } }
  }

  lemma {:induction false} GivenBackOnTop(lists: seq<seq<int>>, x: nat, j: nat) returns (y: int, o: nat)
    requires |lists| == 13 && j <= 12 && Aligned(x, j)
    ensures OnTop(lists, x, j, GiveBack(lists, x, j), y, o)
    decreases 12 - j
  {
    hide Sibling, Size, Aligned, Remove, IndexOf;
    var s := Sibling(x, j);
    if j < 12 && s in lists[j] {
      SiblingPair(x, j);
      var m := IndexOf(lists[j], s);
      var x', lists' := if s < x then s else x, lists[j := Remove(lists[j], m)];
      y, o := GivenBackOnTop(lists', x', j + 1);
      OnTopStep(lists, x, j, m, x', GiveBack(lists', x', j + 1), y, o);
    } else {
      y, o := x, j;
    }
  }

  lemma OnTopReleased(lists: seq<seq<int>>, x: nat, j: nat)
    requires |lists| == 13 && j <= 12 && Aligned(x, j)
    ensures ReleasedOnTop(lists, x, j, GiveBack(lists, x, j))
  {
    hide OnTop, GiveBack, Aligned;
    var y, o := GivenBackOnTop(lists, x, j);
  }

  /** So a block whose sibling is not free is the next one that a request of its order is served from. */
  lemma ReleasedIsServedNext(lists: seq<seq<int>>, x: int, j: nat, r: seq<seq<int>>)
    requires x >= 0 && j <= 12 && |lists| == |r| == 13 && ReleasedOnTop(lists, x, j, r) && (j == 12 || Sibling(x, j) !in lists[j])
    ensures r[j] == [x] + lists[j]
  {
    hide Sibling, Size;
    var y, o: nat :| OnTop(lists, x, j, r, y, o);
  }

  /** Splitting the block at x from order c down to order j puts the upper half of each split on top of its list. */
  lemma {:induction false} TakenDown(lists: seq<seq<int>>, x: int, j: nat, c: nat)
    requires |lists| == 13 && j <= c <= 12
    ensures var r := TakeDown(lists, x, j, c);
            |r| == 13 && forall i | 0 <= i < 13 :: r[i] == if j <= i < c then [x + Size(i)] + lists[i] else lists[i]
    decreases c
  {
    hide Size;
    if j < c { TakenDown(lists[c - 1 := [x + Size(c - 1)] + lists[c - 1]], x, j, c - 1); }
  }

  // ----- the regions in use, as callers see them -----

  ghost predicate UsedAt(v: View, x: int) {
    v(x).Block? && !v(x).free
  }

  ghost predicate InRange(v: View, a: nat, k: nat) {
    forall x :: v(x).Block? ==> a <= x < a + Size(k)
  }

  ghost predicate UsedPayload(v: View, p: int) { UsedAt(v, p - HEADER) }

  ghost function RegionAt(v: View, p: int): Region
    requires UsedPayload(v, p)
  {
    Region(v(p - HEADER).req, Size(v(p - HEADER).order) - HEADER)
  }

  ghost function HeapOf(v: View, a: nat, k: nat): (h: Heap)
    requires InRange(v, a, k)
    ensures forall p :: p in h <==> UsedPayload(v, p)
    ensures forall p <- h :: h[p] == RegionAt(v, p)
  {
    map p: int | a + HEADER <= p < a + HEADER + Size(k) && UsedPayload(v, p) :: RegionAt(v, p)
  }

  lemma HeapSeparate(t: Tree, a: nat, k: nat)
    requires Fits(t, k)
    ensures Separate(HeapOf(ViewOf(t, a, k), a, k))
  {
    hide Size, Look, Fits, HeapOf;
    var v := ViewOf(t, a, k);
    var h := HeapOf(v, a, k);
    forall p <- h, q <- h | p < q ensures p + h[p].cap <= q {
      assert UsedPayload(v, p) && UsedPayload(v, q);
      BlocksDisjoint(t, a, k, p - HEADER, q - HEADER);
    }
  }

  /** Every request in use sits in the least order that holds it. */
  ghost predicate OrdersFit(v: View, hand: int) {
    forall x | UsedAt(v, x) && x != hand :: v(x).req > 0 && v(x).order == RequestOrder(v(x).req)
  }

  /** Apart from the block in hand, w has the used blocks of v, less the one at x. */
  ghost predicate OthersKept(v: View, w: View, x: int, hand: int) {
    forall z | z != hand :: (UsedAt(w, z) <==> z != x && UsedAt(v, z)) && (UsedAt(w, z) ==> w(z) == v(z))
  }

  lemma HeapAfterMalloc(v: View, w: View, a: nat, k: nat, x: int)
    requires InRange(v, a, k) && InRange(w, a, k) && OthersKept(v, w, x, x)
    requires !UsedAt(v, x) && UsedAt(w, x)
    ensures var p := x + HEADER;
            p !in HeapOf(v, a, k) && UsedPayload(w, p)
            && HeapOf(w, a, k) == HeapOf(v, a, k)[p := RegionAt(w, p)]
  {
    var p := x + HEADER;
    assert !UsedPayload(v, p) && UsedPayload(w, p);
    var g := HeapOf(v, a, k)[p := RegionAt(w, p)];
    forall q | q != p ensures UsedPayload(v, q) <==> UsedPayload(w, q) {
      assert UsedAt(v, q - HEADER) <==> UsedAt(w, q - HEADER);
    }
    assert HeapOf(w, a, k).Keys == g.Keys;
  }

  lemma HeapAfterFree(v: View, w: View, a: nat, k: nat, x: int, hand: int, p: int)
    requires InRange(v, a, k) && InRange(w, a, k) && OthersKept(v, w, x, hand) && p == x + HEADER
    requires !UsedAt(w, hand) && (hand != x ==> !UsedAt(v, hand))
    ensures HeapOf(w, a, k) == HeapOf(v, a, k) - {p}
  {
    var g := HeapOf(v, a, k) - {p};
    forall q ensures UsedPayload(w, q) <==> q != p && UsedPayload(v, q) {
      assert UsedAt(w, q - HEADER) <==> q - HEADER != x && UsedAt(v, q - HEADER);
    }
    assert HeapOf(w, a, k).Keys == g.Keys;
  }

  // ----- the elementary steps, one block at a time -----

  ghost predicate MarkedView(v: View, w: View, x: int, b: Block) {
    forall z :: w(z) == if z == x then b else v(z)
  }

  ghost predicate HalvedView(v: View, w: View, x: int, c: nat, req: nat) {
    forall z :: w(z) == if z == x then Block(c, false, req)
                        else if z == x + Size(c) then Block(c, true, 0)
                        else v(z)
  }

  ghost predicate FusedView(v: View, w: View, x: int, s: int, j: nat, req: nat) {
    forall z :: w(z) == if z == (if s < x then s else x) then Block(j + 1, false, req)
                        else if z == x || z == s then NoBlock
                        else v(z)
  }

  lemma MarkView(t: Tree, a: nat, k: nat, x: int, leaf: Tree)
    requires Fits(t, k) && IsLeaf(leaf) && Look(t, a, k, x).Block?
    ensures MarkedView(ViewOf(t, a, k), ViewOf(Mark(t, a, k, x, leaf), a, k), x, LeafBlock(leaf, Look(t, a, k, x).order))
  {
    forall z { MarkLook(t, a, k, x, leaf, z); }
  }

  lemma HalveView(t: Tree, a: nat, k: nat, x: int, j: nat, req: nat)
    requires Fits(t, k) && Look(t, a, k, x) == Block(j + 1, false, req)
    ensures HalvedView(ViewOf(t, a, k), ViewOf(Halve(t, a, k, x), a, k), x, j, req)
    ensures Look(t, a, k, x + Size(j)) == NoBlock
  {
    forall z { HalveLook(t, a, k, x, j, req, z); }
    if Look(t, a, k, x + Size(j)).Block? { BlocksDisjoint(t, a, k, x, x + Size(j)); }
  }

  lemma FuseView(t: Tree, a: nat, k: nat, x: nat, j: nat, req: nat)
    requires Fits(t, k) && Fusible(t, a, k, x, j, req)
    ensures FusedView(ViewOf(t, a, k), ViewOf(Fuse(t, a, k, x), a, k), x, Partner(a, k, x, j), j, req)
  {
    forall z { FuseLook(t, a, k, x, j, req, z); }
  }

  lemma TakeLists(lists: seq<seq<int>>, v: View, w: View, order: nat, req: nat)
    requires Lists(lists, v) && order <= MAX_ORDER && lists[order] != []
    requires MarkedView(v, w, lists[order][0], Block(order, false, req))
    ensures Lists(lists[order := lists[order][1..]], w)
  {
    var x := lists[order][0];
    assert x in lists[order];
    var lists' := lists[order := lists[order][1..]];
    assert lists[order] == [x] + lists[order][1..];
    forall j, y | 0 <= j <= MAX_ORDER ensures y in lists'[j] <==> w(y) == Block(j, true, 0) {
      assert y in lists[j] <==> v(y) == Block(j, true, 0);
    }
  }

  lemma TakeLinked(h: Memory, heads: seq<int>, lists: seq<seq<int>>, order: nat)
    requires AllLinked(h, heads, lists) && order <= MAX_ORDER && lists[order] != []
    ensures heads[order] == lists[order][0] && heads[order] in h
    ensures AllLinked(h, heads[order := h[heads[order]].next], lists[order := lists[order][1..]])
  {
    assert Linked(h, heads[order], lists[order]);
    LinkedPop(h, heads[order], lists[order]);
  }

  lemma MarkHeaders(h: Memory, v: View, w: View, top: nat, x: int, b: Block)
    requires HeadersMatch(h, v, top, x) && v(x).Block? && b.Block? && b.order == v(x).order && MarkedView(v, w, x, b)
    ensures HeadersMatch(h, w, top, x)
  {
    forall z ensures HeaderMatches(h, z, w(z), top, x) {
      assert HeaderMatches(h, z, v(z), top, x);
    }
  }

  /** Taking a block in hand, or letting it go once its status fields are right. */
  lemma HandHeaders(h: Memory, h': Memory, v: View, top: nat, x: int, hand: int, hand': int)
    requires HeadersMatch(h, v, top, hand) && !v(NULL).Block?
    requires forall y | y in h && y != x :: y in h' && h'[y].(next := NULL) == h[y].(next := NULL)
    requires x in h ==> x in h' && h'[x].size == h[x].size
    requires (hand == x && hand' == NULL) || (hand == NULL && hand' == x)
    requires hand' != x ==> v(x).Block? && x in h' && h'[x].isFree == v(x).free && h'[x].userSize == v(x).req
    ensures HeadersMatch(h', v, top, hand')
  {
    forall z ensures HeaderMatches(h', z, v(z), top, hand') {
      assert HeaderMatches(h, z, v(z), top, hand);
    }
  }

  lemma SplitLists(lists: seq<seq<int>>, v: View, w: View, x: int, c: nat, req: nat)
    requires Lists(lists, v) && c < MAX_ORDER && v(x) == Block(c + 1, false, req) && v(x + Size(c)) == NoBlock
    requires HalvedView(v, w, x, c, req)
    ensures forall j | 0 <= j <= MAX_ORDER :: x + Size(c) !in lists[j]
    ensures Lists(lists[c := [x + Size(c)] + lists[c]], w)
  {
    var b := x + Size(c);
    var lists' := lists[c := [b] + lists[c]];
    forall j, y | 0 <= j <= MAX_ORDER ensures y in lists'[j] <==> w(y) == Block(j, true, 0) {
      assert y in lists[j] <==> v(y) == Block(j, true, 0);
    }
  }

  lemma SplitHeaders(h: Memory, h': Memory, v: View, w: View, top: nat, x: int, b: int, c: nat, req: nat, next: int)
    requires HeadersMatch(h, v, top, x) && c < MAX_ORDER && x in h && b == x + Size(c)
    requires HalvedView(v, w, x, c, req)
    requires h' == h[b := Header(Size(c) - HEADER, 0, true, next)][x := h[x].(size := Size(c) - HEADER)]
    ensures HeadersMatch(h', w, top, x)
  {
    hide Size;
    forall z ensures HeaderMatches(h', z, w(z), top, x) {
      assert HeaderMatches(h, z, v(z), top, x);
    }
  }

  /** Pushing a block that is on no list. */
  lemma PushLinked(h: Memory, h': Memory, heads: seq<int>, lists: seq<seq<int>>, j: nat, x: int)
    requires AllLinked(h, heads, lists) && j <= MAX_ORDER && x != NULL
    requires forall i | 0 <= i <= MAX_ORDER :: x !in lists[i]
    requires x in h' && h'[x].next == heads[j]
    requires forall y | y in h && y != x :: y in h' && h'[y].next == h[y].next
    ensures AllLinked(h', heads[j := x], lists[j := [x] + lists[j]])
  {
    assert Linked(h, heads[j], lists[j]);
    LinkedPush(h, h', heads[j], lists[j], x);
    AllLinkedUpdate(h, h', heads, heads[j := x], lists, lists[j := [x] + lists[j]], j, x);
  }

  lemma SplitLinked(h: Memory, h': Memory, heads: seq<int>, lists: seq<seq<int>>, x: int, b: int, c: nat)
    requires AllLinked(h, heads, lists) && c < MAX_ORDER && x in h && x != b && b != NULL
    requires forall i | 0 <= i <= MAX_ORDER :: b !in lists[i]
    requires h' == h[b := Header(Size(c) - HEADER, 0, true, heads[c])][x := h[x].(size := Size(c) - HEADER)]
    ensures AllLinked(h', heads[c := b], lists[c := [b] + lists[c]])
  {
    PushLinked(h, h', heads, lists, c, b);
  }

  lemma PushLists(lists: seq<seq<int>>, v: View, w: View, x: int, j: nat)
    requires Lists(lists, v) && j <= MAX_ORDER && UsedAt(v, x) && MarkedView(v, w, x, Block(j, true, 0))
    ensures forall i | 0 <= i <= MAX_ORDER :: x !in lists[i]
    ensures Lists(lists[j := [x] + lists[j]], w)
  {
    var lists' := lists[j := [x] + lists[j]];
    forall i, y | 0 <= i <= MAX_ORDER ensures y in lists'[i] <==> w(y) == Block(i, true, 0) {
      assert y in lists[i] <==> v(y) == Block(i, true, 0);
    }
  }

  lemma FuseLists(lists: seq<seq<int>>, v: View, w: View, x: int, j: nat, req: nat, s: int, i: nat)
    requires Lists(lists, v) && j < MAX_ORDER && v(x) == Block(j, false, req) && FusedView(v, w, x, s, j, req)
    requires i < |lists[j]| && lists[j][i] == s
    ensures Lists(lists[j := Remove(lists[j], i)], w)
  {
    RemoveFacts(lists[j], i);
    assert s in lists[j];
    var lists' := lists[j := Remove(lists[j], i)];
    forall o, y | 0 <= o <= MAX_ORDER ensures y in lists'[o] <==> w(y) == Block(o, true, 0) {
      assert y in lists[o] <==> v(y) == Block(o, true, 0);
    }
  }

  /** Joining in hand: the joined block's size is the only header field that has to be right. */
  lemma HeadersMatchAll(h: Memory, v: View, top: nat, hand: int)
    requires forall z :: HeaderMatches(h, z, v(z), top, hand)
    ensures HeadersMatch(h, v, top, hand)
  {
  }

  lemma FuseHeaderAt(h: Memory, h': Memory, v: View, w: View, top: nat, x: int, j: nat, req: nat, s: int, y: int, z: int)
    requires HeadersMatch(h, v, top, x) && j < MAX_ORDER && FusedView(v, w, x, s, j, req)
    requires y == if s < x then s else x
    requires z in h && z != y ==> z in h' && h'[z].(next := NULL) == h[z].(next := NULL)
    requires y in h' && h'[y].size == Size(j + 1) - HEADER && (j + 1 == MAX_ORDER ==> top == Size(MAX_ORDER))
    ensures HeaderMatches(h', z, w(z), top, y)
  {
    assert HeaderMatches(h, z, v(z), top, x);
  }

  lemma FuseHeaders(h: Memory, h': Memory, v: View, w: View, top: nat, x: int, j: nat, req: nat, s: int, y: int)
    requires HeadersMatch(h, v, top, x) && j < MAX_ORDER && FusedView(v, w, x, s, j, req)
    requires y == if s < x then s else x
    requires forall z | z in h && z != y :: z in h' && h'[z].(next := NULL) == h[z].(next := NULL)
    requires y in h' && h'[y].size == Size(j + 1) - HEADER && (j + 1 == MAX_ORDER ==> top == Size(MAX_ORDER))
    ensures HeadersMatch(h', w, top, y)
  {
    hide HeaderMatches, HeadersMatch, FusedView;
    forall z ensures HeaderMatches(h', z, w(z), top, y) { FuseHeaderAt(h, h', v, w, top, x, j, req, s, y, z); }
    HeadersMatchAll(h', w, top, y);
  }

  /** The memory after the i-th block of a list is unlinked. */
  function UnlinkedMemory(h: Memory, l: seq<int>, i: nat): Memory
    requires i < |l| && (i > 0 ==> l[i - 1] in h && l[i] in h)
  {
    if i == 0 then h else h[l[i - 1] := h[l[i - 1]].(next := h[l[i]].next)]
  }

  lemma UnlinkKeepsFields(h: Memory, l: seq<int>, i: nat)
    requires i < |l| && (i > 0 ==> l[i - 1] in h && l[i] in h)
    ensures var h1 := UnlinkedMemory(h, l, i);
            h1.Keys == h.Keys && forall z | z in h :: h1[z].(next := NULL) == h[z].(next := NULL)
  {
  }

  lemma UnlinkLinked(h: Memory, heads: seq<int>, lists: seq<seq<int>>, v: View, j: nat, i: nat)
    requires Lists(lists, v) && AllLinked(h, heads, lists) && j <= MAX_ORDER && i < |lists[j]|
    ensures lists[j][i] in h && (i > 0 ==> lists[j][i - 1] in h)
    ensures AllLinked(UnlinkedMemory(h, lists[j], i), if i == 0 then heads[j := h[lists[j][0]].next] else heads,
                      lists[j := Remove(lists[j], i)])
  {
    var l := lists[j];
    assert Linked(h, heads[j], l);
    if i == 0 {
      TakeLinked(h, heads, lists, j);
      assert Remove(l, 0) == l[1..];
    } else {
      var y := l[i - 1];
      assert y in lists[j] && v(y) == Block(j, true, 0);
      forall o | 0 <= o <= MAX_ORDER && o != j ensures y !in lists[o] {
        assert y in lists[o] <==> v(y) == Block(o, true, 0);
      }
      var h' := UnlinkedMemory(h, l, i);
      LinkedUnlink(h, h', heads[j], l, i);
      AllLinkedUpdate(h, h', heads, heads, lists, lists[j := Remove(l, i)], j, y);
    }
  }

  lemma ResizeLinked(h: Memory, h': Memory, heads: seq<int>, lists: seq<seq<int>>, y: int)
    requires AllLinked(h, heads, lists) && y in h && y in h'
    requires h' == h[y := h'[y]] && h'[y].next == h[y].next
    ensures AllLinked(h', heads, lists)
  {
    forall o | 0 <= o <= MAX_ORDER ensures Linked(h', heads[o], lists[o]) {
      LinkedFrame(h, h', heads[o], lists[o]);
    }
  }

  lemma UsedNotListed(lists: seq<seq<int>>, v: View, x: int, i: nat)
    requires Lists(lists, v) && UsedAt(v, x) && i <= MAX_ORDER
    ensures x !in lists[i]
  {
  }

  lemma HandLinked(h: Memory, h': Memory, heads: seq<int>, lists: seq<seq<int>>, v: View, x: int)
    requires Lists(lists, v) && AllLinked(h, heads, lists) && UsedAt(v, x)
    requires x in h && x in h' && h' == h[x := h'[x]]
    ensures AllLinked(h', heads, lists)
  {
    hide Lists, UsedAt;
    forall i | 0 <= i <= MAX_ORDER ensures Linked(h', heads[i], lists[i]) {
      UsedNotListed(lists, v, x, i);
      LinkedFrame(h, h', heads[i], lists[i]);
    }
  }

  // ----- the figures that get_info adds up -----

  ghost function ListBytes(lists: seq<seq<int>>, n: nat): int
    requires n <= |lists|
  {
    if n == 0 then 0 else ListBytes(lists, n - 1) + |lists[n - 1]| * Size(n - 1)
  }

  lemma {:induction false} ListBytesUpdate(lists: seq<seq<int>>, n: nat, j: nat, l: seq<int>)
    requires j < |lists| && n <= |lists|
    ensures ListBytes(lists[j := l], n) == ListBytes(lists, n) + if j < n then (|l| - |lists[j]|) * Size(j) else 0
  {
    if n > 0 {
      ListBytesUpdate(lists, n - 1, j, l);
      if j == n - 1 { assert (|l| - |lists[j]|) * Size(j) == |l| * Size(j) - |lists[j]| * Size(j); }
    }
  }

  lemma ListBytesOneMore(lists: seq<seq<int>>, j: nat, l: seq<int>)
    requires j <= MAX_ORDER && |lists| == MAX_ORDER + 1 && |l| == |lists[j]| + 1
    ensures ListBytes(lists[j := l], MAX_ORDER + 1) == ListBytes(lists, MAX_ORDER + 1) + Size(j)
  {
    ListBytesUpdate(lists, MAX_ORDER + 1, j, l);
  }

  lemma ListBytesOneLess(lists: seq<seq<int>>, j: nat, l: seq<int>)
    requires j <= MAX_ORDER && |lists| == MAX_ORDER + 1 && |l| == |lists[j]| - 1
    ensures ListBytes(lists[j := l], MAX_ORDER + 1) == ListBytes(lists, MAX_ORDER + 1) - Size(j)
  {
    ListBytesUpdate(lists, MAX_ORDER + 1, j, l);
  }

  // ----- the whole state -----

  /** Headers, list heads and lists all describe the tree, up to the status fields of the block in hand. */
  ghost predicate Agree(h: Memory, heads: seq<int>, lists: seq<seq<int>>, t: Tree, a: nat, k: nat, top: nat, hand: int)
  {
    && Fits(t, k) && Canonical(t) && a > 0
    && Lists(lists, ViewOf(t, a, k))
    && AllLinked(h, heads, lists)
    && HeadersMatch(h, ViewOf(t, a, k), top, hand)
    && ListBytes(lists, MAX_ORDER + 1) == FreeBytes(t, k)
  }

  lemma HeaderOf(h: Memory, heads: seq<int>, lists: seq<seq<int>>, t: Tree, a: nat, k: nat, top: nat, x: int, hand: int)
    requires Agree(h, heads, lists, t, a, k, top, hand) && Look(t, a, k, x).Block?
    ensures x in h && SizeField(h[x].size, Look(t, a, k, x).order, top)
    ensures x != hand ==> h[x].isFree == Look(t, a, k, x).free && h[x].userSize == Look(t, a, k, x).req
  {
    assert HeaderMatches(h, x, ViewOf(t, a, k)(x), top, hand);
  }

  lemma TakeAgrees(h: Memory, heads: seq<int>, lists: seq<seq<int>>, t: Tree, a: nat, k: nat, top: nat,
                   order: nat, req: nat)
    requires Agree(h, heads, lists, t, a, k, top, NULL) && order <= MAX_ORDER && heads[order] != NULL
    ensures lists[order] != [] && heads[order] == lists[order][0] && heads[order] in h
    ensures Look(t, a, k, heads[order]) == Block(order, true, 0)
    ensures Agree(h, heads[order := h[heads[order]].next], lists[order := lists[order][1..]],
                  Mark(t, a, k, heads[order], Used(req)), a, k, top, heads[order])
  {
    assert Linked(h, heads[order], lists[order]);
    TakeLinked(h, heads, lists, order);
    var x := heads[order];
    var v := ViewOf(t, a, k);
    assert x in lists[order] && v(x) == Block(order, true, 0);
    var u := Mark(t, a, k, x, Used(req));
    MarkView(t, a, k, x, Used(req));
    TakeLists(lists, v, ViewOf(u, a, k), order, req);
    ListBytesOneLess(lists, order, lists[order][1..]);
    HandHeaders(h, h, v, top, x, NULL, x);
    MarkHeaders(h, v, ViewOf(u, a, k), top, x, Block(order, false, req));
    MarkUsedCanonical(t, a, k, x, req);
    MarkBytes(t, a, k, x, Used(req));
  }

  lemma SplitAgrees(h: Memory, h': Memory, heads: seq<int>, lists: seq<seq<int>>, t: Tree, a: nat, k: nat, top: nat,
                    x: int, b: int, c: nat, req: nat)
    requires Agree(h, heads, lists, t, a, k, top, x) && c < MAX_ORDER
    requires Look(t, a, k, x) == Block(c + 1, false, req) && b == x + Size(c) && x in h
    requires h' == h[b := Header(Size(c) - HEADER, 0, true, heads[c])][x := h[x].(size := Size(c) - HEADER)]
    ensures Agree(h', heads[c := b], lists[c := [b] + lists[c]], Halve(t, a, k, x), a, k, top, x)
  {
    hide Look, Halve, Lists, AllLinked, HeadersMatch, HalvedView, Size, FreeBytes, ListBytes, Canonical;
    var u := Halve(t, a, k, x);
    HalveView(t, a, k, x, c, req);
    HalveBytes(t, a, k, x);
    SplitParts(h, h', heads, lists, ViewOf(t, a, k), ViewOf(u, a, k), top, x, b, c, req);
  }

  /** The first split leaves no block of the top order, so it does not matter any more what its header would say. */
  lemma FirstSplit(h: Memory, heads: seq<int>, lists: seq<seq<int>>, t: Tree, a: nat, k: nat, top: nat,
                   x: int, c: nat, req: nat)
    requires Fits(t, k) && IsLeaf(t) && k <= MAX_ORDER && Look(t, a, k, x) == Block(c + 1, false, req)
    requires Agree(h, heads, lists, Halve(t, a, k, x), a, k, top, x)
    ensures Agree(h, heads, lists, Halve(t, a, k, x), a, k, Size(MAX_ORDER), x)
  {
    hide Lists, AllLinked, Canonical, Halve;
    var w := ViewOf(Halve(t, a, k, x), a, k);
    forall z ensures HeaderMatches(h, z, w(z), Size(MAX_ORDER), x) {
      HalveLook(t, a, k, x, c, req, z);
      assert HeaderMatches(h, z, w(z), top, x);
    }
  }

  lemma SplitParts(h: Memory, h': Memory, heads: seq<int>, lists: seq<seq<int>>, v: View, w: View, top: nat,
                   x: int, b: int, c: nat, req: nat)
    requires Lists(lists, v) && AllLinked(h, heads, lists) && HeadersMatch(h, v, top, x)
    requires c < MAX_ORDER && v(x) == Block(c + 1, false, req) && v(b) == NoBlock && b == x + Size(c) && x in h && b > 0
    requires HalvedView(v, w, x, c, req)
    requires h' == h[b := Header(Size(c) - HEADER, 0, true, heads[c])][x := h[x].(size := Size(c) - HEADER)]
    ensures Lists(lists[c := [b] + lists[c]], w) && HeadersMatch(h', w, top, x)
    ensures AllLinked(h', heads[c := b], lists[c := [b] + lists[c]])
    ensures ListBytes(lists[c := [b] + lists[c]], MAX_ORDER + 1) == ListBytes(lists, MAX_ORDER + 1) + Size(c)
  {
    SplitLists(lists, v, w, x, c, req);
    SplitHeaders(h, h', v, w, top, x, b, c, req, heads[c]);
    ListBytesOneMore(lists, c, [b] + lists[c]);
    SplitLinked(h, h', heads, lists, x, b, c);
  }

  lemma PushAgrees(h: Memory, heads: seq<int>, lists: seq<seq<int>>, t: Tree, a: nat, k: nat, top: nat,
                   x: nat, j: nat, req: nat)
    requires Agree(h, heads, lists, t, a, k, top, x) && j <= MAX_ORDER
    requires Look(t, a, k, x) == Block(j, false, req)
    requires j < k ==> Look(t, a, k, Partner(a, k, x, j)) != Block(j, true, 0)
    requires x in h && h[x].isFree && h[x].userSize == 0
    ensures Agree(h[x := h[x].(next := heads[j])], heads[j := x], lists[j := [x] + lists[j]],
                  Mark(t, a, k, x, Free), a, k, top, NULL)
  {
    var h' := h[x := h[x].(next := heads[j])];
    var u := Mark(t, a, k, x, Free);
    var v, w := ViewOf(t, a, k), ViewOf(u, a, k);
    MarkView(t, a, k, x, Free);
    PushLists(lists, v, w, x, j);
    PushLinked(h, h', heads, lists, j, x);
    MarkFreeCanonical(t, a, k, x, j);
    MarkHeaders(h, v, w, top, x, Block(j, true, 0));
    HandHeaders(h, h', w, top, x, x, NULL);
    MarkBytes(t, a, k, x, Free);
    ListBytesOneMore(lists, j, [x] + lists[j]);
  }

  /** Letting a used block go, or taking it in hand: only its own status fields change. */
  lemma HandAgrees(h: Memory, h': Memory, heads: seq<int>, lists: seq<seq<int>>, t: Tree, a: nat, k: nat, top: nat,
                   x: int, hand: int, hand': int)
    requires Agree(h, heads, lists, t, a, k, top, hand) && UsedAt(ViewOf(t, a, k), x)
    requires (hand == NULL && hand' == x) || (hand == x && hand' == NULL)
    requires x in h && x in h' && h' == h[x := h'[x]] && h'[x].size == h[x].size
    requires hand' == NULL ==> !h'[x].isFree && h'[x].userSize == Look(t, a, k, x).req
    ensures Agree(h', heads, lists, t, a, k, top, hand')
  {
    HandHeaders(h, h', ViewOf(t, a, k), top, x, hand, hand');
    HandLinked(h, h', heads, lists, ViewOf(t, a, k), x);
  }

  lemma FuseAgrees(h: Memory, h2: Memory, heads: seq<int>, lists: seq<seq<int>>, t: Tree, a: nat, k: nat, top: nat,
                   x: nat, j: nat, req: nat, s: nat, i: nat, y: nat)
    requires Agree(h, heads, lists, t, a, k, top, x) && j < MAX_ORDER && Fusible(t, a, k, x, j, req)
    requires j + 1 == MAX_ORDER ==> top == Size(MAX_ORDER)
    requires s == Partner(a, k, x, j) && y == (if s < x then s else x)
    requires i < |lists[j]| && lists[j][i] == s && s in h && x in h && (i > 0 ==> lists[j][i - 1] in h)
    requires var h1 := UnlinkedMemory(h, lists[j], i);
             y in h1 && h2 == h1[y := h1[y].(size := Size(j + 1) - HEADER)]
    ensures Agree(h2, if i == 0 then heads[j := h[s].next] else heads,
                  lists[j := Remove(lists[j], i)], Fuse(t, a, k, x), a, k, top, y)
  {
    hide Look, Fuse, HeadersMatch, FusedView, ListBytes, FreeBytes, Size, Canonical;
    var v, w := ViewOf(t, a, k), ViewOf(Fuse(t, a, k, x), a, k);
    UnlinkLinked(h, heads, lists, v, j, i);
    var h1 := UnlinkedMemory(h, lists[j], i);
    var heads' := if i == 0 then heads[j := h[s].next] else heads;
    var lists' := lists[j := Remove(lists[j], i)];
    ResizeLinked(h1, h2, heads', lists', y);
    FuseView(t, a, k, x, j, req);
    FuseLists(lists, v, w, x, j, req, s, i);
    UnlinkKeepsFields(h, lists[j], i);
    FuseHeaders(h, h2, v, w, top, x, j, req, s, y);
    FuseCanonical(t, a, k, x, j, req);
    FuseBytes(t, a, k, x, j, req);
    ListBytesOneLess(lists, j, Remove(lists[j], i));
  }

  predicate InArena(y: int, start: int, total: nat) { start <= y < start + total }

  lemma SiblingMeaning(t: Tree, a: nat, k: nat, total: nat, x: nat, j: nat)
    requires Fits(t, k) && Aligned(a, k) && Look(t, a, k, x).Block? && Look(t, a, k, x).order == j
    requires k <= MAX_ORDER && (total == Size(k) || (k == MAX_ORDER && total >= Size(k)))
    ensures j < k ==> Sibling(x, j) == Partner(a, k, x, j) && InArena(Sibling(x, j), a, total)
                      && Look(t, a, k, Sibling(x, j)).Block? && Look(t, a, k, Sibling(x, j)).order <= j
                      && Sibling(x, j) != x
    ensures j == k && j < MAX_ORDER ==> !InArena(Sibling(x, j), a, total)
  {
    if j < k {
      SiblingIsBlock(t, a, k, x);
      PartnerIsXor(t, a, k, x, j);
      SizeMonotone(k, k);
    } else if j < MAX_ORDER {
      SiblingOutside(a, k);
    }
  }

  datatype Info = Info(totalMemory: nat, usedMemory: int, freeMemory: nat, blockCount: nat, freeBlockCount: nat,
                       totalAllocated: nat, totalFreed: nat, currentBlocks: nat, memoryLeak: bool)

  lemma AllocatedIsLive(blocks: nat, bytes: nat, h: Heap)
    requires Counted(blocks, bytes, h)
    ensures bytes == Requested(h)
  {
  }

  ghost function SumSizes(h: Memory, l: seq<int>): nat
  {
    if l == [] then 0
    else SumSizes(h, l[..|l| - 1]) + if l[|l| - 1] in h then h[l[|l| - 1]].size else 0
  }

  ghost function FreePayload(h: Memory, lists: seq<seq<int>>, n: nat): nat
    requires n <= |lists|
  {
    if n == 0 then 0 else FreePayload(h, lists, n - 1) + SumSizes(h, lists[n - 1])
  }

  ghost function CountFree(lists: seq<seq<int>>, n: nat): nat
    requires n <= |lists|
  {
    if n == 0 then 0 else CountFree(lists, n - 1) + |lists[n - 1]|
  }

  lemma OneMoreTimes(n: nat, m: nat, s: nat)
    requires m == n + 1
    ensures m * s == n * s + s
  {
  }

  lemma {:induction false} SumOfEqualSizes(h: Memory, l: seq<int>, size: nat)
    requires forall i | 0 <= i < |l| :: l[i] in h && h[l[i]].size + HEADER == size
    ensures SumSizes(h, l) + HEADER * |l| == |l| * size
  {
    if l != [] {
      var n := |l| - 1;
      var m := l[..n];
      SumOfEqualSizes(h, m, size);
      OneMoreTimes(|m|, |l|, size);
      assert SumSizes(h, l) == SumSizes(h, m) + h[l[n]].size;
    }
  }

  /** Free payload plus one header for each free block is the free part of the arena, as far as it is tiled. */
  lemma {:induction false} PayloadPlusHeaders(h: Memory, lists: seq<seq<int>>, v: View, top: nat, n: nat)
    requires |lists| == MAX_ORDER + 1 && Lists(lists, v) && HeadersMatch(h, v, top, NULL) && n <= MAX_ORDER + 1
    ensures FreePayload(h, lists, n) + HEADER * CountFree(lists, n)
            == ListBytes(lists, n) + if n > MAX_ORDER then |lists[MAX_ORDER]| * top - |lists[MAX_ORDER]| * Size(MAX_ORDER) else 0
  {
    hide Lists, HeadersMatch, Size;
    if n > 0 {
      PayloadPlusHeaders(h, lists, v, top, n - 1);
      var l := lists[n - 1];
      var size := if n - 1 < MAX_ORDER then Size(n - 1) else top;
      ListedSizes(h, lists, v, top, n - 1);
      SumOfEqualSizes(h, l, size);
    }
  }

  lemma ListedSizes(h: Memory, lists: seq<seq<int>>, v: View, top: nat, j: nat)
    requires Lists(lists, v) && HeadersMatch(h, v, top, NULL) && j <= MAX_ORDER
    ensures forall i | 0 <= i < |lists[j]| ::
              lists[j][i] in h && h[lists[j][i]].size + HEADER == if j < MAX_ORDER then Size(j) else top
  {
    forall x | x in lists[j] ensures x in h && h[x].size + HEADER == if j < MAX_ORDER then Size(j) else top {
      assert v(x) == Block(j, true, 0);
      assert HeaderMatches(h, x, v(x), top, NULL);
    }
  }

  lemma TopList(lists: seq<seq<int>>, t: Tree, a: nat, k: nat)
    requires Fits(t, k) && k <= MAX_ORDER && Lists(lists, ViewOf(t, a, k))
    ensures |lists[MAX_ORDER]| == if k == MAX_ORDER && t.Free? then 1 else 0
  {
    var v, l := ViewOf(t, a, k), lists[MAX_ORDER];
    assert forall x :: x in l <==> v(x) == Block(MAX_ORDER, true, 0);
    if k == MAX_ORDER && t.Free? {
      OnlyElement(l, a, v, MAX_ORDER, k);
    } else if l != [] {
      assert l[0] in l && v(l[0]) == Block(MAX_ORDER, true, 0);
      WholeLeaf(t, a, k, l[0]);
    }
  }

  /**
   Total minus free payload is the bytes of used blocks and one header for each free
   block, and all that lies behind the top order, unless the arena is one free block
   whose header covers that as well.
   */
  lemma FiguresAddUp(h: Memory, heads: seq<int>, lists: seq<seq<int>>, t: Tree, a: nat, k: nat, total: nat, top: nat)
    requires Agree(h, heads, lists, t, a, k, top, NULL) && k <= MAX_ORDER && (total == Size(k) || k == MAX_ORDER)
    ensures total - FreePayload(h, lists, MAX_ORDER + 1)
            == UsedBytes(t, k) + HEADER * CountFree(lists, MAX_ORDER + 1)
               + (total - if k == MAX_ORDER && t.Free? then top else Size(k))
  {
    hide HeadersMatch, ListBytes, FreePayload;
    TopList(lists, t, a, k);
    PayloadPlusHeaders(h, lists, ViewOf(t, a, k), top, MAX_ORDER + 1);
    BytesConserved(t, k);
  }

  /** No block starts inside the payload of a block in use. */
  lemma PayloadHasNoHeader(t: Tree, a: nat, k: nat, x: int, at: int)
    requires Fits(t, k) && Look(t, a, k, x).Block?
    requires x + HEADER <= at < x + Size(Look(t, a, k, x).order)
    ensures Look(t, a, k, at) == NoBlock
  {
    if Look(t, a, k, at).Block? { BlocksDisjoint(t, a, k, x, at); }
  }

  lemma ScribbleHarmless(h: Memory, h': Memory, heads: seq<int>, lists: seq<seq<int>>, v: View, top: nat, at: int)
    requires Lists(lists, v) && AllLinked(h, heads, lists) && HeadersMatch(h, v, top, NULL)
    requires v(at) == NoBlock && h'.Keys == h.Keys + {at} && forall y | y in h && y != at :: h'[y] == h[y]
    ensures AllLinked(h', heads, lists) && HeadersMatch(h', v, top, NULL)
  {
    forall i | 0 <= i <= MAX_ORDER ensures Linked(h', heads[i], lists[i]) {
      assert at in lists[i] <==> v(at) == Block(i, true, 0);
      LinkedFrame(h, h', heads[i], lists[i]);
    }
    forall z ensures HeaderMatches(h', z, v(z), top, NULL) {
      assert HeaderMatches(h, z, v(z), top, NULL);
    }
  }

  lemma MarkedLeaf(t: Tree, a: nat, k: nat, x: int, leaf: Tree)
    requires Fits(t, k) && IsLeaf(leaf) && IsLeaf(t)
    ensures IsLeaf(Mark(t, a, k, x, leaf))
  {
  }

  /** Where the cursor of the unlinking loop points: a list head, or the link of a header. */
  datatype Cursor = Root | LinkOf(x: int)

  class Buddy {
    const freeBlocks: array<int>
    var headers: Memory
    const memoryStart: nat
    const totalSize: nat
    var currentBlocks: nat
    var totalAllocated: nat
    var totalFreed: nat
    ghost const k: nat
    ghost var tree: Tree
    ghost var lists: seq<seq<int>>
    ghost var split: bool

    /** What the header of a block of the top order says: the whole arena, until the first block is split. */
    ghost function Top(): nat
      reads this`split
    {
      if split then Size(MAX_ORDER) else totalSize
    }

    /** Everything but the two status fields of the block in hand agrees with the tree. */
    ghost predicate Consistent(hand: int)
      reads this`headers, this`tree, this`lists, this`split, freeBlocks
    {
      && freeBlocks.Length == MAX_ORDER + 1
      && memoryStart > 0 && k <= MAX_ORDER && Aligned(memoryStart, k)
      && (totalSize == Size(k) || (k == MAX_ORDER && totalSize >= Size(k)))
      && Fits(tree, k) && |lists| == MAX_ORDER + 1 && (!split ==> IsLeaf(tree))
      && Agree(headers, freeBlocks[..], lists, tree, memoryStart, k, Top(), hand)
    }

    ghost function TheView(): View
      requires Fits(tree, k)
      reads this`tree
    {
      ViewOf(tree, memoryStart, k)
    }

    ghost function TheHeap(): Heap
      requires Fits(tree, k)
      reads this`tree
    {
      HeapOf(TheView(), memoryStart, k)
    }

    ghost predicate Valid()
      reads this, freeBlocks
    {
      && Consistent(NULL)
      && OrdersFit(TheView(), NULL)
      && Counted(currentBlocks, totalAllocated, TheHeap())
    }

    /** get_order */
    method GetOrder(size: nat) returns (order: nat)
      ensures order == Order(size)
    {
      order := 0;
      var blockSize := MIN_BLOCK;
      while blockSize < size && order < MAX_ORDER
        invariant order <= MAX_ORDER && blockSize == Size(order)
        invariant OrderFrom(size, order) == Order(size)
        decreases MAX_ORDER - order
      {
        blockSize := blockSize * 2;
        order := order + 1;
      }
    }

    /** buddy_init: an aligned power-of-two arena, or any larger arena aligned to the top order. */
    constructor (start: nat, size: nat, ghost order: nat)
      requires start > 0 && order <= MAX_ORDER && Aligned(start, order)
      requires size == Size(order) || (order == MAX_ORDER && size >= Size(order))
      ensures Valid() && fresh(freeBlocks)
      ensures memoryStart == start && totalSize == size && k == order
      ensures tree == Tree.Free && !split && TheHeap() == map[] && totalFreed == 0
    {
      hide Agree, ViewOf, HeapOf, OrdersFit, Order, SizeField, Size, Requested;
      freeBlocks := new int[MAX_ORDER + 1];
      headers := map[start := Header(size - HEADER, 0, true, NULL)];
      memoryStart, totalSize, k := start, size, order;
      currentBlocks, totalAllocated, totalFreed := 0, 0, 0;
      tree, split := Tree.Free, false;
      lists := seq(MAX_ORDER + 1, i => if i == order then [start] else []);
      new;
      var i := 0;
      while i <= MAX_ORDER
        invariant 0 <= i <= MAX_ORDER + 1 && freeBlocks.Length == MAX_ORDER + 1
        invariant forall j | 0 <= j < i :: freeBlocks[j] == NULL
        modifies freeBlocks
      {
        freeBlocks[i] := NULL;
        i := i + 1;
      }
      assert Order(size - HEADER + HEADER) == order by { InitialOrder(size, order); }
      var o := GetOrder(size - HEADER + HEADER);
      freeBlocks[o] := start;
      InitAgrees(headers, freeBlocks[..], lists, start, order, size);
      InitialHeap(start, order);
    }

    /** A block of the given order is in hand; the other used blocks are those of v0. */
    ghost predicate Holding(v0: View, block: int, order: nat, req: nat)
      reads this`headers, this`tree, this`lists, this`split, freeBlocks
    {
      Consistent(block) && block > 0 && TheView()(block) == Block(order, false, req)
      && OthersKept(v0, TheView(), block, block)
    }

    /** Takes the first block of a free list into the hand. */
    method TakeHead(order: nat, ghost req: nat) returns (block: int)
      requires order <= MAX_ORDER
      requires Consistent(NULL) && freeBlocks[order] != NULL
      modifies this`tree, this`lists, freeBlocks
      ensures Holding(old(TheView()), block, order, req) && !UsedAt(old(TheView()), block)
      ensures old(lists)[order] != [] && block == old(lists)[order][0]
      ensures lists == old(lists)[order := old(lists)[order][1..]]
    {
      TakeAgrees(headers, freeBlocks[..], lists, tree, memoryStart, k, Top(), order, req);
      block := freeBlocks[order];
      ghost var heads := freeBlocks[..];
      freeBlocks[order] := headers[block].next;
      assert freeBlocks[..] == heads[order := headers[block].next];
      TakeHolds(tree, memoryStart, k, block, order, req);
      tree := Mark(tree, memoryStart, k, block, Used(req));
      lists := lists[order := lists[order][1..]];
    }

    /** One round of the splitting loop: the upper half of the block in hand goes to a free list. */
    method SplitHand(block: int, order: nat, ghost req: nat, ghost v0: View)
      requires order < MAX_ORDER && Holding(v0, block, order + 1, req)
      modifies this`headers, this`tree, this`lists, this`split, freeBlocks
      ensures Holding(v0, block, order, req) && split
      ensures lists == old(lists)[order := [block + Size(order)] + old(lists)[order]]
    {
      hide Agree, OthersKept, ViewOf, Halve, IsLeaf, Size, Aligned, Fits, Look;
      ghost var h, heads := headers, freeBlocks[..];
      HeaderInHand(h, heads, lists, tree, memoryStart, k, Top(), block);
      var splitSize := Size(order);
      var buddy := block + splitSize;
      headers := headers[buddy := Header(splitSize - HEADER, 0, true, freeBlocks[order])];
      freeBlocks[order] := buddy;
      headers := headers[block := headers[block].(size := splitSize - HEADER)];
      assert freeBlocks[..] == heads[order := buddy];
      SplitStep(h, headers, heads, lists, tree, memoryStart, k, totalSize, split, v0, block, order, req);
      split := true;
      tree := Halve(tree, memoryStart, k, block);
      lists := lists[order := [buddy] + lists[order]];
    }

    /** The search loop of buddy_malloc: the lowest non-empty list at or above an order. */
    method FindList(order: nat) returns (cur: nat)
      requires Consistent(NULL) && order <= MAX_ORDER
      ensures order <= cur <= MAX_ORDER + 1
      ensures forall j | order <= j < cur :: lists[j] == []
      ensures cur <= MAX_ORDER ==> freeBlocks[cur] != NULL && lists[cur] != []
    {
      hide HeadersMatch, ListBytes, FreeBytes, Lists, ViewOf, Canonical, Fits, Aligned, IsLeaf, Size;
      cur := order;
      while cur <= MAX_ORDER && freeBlocks[cur] == NULL
        invariant order <= cur <= MAX_ORDER + 1
        invariant forall j | order <= j < cur :: lists[j] == []
      {
        assert Linked(headers, freeBlocks[..][cur], lists[cur]);
        cur := cur + 1;
      }
      if cur <= MAX_ORDER { assert Linked(headers, freeBlocks[..][cur], lists[cur]); }
    }

    /** Takes a block off a list and splits it down to the order asked for. */
    method Carve(from: nat, order: nat, ghost req: nat) returns (block: int)
      requires Consistent(NULL) && order <= from <= MAX_ORDER && freeBlocks[from] != NULL
      modifies this`headers, this`tree, this`lists, this`split, freeBlocks
      ensures Holding(old(TheView()), block, order, req) && !UsedAt(old(TheView()), block)
      ensures old(lists)[from] != [] && block == old(lists)[from][0]
      ensures split <==> old(split) || from > order
      ensures lists == TakeDown(old(lists)[from := old(lists)[from][1..]], block, order, from)
    {
      hide Agree, OthersKept, ViewOf, Holding, UsedAt, Size, Aligned, IsLeaf;
      ghost var v0 := TheView();
      block := TakeHead(from, req);
      ghost var start := lists;
      var cur := from;
      while cur > order
        invariant order <= cur <= from && |lists| == MAX_ORDER + 1
        invariant Holding(v0, block, cur, req)
        invariant TakeDown(lists, block, order, cur) == TakeDown(start, block, order, from)
        invariant split <==> old(split) || cur < from
        modifies this`headers, this`tree, this`lists, this`split, freeBlocks
      {
        cur := cur - 1;
        SplitHand(block, cur, req, v0);
      }
    }

    /** Writes the status fields of the block in hand and lets it go. */
    method Grant(block: int, ghost order: nat, size: nat, ghost v0: View)
      requires Holding(v0, block, order, size)
      modifies this`headers
      ensures Consistent(NULL) && block > 0
      ensures OthersKept(v0, TheView(), block, block) && BlockAt(TheView(), block) == Block(order, false, size)
    {
      ghost var h := headers;
      HeaderOf(headers, freeBlocks[..], lists, tree, memoryStart, k, Top(), block, block);
      headers := headers[block := headers[block].(isFree := false)];
      headers := headers[block := headers[block].(userSize := size)];
      headers := headers[block := headers[block].(next := NULL)];
      HandAgrees(h, headers, freeBlocks[..], lists, tree, memoryStart, k, Top(), block, block, NULL);
    }

    method Charge(size: nat)
      modifies this`currentBlocks, this`totalAllocated
      ensures currentBlocks == old(currentBlocks) + 1 && totalAllocated == old(totalAllocated) + size
    {
      currentBlocks := currentBlocks + 1;
      totalAllocated := totalAllocated + size;
    }

    method Refund(size: nat)
      requires currentBlocks >= 1
      modifies this`currentBlocks, this`totalAllocated, this`totalFreed
      ensures currentBlocks == old(currentBlocks) - 1 && totalFreed == old(totalFreed) + size
      ensures totalAllocated == if old(totalAllocated) >= size then old(totalAllocated) - size else old(totalAllocated)
    {
      if totalAllocated >= size { totalAllocated := totalAllocated - size; }
      totalFreed := totalFreed + size;
      currentBlocks := currentBlocks - 1;
    }

    /** buddy_malloc.  The addition of the header wraps, as it does on a machine word. */
    method Malloc(size: nat) returns (p: int)
      requires Valid() && size < WORD
      modifies this`headers, this`tree, this`lists, this`split, this`currentBlocks, this`totalAllocated, freeBlocks
      ensures Valid()
      ensures MallocStep(old(TheHeap()), size, p, TheHeap())
      ensures var o := RequestOrder(size);
              p == NULL <==> size == 0 || forall j | o <= j <= MAX_ORDER :: old(lists)[j] == []
      ensures var o := RequestOrder(size);
              p != NULL ==> exists c | o <= c <= MAX_ORDER ::
                old(lists)[c] != [] && (forall j | o <= j < c :: old(lists)[j] == [])
                && p == old(lists)[c][0] + HEADER
                && lists == TakeDown(old(lists)[c := old(lists)[c][1..]], p - HEADER, o, c)
      ensures split <==> old(split) || (p != NULL && old(lists)[RequestOrder(size)] == [])
      ensures p != NULL ==> (size <= TheHeap()[p].cap <==> size + 32 <= 262144)
      ensures p != NULL ==> TheHeap()[p].cap == 32 || TheHeap()[p].cap + 32 < 2 * (size + 32)
    {
      hide Agree, OthersKept, HeapOf, Counted, Separate, InRange, OrdersFit, UsedAt, RegionAt, Order, TakeDown, ViewOf, Size,
           Holding, BlockAt, ClearOf, Aligned, IsLeaf, MallocStep, Fits;
      p := NULL;
      NoMalloc(TheHeap(), size);
      if size == 0 { return; }
      var order := GetOrder((size + HEADER) % WORD);
      var cur := FindList(order);
      if cur > MAX_ORDER { return; }
      p := Serve(cur, order, size);
      OrderBounds(size, order);
      TopSize();
    }

    /** The first block of the list comes down to the order asked for and is granted. */
    method Serve(from: nat, order: nat, size: nat) returns (p: int)
      requires Valid() && 0 < size < WORD && order == RequestOrder(size) && order <= from <= MAX_ORDER && freeBlocks[from] != NULL
      modifies this`headers, this`tree, this`lists, this`split, this`currentBlocks, this`totalAllocated, freeBlocks
      ensures Valid() && MallocStep(old(TheHeap()), size, p, TheHeap())
      ensures old(lists)[from] != [] && p == old(lists)[from][0] + HEADER && p != NULL
      ensures lists == TakeDown(old(lists)[from := old(lists)[from][1..]], p - HEADER, order, from)
      ensures split <==> old(split) || from > order
      ensures p in TheHeap() && TheHeap()[p] == Region(size, Size(order) - HEADER)
    {
      hide Agree, OthersKept, HeapOf, Counted, Separate, InRange, OrdersFit, UsedAt, RegionAt, Order, TakeDown, ViewOf, Size,
           Holding, BlockAt, ClearOf, Aligned, IsLeaf, MallocStep, Fits;
      ghost var v0, h0 := TheView(), TheHeap();
      var block := Carve(from, order, size);
      Grant(block, order, size, v0);
      HeapAfterGrant(v0, TheView(), memoryStart, k, block, order, size);
      CountedAfterMalloc(currentBlocks, totalAllocated, h0, block + HEADER, Region(size, Size(order) - HEADER));
      Charge(size);
      p := block + HEADER;
      HeapSeparate(tree, memoryStart, k);
      MallocStepFor(h0, size, p, TheHeap());
    }

    /** A block on its way back to the lists: in hand, marked free, not yet on any list. */
    ghost predicate Returning(v0: View, x0: int, block: int, order: nat, req: nat)
      reads this`headers, this`tree, this`lists, this`split, freeBlocks
    {
      Consistent(block) && block > 0 && TheView()(block) == Block(order, false, req)
      && block in headers && headers[block].isFree && headers[block].userSize == 0
      && OthersKept(v0, TheView(), x0, block) && (block != x0 ==> !UsedAt(v0, block))
    }

    function Deref(c: Cursor, order: nat): int
      requires freeBlocks.Length == MAX_ORDER + 1 && order <= MAX_ORDER && (c.LinkOf? ==> c.x in headers)
      reads this`headers, freeBlocks
    {
      match c
      case Root => freeBlocks[order]
      case LinkOf(x) => headers[x].next
    }

    /** The search through a free list for a block, by the address of the link that names it. */
    method FindLink(order: nat, buddy: int) returns (c: Cursor, ghost i: nat, found: bool)
      requires freeBlocks.Length == MAX_ORDER + 1 && |lists| == MAX_ORDER + 1 && order <= MAX_ORDER && buddy != NULL
      requires Linked(headers, freeBlocks[order], lists[order])
      ensures found <==> buddy in lists[order]
      ensures found ==> i < |lists[order]| && i == IndexOf(lists[order], buddy)
                        && (i > 0 ==> lists[order][i - 1] in headers)
                        && c == if i == 0 then Root else LinkOf(lists[order][i - 1])
    {
      c, i, found := Root, 0, false;
      ghost var l := lists[order];
      while Deref(c, order) != NULL
        invariant i <= |l| && !found && buddy !in l[..i]
        invariant i > 0 ==> l[i - 1] in headers
        invariant c == if i == 0 then Root else LinkOf(l[i - 1])
        invariant Deref(c, order) == At(l, i)
        decreases |l| - i
      {
        if Deref(c, order) == buddy {
          found := true;
          break;
        }
        c := LinkOf(Deref(c, order));
        i := i + 1;
      }
    }

    method WriteLink(c: Cursor, order: nat, link: int)
      requires freeBlocks.Length == MAX_ORDER + 1 && order <= MAX_ORDER && (c.LinkOf? ==> c.x in headers)
      modifies this`headers, freeBlocks
      ensures freeBlocks[..] == if c.Root? then old(freeBlocks[..])[order := link] else old(freeBlocks[..])
      ensures headers == if c.Root? then old(headers) else old(headers)[c.x := old(headers)[c.x].(next := link)]
    {
      match c {
        case Root => freeBlocks[order] := link;
        case LinkOf(x) => headers := headers[x := headers[x].(next := link)];
      }
    }

    /** One round of the merging loop, once the sibling has been seen to be free and of the same size. */
    method Merge(block: int, order: nat, buddy: int, ghost v0: View, ghost x0: int, ghost req: nat)
      returns (found: bool, joined: int)
      requires order < MAX_ORDER && Returning(v0, x0, block, order, req)
      requires buddy == Sibling(block, order) && InArena(buddy, memoryStart, totalSize)
      requires buddy in headers && headers[buddy].isFree && headers[buddy].size == headers[block].size
      modifies this`headers, this`tree, this`lists, freeBlocks
      ensures found && joined == if buddy < block then buddy else block
      ensures Returning(v0, x0, joined, order + 1, req)
      ensures buddy in old(lists)[order]
      ensures lists == old(lists)[order := Remove(old(lists)[order], IndexOf(old(lists)[order], buddy))]
    {
      hide Agree, OthersKept, IndexOf, Remove, Sibling, Partner, Look, Fuse, Linked, Aligned, Size, IsLeaf, UsedAt;
      ghost var h, heads := headers, freeBlocks[..];
      BuddyCheck(h, heads, lists, tree, memoryStart, k, totalSize, Top(), block, order, req);
      var c;
      ghost var i;
      c, i, found := FindLink(order, buddy);
      if !found { return false, block; }
      WriteLink(c, order, headers[buddy].next);
      joined := block;
      if buddy < block { joined := buddy; }
      UnlinkKeepsFields(h, lists[order], i);
      assert Size(order + 1) == 2 * Size(order) by { SizeDoubles(order); }
      headers := headers[joined := headers[joined].(size := 2 * (headers[block].size + HEADER) - HEADER)];
      FuseAgrees(h, headers, heads, lists, tree, memoryStart, k, Top(), block, order, req, buddy, i, joined);
      FuseHolds(v0, tree, memoryStart, k, x0, block, order, req);
      tree := Fuse(tree, memoryStart, k, block);
      lists := lists[order := Remove(lists[order], i)];
    }

    /** Puts the block in hand on its free list. */
    method PushHand(block: int, order: nat, ghost v0: View, ghost x0: int, ghost req: nat)
      requires order <= MAX_ORDER && Returning(v0, x0, block, order, req)
      requires order < MAX_ORDER ==> Sibling(block, order) !in lists[order]
      modifies this`headers, this`tree, this`lists, freeBlocks
      ensures Consistent(NULL)
      ensures lists == old(lists)[order := [block] + old(lists)[order]]
      ensures OthersKept(v0, TheView(), x0, block) && !UsedAt(TheView(), block) && (block != x0 ==> !UsedAt(v0, block))
    {
      hide Agree, OthersKept, Sibling, Partner, Look, Mark, Linked, Aligned, Size;
      NotPartner(lists, tree, memoryStart, k, Top(), headers, freeBlocks[..], block, order, req);
      PushAgrees(headers, freeBlocks[..], lists, tree, memoryStart, k, Top(), block, order, req);
      PushHolds(v0, tree, memoryStart, k, x0, block, order, req);
      if !split { MarkedLeaf(tree, memoryStart, k, block, Tree.Free); }
      ghost var heads := freeBlocks[..];
      headers := headers[block := headers[block].(next := freeBlocks[order])];
      freeBlocks[order] := block;
      assert freeBlocks[..] == heads[order := block];
      tree := Mark(tree, memoryStart, k, block, Tree.Free);
      lists := lists[order := [block] + lists[order]];
    }

    /** Marks a used block free and takes it in hand. */
    method TakeBack(block: int, ghost order: nat, ghost req: nat) returns (freed: nat)
      requires Consistent(NULL) && block > 0 && BlockAt(TheView(), block) == Block(order, false, req)
      modifies this`headers
      ensures Returning(TheView(), block, block, order, req) && freed == req
      ensures TheView() == old(TheView()) && lists == old(lists)
      ensures block in headers && SizeField(headers[block].size, order, Top())
    {
      hide Agree, Look, Linked, Aligned, Size;
      ghost var h := headers;
      HeaderOf(headers, freeBlocks[..], lists, tree, memoryStart, k, Top(), block, NULL);
      freed := headers[block].userSize;
      headers := headers[block := headers[block].(isFree := true)];
      headers := headers[block := headers[block].(userSize := 0)];
      HandAgrees(h, headers, freeBlocks[..], lists, tree, memoryStart, k, Top(), block, NULL, block);
    }

    /** The merging loop of buddy_free: absorb free siblings of the same order, then push. */
    method GiveBackBlock(first: int, firstOrder: nat, ghost req: nat, ghost v0: View)
      returns (ghost last: int)
      requires firstOrder <= MAX_ORDER && Returning(v0, first, first, firstOrder, req)
      modifies this`headers, this`tree, this`lists, freeBlocks
      ensures Consistent(NULL)
      ensures lists == GiveBack(old(lists), first, firstOrder)
      ensures OthersKept(v0, TheView(), first, last) && !UsedAt(TheView(), last) && (last != first ==> !UsedAt(v0, last))
    {
      hide Agree, OthersKept, Sibling, Xor, Partner, Look, Mark, Fuse, Linked, Aligned, Size, IndexOf, Remove;
      ghost var lists0 := lists;
      var block, order := first, firstOrder;
      while order < MAX_ORDER
        invariant order <= MAX_ORDER && Returning(v0, first, block, order, req)
        invariant GiveBack(lists, block, order) == GiveBack(lists0, first, firstOrder)
        decreases MAX_ORDER - order
        modifies this`headers, this`tree, this`lists, freeBlocks
      {
        var mergeBytes := Size(order);
        var buddy := Xor(block, mergeBytes);
        assert buddy == Sibling(block, order) by { SiblingIsXor(block, order); }
        BuddyCheck(headers, freeBlocks[..], lists, tree, memoryStart, k, totalSize, Top(), block, order, req);
        if buddy < memoryStart || buddy >= memoryStart + totalSize { break; }
        if !headers[buddy].isFree || headers[buddy].size != headers[block].size { break; }
        var found, joined := Merge(block, order, buddy, v0, first, req);
        if !found { break; }
        block := joined;
        order := order + 1;
      }
      PushHand(block, order, v0, first, req);
      last := block;
    }

    /** Takes a block in use back and merges it; the counters are not touched. */
    method ReturnBlock(block: int, ghost order0: nat, ghost req: nat) returns (freed: nat, ghost last: int)
      requires Consistent(NULL) && block > 0 && BlockAt(TheView(), block) == Block(order0, false, req)
      modifies this`headers, this`tree, this`lists, freeBlocks
      ensures Consistent(NULL) && freed == req
      ensures lists == GiveBack(old(lists), block, order0)
      ensures OthersKept(old(TheView()), TheView(), block, last) && !UsedAt(TheView(), last)
      ensures last != block ==> !UsedAt(old(TheView()), last)
    {
      hide Agree, OthersKept, UsedAt, ViewOf, Size, Order, GiveBack, Aligned, SizeField, Returning, BlockAt, Fits, Look, IsLeaf;
      ghost var v0 := TheView();
      freed := TakeBack(block, order0, req);
      SizeFieldOrder(headers[block].size, order0, Top());
      var order := GetOrder(headers[block].size + HEADER);
      last := GiveBackBlock(block, order, req, v0);
    }

    /** buddy_free, for a null pointer or the payload address of a block in use. */
    method Free(p: int) returns (freed: nat)
      requires Valid() && (p == NULL || p in TheHeap())
      modifies this`headers, this`tree, this`lists, this`currentBlocks, this`totalAllocated, this`totalFreed, freeBlocks
      ensures Valid()
      ensures FreeStep(old(TheHeap()), p, freed, TheHeap())
      ensures totalFreed == old(totalFreed) + freed
      ensures p == NULL ==> lists == old(lists)
      ensures p != NULL ==> lists == GiveBack(old(lists), p - HEADER, RequestOrder(freed))
      ensures p != NULL ==> ReleasedOnTop(old(lists), p - 32, RequestOrder(freed), lists)
    {
      hide Agree, OthersKept, HeapOf, Counted, RegionAt, UsedPayload, UsedAt, ViewOf, Size, Order, GiveBack, Aligned,
           SizeField, InRange, OrdersFit, RequestOrder, FreeStep, Returning, BlockAt, Fits, Separate, Xor, Look, Canonical,
           ReleasedOnTop;
      if p == NULL { NullNotInHeap(TheView(), memoryStart, k); FreeStepFor(TheHeap(), p, 0, TheHeap()); return 0; }
      var block := p - HEADER;
      ghost var v0, h0 := TheView(), TheHeap();
      HeapEntry(v0, memoryStart, k, p);
      ghost var order0, req := BlockAt(v0, block).order, BlockAt(v0, block).req;
      CountedAtLeast(currentBlocks, totalAllocated, h0, p);
      ViewAligned(tree, memoryStart, k, block);
      ghost var last;
      freed, last := ReturnBlock(block, order0, req);
      Refund(freed);
      HeapAfterReturn(v0, TheView(), memoryStart, k, block, last, p, freed, old(currentBlocks), old(totalAllocated));
      OnTopReleased(old(lists), block, order0);
    }

    /** A program writing through a payload pointer: any header-sized word that lies in the payload may change. */
    method WritePayload(p: int, at: int, value: Header)
      requires Valid() && p in TheHeap() && p <= at < p + TheHeap()[p].cap
      modifies this`headers
      ensures Valid() && TheHeap() == old(TheHeap()) && lists == old(lists)
    {
      hide HeapOf, Counted, OrdersFit, Lists, ListBytes, FreeBytes, Size, Aligned, Canonical, Fits;
      HeapEntry(TheView(), memoryStart, k, p);
      PayloadHasNoHeader(tree, memoryStart, k, p - HEADER, at);
      ghost var h := headers;
      headers := headers[at := value];
      ScribbleHarmless(h, headers, freeBlocks[..], lists, TheView(), Top(), at);
    }

    /** buddy_get_info, less the memory_leak flag. */
    method GetInfo() returns (info: Info)
      requires Valid()
      ensures info.totalMemory == totalSize && info.currentBlocks == currentBlocks
      ensures info.totalAllocated == totalAllocated && info.totalFreed == totalFreed
      ensures info.freeBlockCount == CountFree(lists, MAX_ORDER + 1)
      ensures info.freeMemory == FreePayload(headers, lists, MAX_ORDER + 1)
      ensures info.usedMemory == totalSize - info.freeMemory
      ensures info.blockCount == info.freeBlockCount + currentBlocks
      ensures info.usedMemory == UsedBytes(tree, k) + HEADER * info.freeBlockCount
                                 + if !split && tree.Free? then 0 else totalSize - Size(k)
      ensures info.memoryLeak <==> Requested(TheHeap()) != totalFreed
    {
      hide HeadersMatch, Lists, ListBytes, FreeBytes, UsedBytes, Counted, OrdersFit, Canonical, Fits, Size;
      var freeMemory, freeCount, i := 0, 0, 0;
      while i <= MAX_ORDER
        invariant 0 <= i <= MAX_ORDER + 1
        invariant freeMemory == FreePayload(headers, lists, i) && freeCount == CountFree(lists, i)
      {
        ghost var l, n := lists[i], 0;
        assert Linked(headers, freeBlocks[..][i], l);
        var cur := freeBlocks[i];
        while cur != NULL
          invariant 0 <= n <= |l| && cur == At(l, n)
          invariant freeMemory == FreePayload(headers, lists, i) + SumSizes(headers, l[..n])
          invariant freeCount == CountFree(lists, i) + n
          decreases |l| - n
        {
          assert l[..n + 1][..n] == l[..n];
          freeMemory := freeMemory + headers[cur].size;
          freeCount := freeCount + 1;
          cur := headers[cur].next;
          n := n + 1;
        }
        assert l[..n] == l;
        i := i + 1;
      }
      FiguresAddUp(headers, freeBlocks[..], lists, tree, memoryStart, k, totalSize, Top());
      info := Info(totalSize, totalSize - freeMemory, freeMemory, freeCount + currentBlocks, freeCount,
                   totalAllocated, totalFreed, currentBlocks, totalAllocated != totalFreed);
      AllocatedIsLive(currentBlocks, totalAllocated, TheHeap());
    }
  }

  lemma SizeDoubles(j: nat)
    ensures Size(j + 1) == 2 * Size(j)
  {
  }

  lemma ListLinked(h: Memory, heads: seq<int>, lists: seq<seq<int>>, j: nat)
    requires AllLinked(h, heads, lists) && j <= MAX_ORDER
    ensures Linked(h, heads[j], lists[j])
  {
  }

  lemma SiblingIsXor(x: nat, j: nat)
    ensures Sibling(x, j) == Xor(x, Size(j))
  {
  }

  lemma ViewAligned(t: Tree, a: nat, k: nat, x: int)
    requires Fits(t, k) && Aligned(a, k) && k <= MAX_ORDER && UsedAt(ViewOf(t, a, k), x)
    ensures x >= 0 && Aligned(x, BlockAt(ViewOf(t, a, k), x).order) && BlockAt(ViewOf(t, a, k), x).order <= 12
  {
    BlocksAligned(t, a, k, x);
    BlockOrder(t, a, k, x);
  }

  lemma {:induction false} BlockOrder(t: Tree, a: nat, k: nat, x: int)
    requires Fits(t, k) && Look(t, a, k, x).Block?
    ensures Look(t, a, k, x).order <= k
    decreases t
  {
    if t.Split? {
      var mid := a + Size(k - 1);
      if x < mid { BlockOrder(t.lo, a, k - 1, x); } else { BlockOrder(t.hi, mid, k - 1, x); }
    }
  }

  lemma HeapEntry(v: View, a: nat, k: nat, p: int)
    requires InRange(v, a, k) && p in HeapOf(v, a, k)
    ensures UsedAt(v, p - HEADER) && a <= p - HEADER
    ensures var b := BlockAt(v, p - HEADER); b == Block(b.order, false, b.req) && HeapOf(v, a, k)[p].req == b.req
  {
    assert UsedPayload(v, p);
  }

  /** What one block handed back does to the heap as callers see it. */
  lemma HeapAfterReturn(v0: View, w: View, a: nat, k: nat, x: int, last: int, p: int, freed: nat, blocks: nat, bytes: nat)
    requires InRange(v0, a, k) && InRange(w, a, k) && OrdersFit(v0, NULL) && p == x + HEADER && x != NULL
    requires OthersKept(v0, w, x, last) && !UsedAt(w, last) && (last != x ==> !UsedAt(v0, last))
    requires UsedAt(v0, x) && freed == BlockAt(v0, x).req && Counted(blocks, bytes, HeapOf(v0, a, k))
    ensures OrdersFit(w, NULL) && BlockAt(v0, x).order == RequestOrder(freed)
    ensures FreeStep(HeapOf(v0, a, k), p, freed, HeapOf(w, a, k))
    ensures blocks >= 1 && bytes >= freed && Counted(blocks - 1, bytes - freed, HeapOf(w, a, k))
  {
    assert UsedPayload(v0, p);
    HeapAfterFree(v0, w, a, k, x, last, p);
    OrdersAfterFree(v0, w, x, last);
    CountedAfterFree(blocks, bytes, HeapOf(v0, a, k), p);
  }

  lemma NullNotInHeap(v: View, a: nat, k: nat)
    requires InRange(v, a, k) && a > 0
    ensures NULL !in HeapOf(v, a, k)
  {
    assert UsedPayload(v, NULL) ==> UsedAt(v, NULL - HEADER);
  }

  lemma OrdersAfterFree(v0: View, w: View, x0: int, last: int)
    requires OrdersFit(v0, NULL) && OthersKept(v0, w, x0, last) && !UsedAt(w, last)
    ensures OrdersFit(w, NULL)
  {
    forall z | UsedAt(w, z) && z != NULL ensures w(z).req > 0 && w(z).order == RequestOrder(w(z).req) {
      assert z != last && UsedAt(v0, z) && w(z) == v0(z);
    }
  }

  lemma NotPartner(lists: seq<seq<int>>, t: Tree, a: nat, k: nat, top: nat, h: Memory, heads: seq<int>,
                   x: nat, j: nat, req: nat)
    requires Agree(h, heads, lists, t, a, k, top, x) && j <= MAX_ORDER && Look(t, a, k, x) == Block(j, false, req)
    requires Aligned(a, k) && k <= MAX_ORDER
    requires j < MAX_ORDER ==> Sibling(x, j) !in lists[j]
    ensures j < k ==> Look(t, a, k, Partner(a, k, x, j)) != Block(j, true, 0)
  {
    if j < k {
      PartnerIsXor(t, a, k, x, j);
      var s := Partner(a, k, x, j);
      assert s in lists[j] <==> ViewOf(t, a, k)(s) == Block(j, true, 0);
    }
  }

  lemma PushHolds(v0: View, t: Tree, a: nat, k: nat, x0: int, x: nat, j: nat, req: nat)
    requires Fits(t, k) && Look(t, a, k, x) == Block(j, false, req)
    requires OthersKept(v0, ViewOf(t, a, k), x0, x)
    ensures var w := ViewOf(Mark(t, a, k, x, Free), a, k);
            OthersKept(v0, w, x0, x) && !UsedAt(w, x)
  {
    MarkView(t, a, k, x, Free);
    OthersAfterMark(v0, ViewOf(t, a, k), ViewOf(Mark(t, a, k, x, Free), a, k), x0, x, Block(j, true, 0));
  }

  lemma OthersAfterMark(v0: View, v: View, w: View, x0: int, x: int, b: Block)
    requires OthersKept(v0, v, x0, x) && MarkedView(v, w, x, b)
    ensures OthersKept(v0, w, x0, x)
  {
    forall z | z != x ensures (UsedAt(w, z) <==> z != x0 && UsedAt(v0, z)) && (UsedAt(w, z) ==> w(z) == v0(z)) {
      assert UsedAt(v, z) <==> z != x0 && UsedAt(v0, z);
    }
  }

  /** What the header at the sibling address tells about the sibling. */
  lemma BuddyCheck(h: Memory, heads: seq<int>, lists: seq<seq<int>>, t: Tree, a: nat, k: nat, total: nat, top: nat,
                   x: nat, j: nat, req: nat)
    requires Agree(h, heads, lists, t, a, k, top, x) && j < MAX_ORDER && Look(t, a, k, x) == Block(j, false, req)
    requires Aligned(a, k) && k <= MAX_ORDER && (total == Size(k) || (k == MAX_ORDER && total >= Size(k)))
    ensures var s := Sibling(x, j);
            x in h && h[x].size + HEADER == Size(j) && Linked(h, heads[j], lists[j])
            && (s in lists[j] ==> InArena(s, a, total))
            && (InArena(s, a, total) ==>
                  && s in h && j < k && !IsLeaf(t) && s == Partner(a, k, x, j) && s > 0
                  && (s in lists[j] <==> h[s].isFree && h[s].size == h[x].size)
                  && (s in lists[j] ==> Fusible(t, a, k, x, j, req) && h[s].userSize == 0))
  {
    ListLinked(h, heads, lists, j);
    hide Sibling, Look, Size, Partner, Aligned, HeadersMatch, AllLinked;
    var s := Sibling(x, j);
    TopSize();
    SiblingMeaning(t, a, k, total, x, j);
    HeaderOf(h, heads, lists, t, a, k, top, x, x);
    var v := ViewOf(t, a, k);
    assert s in lists[j] <==> v(s) == Block(j, true, 0);
    if j < k {
      var b := Look(t, a, k, s);
      HeaderOf(h, heads, lists, t, a, k, top, s, x);
      if b.free { FreeHasNoRequest(t, a, k, s); }
      SizeFieldInjective(h[s].size, b.order, h[x].size, j, top);
    } else {
      SizeMonotone(k, k);
    }
  }

  lemma FuseHolds(v0: View, t: Tree, a: nat, k: nat, x0: int, x: nat, j: nat, req: nat)
    requires Fits(t, k) && Fusible(t, a, k, x, j, req)
    requires OthersKept(v0, ViewOf(t, a, k), x0, x) && (x != x0 ==> !UsedAt(v0, x))
    ensures var s := Partner(a, k, x, j); var w := ViewOf(Fuse(t, a, k, x), a, k); var y := if s < x then s else x;
            OthersKept(v0, w, x0, y) && w(y) == Block(j + 1, false, req)
            && (y != x0 ==> !UsedAt(v0, y))
  {
    FuseView(t, a, k, x, j, req);
    OthersAfterFuse(v0, ViewOf(t, a, k), ViewOf(Fuse(t, a, k, x), a, k), x0, x, Partner(a, k, x, j), j, req);
  }

  lemma OthersAfterFuse(v0: View, v: View, w: View, x0: int, x: int, s: int, j: nat, req: nat)
    requires OthersKept(v0, v, x0, x) && (x != x0 ==> !UsedAt(v0, x))
    requires v(s) == Block(j, true, 0) && s != x && FusedView(v, w, x, s, j, req)
    ensures var y := if s < x then s else x; OthersKept(v0, w, x0, y) && (y != x0 ==> !UsedAt(v0, y))
  {
    var y := if s < x then s else x;
    forall z | z != y ensures (UsedAt(w, z) <==> z != x0 && UsedAt(v0, z)) && (UsedAt(w, z) ==> w(z) == v0(z)) {
      assert z != x ==> (UsedAt(v, z) <==> z != x0 && UsedAt(v0, z));
    }
    assert s != x && (UsedAt(v, s) <==> s != x0 && UsedAt(v0, s));
  }

  lemma TakeHolds(t: Tree, a: nat, k: nat, x: int, order: nat, req: nat)
    requires Fits(t, k) && Look(t, a, k, x) == Block(order, true, 0)
    ensures var v, w := ViewOf(t, a, k), ViewOf(Mark(t, a, k, x, Used(req)), a, k);
            OthersKept(v, w, x, x) && w(x) == Block(order, false, req)
  {
    MarkView(t, a, k, x, Used(req));
  }

  lemma SplitHolds(v0: View, t: Tree, a: nat, k: nat, x: int, c: nat, req: nat)
    requires Fits(t, k) && Look(t, a, k, x) == Block(c + 1, false, req)
    requires OthersKept(v0, ViewOf(t, a, k), x, x)
    ensures var w := ViewOf(Halve(t, a, k, x), a, k);
            OthersKept(v0, w, x, x) && w(x) == Block(c, false, req)
  {
    HalveView(t, a, k, x, c, req);
    OthersAfterHalve(v0, ViewOf(t, a, k), ViewOf(Halve(t, a, k, x), a, k), x, c, req);
  }

  lemma HeaderInHand(h: Memory, heads: seq<int>, lists: seq<seq<int>>, t: Tree, a: nat, k: nat, top: nat, x: int)
    requires Agree(h, heads, lists, t, a, k, top, x) && ViewOf(t, a, k)(x).Block?
    ensures x in h
  {
    HeaderOf(h, heads, lists, t, a, k, top, x, x);
  }

  lemma AgreeShape(h: Memory, heads: seq<int>, lists: seq<seq<int>>, t: Tree, a: nat, k: nat, top: nat, hand: int)
    requires Agree(h, heads, lists, t, a, k, top, hand)
    ensures Fits(t, k) && |heads| == |lists| == MAX_ORDER + 1
  {
  }

  /** One split, with what it makes of the headers, of the lists and of the other blocks. */
  lemma SplitStep(h: Memory, h': Memory, heads: seq<int>, lists: seq<seq<int>>, t: Tree, a: nat, k: nat,
                  total: nat, split: bool, v0: View, x: int, c: nat, req: nat)
    requires Agree(h, heads, lists, t, a, k, if split then Size(MAX_ORDER) else total, x) && c < MAX_ORDER
    requires k <= MAX_ORDER && (!split ==> IsLeaf(t)) && x in h
    requires ViewOf(t, a, k)(x) == Block(c + 1, false, req) && OthersKept(v0, ViewOf(t, a, k), x, x)
    requires h' == h[x + Size(c) := Header(Size(c) - HEADER, 0, true, heads[c])][x := h[x].(size := Size(c) - HEADER)]
    ensures Look(t, a, k, x) == Block(c + 1, false, req)
    ensures var u, b := Halve(t, a, k, x), x + Size(c);
            && Agree(h', heads[c := b], lists[c := [b] + lists[c]], u, a, k, Size(MAX_ORDER), x)
            && OthersKept(v0, ViewOf(u, a, k), x, x) && ViewOf(u, a, k)(x) == Block(c, false, req)
  {
    hide OthersKept, Agree, Halve, Size;
    AgreeShape(h, heads, lists, t, a, k, if split then Size(MAX_ORDER) else total, x);
    var top, b := if split then Size(MAX_ORDER) else total, x + Size(c);
    SplitAgrees(h, h', heads, lists, t, a, k, top, x, b, c, req);
    SplitHolds(v0, t, a, k, x, c, req);
    if !split { FirstSplit(h', heads[c := b], lists[c := [b] + lists[c]], t, a, k, top, x, c, req); }
  }

  lemma OthersAfterHalve(v0: View, v: View, w: View, x: int, c: nat, req: nat)
    requires OthersKept(v0, v, x, x) && v(x + Size(c)) == NoBlock && HalvedView(v, w, x, c, req)
    ensures OthersKept(v0, w, x, x)
  {
    forall z | z != x ensures (UsedAt(w, z) <==> UsedAt(v0, z)) && (UsedAt(w, z) ==> w(z) == v0(z)) {
      assert UsedAt(v, z) <==> UsedAt(v0, z);
    }
  }

  /** What one granted block does to the heap as callers see it. */
  lemma HeapAfterGrant(v0: View, w: View, a: nat, k: nat, x: int, o: nat, req: nat)
    requires InRange(v0, a, k) && InRange(w, a, k) && OrdersFit(v0, NULL) && a > 0
    requires !UsedAt(v0, x) && OthersKept(v0, w, x, x)
    requires BlockAt(w, x) == Block(o, false, req) && req > 0 && o == RequestOrder(req)
    ensures OrdersFit(w, NULL)
    ensures x + HEADER !in HeapOf(v0, a, k)
    ensures HeapOf(w, a, k) == HeapOf(v0, a, k)[x + HEADER := Region(req, Size(o) - HEADER)]
  {
    HeapAfterMalloc(v0, w, a, k, x);
    forall z | UsedAt(w, z) && z != NULL ensures w(z).req > 0 && w(z).order == RequestOrder(w(z).req) {
      if z != x { assert UsedAt(v0, z) && w(z) == v0(z); }
    }
  }

  /** A block of the chosen order holds the request exactly when some block could. */
  lemma OrderBounds(size: nat, o: nat)
    requires 0 < size < WORD && o == RequestOrder(size)
    ensures size + HEADER <= Size(o) <==> size + HEADER <= Size(MAX_ORDER)
    ensures Size(o) == MIN_BLOCK || Size(o) < 2 * (size + HEADER)
  {
    OrderIsLeast((size + HEADER) % WORD, 0);
    SizeMonotone(o, MAX_ORDER);
    TopSize();
    if size + HEADER >= WORD { assert (size + HEADER) % WORD == size + HEADER - WORD; }
  }

  lemma TopSize()
    ensures Size(MAX_ORDER) == 0x40000
  {
    SizeIsPow2(12);
    assert Pow2(18) == 64 * Pow2(12) == 4096 * Pow2(6) == 0x40000 by {
      PowSix(0);
      PowSix(6);
      PowSix(12);
    }
  }

  lemma PowSix(k: nat)
    ensures Pow2(k + 6) == 64 * Pow2(k)
  {
    assert Pow2(k + 6) == 2 * Pow2(k + 5) == 4 * Pow2(k + 4) == 8 * Pow2(k + 3) == 16 * Pow2(k + 2) == 32 * Pow2(k + 1);
  }

  lemma InitAgrees(h: Memory, heads: seq<int>, lists: seq<seq<int>>, a: nat, k: nat, total: nat)
    requires a > 0 && k <= MAX_ORDER && (total == Size(k) || (k == MAX_ORDER && total >= Size(k)))
    requires h == map[a := Header(total - HEADER, 0, true, NULL)]
    requires |heads| == |lists| == MAX_ORDER + 1
    requires forall j | 0 <= j <= MAX_ORDER ::
               heads[j] == (if j == k then a else NULL) && lists[j] == if j == k then [a] else []
    ensures Agree(h, heads, lists, Free, a, k, total, NULL)
  {
    hide ListBytes, HeadersMatch, AllLinked, Lists;
    InitialBytes(lists, k, MAX_ORDER + 1, a);
    InitialLists(lists, ViewOf(Free, a, k), a, k);
    InitialHeaders(h, a, k, total);
    InitialLinks(h, heads, lists, a, k);
  }

  lemma InitialHeaders(h: Memory, a: nat, k: nat, total: nat)
    requires a > 0 && k <= MAX_ORDER && (total == Size(k) || (k == MAX_ORDER && total >= Size(k)))
    requires h == map[a := Header(total - HEADER, 0, true, NULL)]
    ensures HeadersMatch(h, ViewOf(Free, a, k), total, NULL)
  {
  }

  lemma InitialLinks(h: Memory, heads: seq<int>, lists: seq<seq<int>>, a: nat, k: nat)
    requires a > 0 && a in h && h[a].next == NULL && k <= MAX_ORDER && |heads| == |lists| == MAX_ORDER + 1
    requires forall j | 0 <= j <= MAX_ORDER ::
               heads[j] == (if j == k then a else NULL) && lists[j] == if j == k then [a] else []
    ensures AllLinked(h, heads, lists)
  {
  }

  lemma InitialOrder(size: nat, order: nat)
    requires order <= MAX_ORDER && (size == Size(order) || (order == MAX_ORDER && size >= Size(order)))
    ensures Order(size) == order
  {
    SizeFieldOrder(size - HEADER, order, size);
  }

  lemma InitialHeap(a: nat, k: nat)
    ensures HeapOf(ViewOf(Free, a, k), a, k) == map[] && OrdersFit(ViewOf(Free, a, k), NULL)
    ensures Requested(map[]) == 0
  {
    var v := ViewOf(Free, a, k);
    forall p ensures p !in HeapOf(v, a, k) { assert !UsedPayload(v, p); }
  }

  lemma InitialLists(lists: seq<seq<int>>, v: View, a: nat, k: nat)
    requires k <= MAX_ORDER && |lists| == MAX_ORDER + 1
    requires forall j | 0 <= j <= MAX_ORDER :: lists[j] == if j == k then [a] else []
    requires forall x :: v(x) == if x == a then Block(k, true, 0) else NoBlock
    ensures Lists(lists, v)
  {
    forall j, y | 0 <= j <= MAX_ORDER ensures y in lists[j] <==> v(y) == Block(j, true, 0) {
    }
  }

  lemma {:induction false} InitialBytes(lists: seq<seq<int>>, order: nat, n: nat, start: nat)
    requires |lists| >= n
    requires forall i | 0 <= i < n :: lists[i] == if i == order then [start] else []
    ensures ListBytes(lists, n) == if order < n then Size(order) else 0
  {
    if n > 0 { InitialBytes(lists, order, n - 1, start); }
  }

  // ----- what holds in every reachable state -----

  /** The free blocks depend on the live regions alone, not on the history that led to them. */
  lemma FreeSetFromHeap(b: Buddy, c: Buddy)
    requires b.Valid() && c.Valid() && b.memoryStart == c.memoryStart && b.k == c.k && b.TheHeap() == c.TheHeap()
    ensures b.tree == c.tree
    ensures forall j, x | 0 <= j <= MAX_ORDER :: x in b.lists[j] <==> x in c.lists[j]
  {
    hide HeapOf, Counted, OrdersFit, AllLinked, HeadersMatch, ListBytes, FreeBytes, Lists;
    HeapDeterminesTree(b.tree, c.tree, b.memoryStart, b.k);
    SameLists(b.lists, c.lists, b.TheView());
  }

  lemma SameLists(ls: seq<seq<int>>, ms: seq<seq<int>>, v: View)
    requires Lists(ls, v) && Lists(ms, v)
    ensures forall j, x | 0 <= j <= MAX_ORDER :: x in ls[j] <==> x in ms[j]
  {
    forall j, x | 0 <= j <= MAX_ORDER ensures x in ls[j] <==> x in ms[j] {
      assert x in ls[j] <==> v(x) == Block(j, true, 0);
    }
  }

  lemma HeapDeterminesTree(t: Tree, u: Tree, a: nat, k: nat)
    requires Fits(t, k) && Fits(u, k) && Canonical(t) && Canonical(u)
    requires HeapOf(ViewOf(t, a, k), a, k) == HeapOf(ViewOf(u, a, k), a, k)
    ensures t == u
  {
    var v, w := ViewOf(t, a, k), ViewOf(u, a, k);
    forall x ensures SameUsedAt(t, u, a, k, x) {
      HeapTellsBlock(v, w, a, k, x);
    }
    LiveDeterminesTree(t, u, a, k);
  }

  lemma HeapTellsBlock(v: View, w: View, a: nat, k: nat, x: int)
    requires InRange(v, a, k) && InRange(w, a, k) && HeapOf(v, a, k) == HeapOf(w, a, k)
    ensures UsedAt(v, x) || UsedAt(w, x) ==> v(x) == w(x)
  {
    var p := x + HEADER;
    assert UsedPayload(v, p) <==> p in HeapOf(v, a, k);
    assert UsedPayload(w, p) <==> p in HeapOf(w, a, k);
    assert UsedPayload(v, p) <==> UsedAt(v, x);
    assert UsedPayload(w, p) <==> UsedAt(w, x);
    if UsedAt(v, x) {
      assert RegionAt(v, p) == RegionAt(w, p);
      SizeInjective(v(x).order, w(x).order);
      SizeInjective(w(x).order, v(x).order);
    }
  }

  /**
   Once everything is freed the arena is one free block again, alone on its list.  Its
   header says what it said at first, unless a split has cut off what lies behind the
   top order.
   */
  lemma AllFreed(b: Buddy)
    requires b.Valid() && b.TheHeap() == map[]
    ensures b.tree == Free && b.currentBlocks == 0 && b.totalAllocated == 0
    ensures b.memoryStart in b.headers && b.headers[b.memoryStart].isFree && b.headers[b.memoryStart].userSize == 0
    ensures b.headers[b.memoryStart].size + HEADER == if b.split then Size(b.k) else b.totalSize
    ensures forall j | 0 <= j <= MAX_ORDER :: b.lists[j] == if j == b.k then [b.memoryStart as int] else []
  {
    InitialHeap(b.memoryStart, b.k);
    HeapDeterminesTree(b.tree, Free, b.memoryStart, b.k);
    assert b.TheView() == ViewOf(Free, b.memoryStart, b.k);
    HeaderOf(b.headers, b.freeBlocks[..], b.lists, b.tree, b.memoryStart, b.k, b.Top(), b.memoryStart, NULL);
    forall j | 0 <= j <= MAX_ORDER ensures b.lists[j] == if j == b.k then [b.memoryStart as int] else [] {
      OnlyElement(b.lists[j], b.memoryStart, b.TheView(), j, b.k);
    }
  }

  lemma OnlyElement(l: seq<int>, a: int, v: View, j: nat, k: nat)
    requires Distinct(l) && (forall x :: x in l <==> v(x) == Block(j, true, 0))
    requires forall x :: v(x) == if x == a then Block(k, true, 0) else NoBlock
    ensures l == if j == k then [a] else []
  {
    assert a in l <==> v(a) == Block(j, true, 0);
    assert |l| > 1 ==> l[0] != l[1];
    forall i | 0 <= i < |l| ensures l[i] == a && j == k {
      assert l[i] in l;
    }
    if j == k {
      assert a in l;
      assert l == [a];
    }
  }

  /**
   A request is refused exactly when it is empty or no aligned part of the arena of
   the order it needs is free of blocks in use.
   */
  lemma RefusedIffNoRoom(b: Buddy, o: nat)
    requires b.Valid() && o <= MAX_ORDER
    ensures (forall j | o <= j <= MAX_ORDER :: b.lists[j] == [])
            <==> (forall x :: !Clear(b.tree, b.memoryStart, b.k, x, o))
  {
    var t, a, k := b.tree, b.memoryStart, b.k;
    var v := b.TheView();
    if x :| Clear(t, a, k, x, o) {
      var y := ClearNeedsFreeBlock(t, a, k, x, o);
      FreeHasNoRequest(t, a, k, y);
      assert y in b.lists[Look(t, a, k, y).order] <==> v(y) == Block(Look(t, a, k, y).order, true, 0);
    }
    if j :| o <= j <= MAX_ORDER && b.lists[j] != [] {
      var x := b.lists[j][0];
      assert x in b.lists[j] && v(x) == Block(j, true, 0);
      FreeBlockStartsClear(t, a, k, x, o);
    }
  }

  /** The free lists hold exactly the maximal aligned parts of the arena with nothing in use. */
  lemma FreeListsAreMaximalParts(b: Buddy, x: int, j: nat)
    requires b.Valid() && j <= MAX_ORDER
    ensures x in b.lists[j] <==> MaximalClear(b.tree, b.memoryStart, b.k, x, j)
  {
    CanonicalForm(b.tree, b.memoryStart, b.k, x, j);
    assert x in b.lists[j] <==> b.TheView()(x) == Block(j, true, 0);
  }
}
