/**
 What both memory managers promise their callers: a map from payload addresses to
 the regions handed out.  Regions never overlap, an allocation adds one region and
 leaves the others alone, and a release removes exactly the region it is given.
 */
module AbstractHeap {

  const NULL: int := 0

  /** A region handed out: the bytes asked for and the bytes that may be used. */
  datatype Region = Region(req: nat, cap: nat)

  type Heap = map<int, Region>

  ghost predicate Separate(h: Heap) {
    forall p <- h, q <- h :: p < q ==> p + h[p].cap <= q
  }

  /** A region at p would overlap none of the heap. */
  ghost predicate ClearOf(h: Heap, p: int, cap: nat) {
    forall q <- h :: (q < p ==> q + h[q].cap <= p) && (p < q ==> p + cap <= q)
  }

  ghost predicate MallocStep(pre: Heap, size: nat, p: int, post: Heap) {
    if p == NULL then post == pre
    else p !in pre && p in post && post == pre[p := post[p]] && post[p].req == size && ClearOf(pre, p, post[p].cap)
  }

  lemma NoMalloc(h: Heap, size: nat)
    ensures MallocStep(h, size, NULL, h)
  {
  }

  lemma MallocStepFor(pre: Heap, size: nat, p: int, post: Heap)
    requires p != NULL && p !in pre && p in post && post == pre[p := post[p]] && post[p].req == size && Separate(post)
    ensures MallocStep(pre, size, p, post)
  {
    forall q <- pre ensures (q < p ==> q + pre[q].cap <= p) && (p < q ==> p + post[p].cap <= q) {
      assert q in post && post[q] == pre[q];
    }
  }

  /** Adding a region clear of the others, and taking one away, leave regions that do not overlap. */
  lemma StepKeepsSeparate(pre: Heap, e: Event, post: Heap)
    requires Separate(pre) && Step(pre, e, post)
    ensures Separate(post)
  {
    forall p <- post, q <- post | p < q ensures p + post[p].cap <= q {
      assert p in pre ==> post[p] == pre[p];
      assert q in pre ==> post[q] == pre[q];
    }
  }

  ghost predicate FreeStep(pre: Heap, p: int, freed: nat, post: Heap) {
    if p in pre then freed == pre[p].req && post == pre - {p}
    else freed == 0 && post == pre
  }

  lemma SomeKey(h: Heap)
    requires |h| != 0
    ensures exists p: int :: p in h
  {
    assert (forall p: int :: p !in h) ==> h == map[];
  }

  lemma FreeStepFor(pre: Heap, p: int, freed: nat, post: Heap)
    requires if p in pre then freed == pre[p].req && post == pre - {p} else freed == 0 && post == pre
    ensures FreeStep(pre, p, freed, post)
  {
  }

  /** Bytes requested by all live regions together. */
  ghost function Requested(h: Heap): nat
    decreases |h|
  {
    if |h| == 0 then 0
    else
      SomeKey(h);
      var p: int :| p in h;
      h[p].req + Requested(h - {p})
  }

  /** The region that the sum takes first. */
  lemma TakenFirst(h: Heap) returns (q: int)
    requires |h| != 0
    ensures q in h && Requested(h) == h[q].req + Requested(h - {q})
  {
    SomeKey(h);
    q :| q in h && Requested(h) == h[q].req + Requested(h - {q});
  }

  lemma {:induction false} RequestedRemove(h: Heap, p: int)
    requires p in h
    ensures Requested(h) == h[p].req + Requested(h - {p})
    decreases |h|
  {
    hide Requested;
    var q := TakenFirst(h);
    if q != p {
      var g, f := h - {q}, h - {p};
      assert g - {p} == f - {q};
      RequestedRemove(g, p);
      RequestedRemove(f, q);
    }
  }

  lemma RequestedInsert(h: Heap, p: int, r: Region)
    requires p !in h
    ensures Requested(h[p := r]) == r.req + Requested(h)
    ensures |h[p := r]| == |h| + 1
  {
    RequestedRemove(h[p := r], p);
    assert h[p := r] - {p} == h;
  }

  /** The two counters that both managers keep: live regions, and bytes they asked for. */
  ghost predicate Counted(blocks: nat, bytes: nat, h: Heap) {
    blocks == |h| && bytes == Requested(h)
  }

  lemma CountedAfterMalloc(blocks: nat, bytes: nat, h: Heap, p: int, r: Region)
    requires Counted(blocks, bytes, h) && p !in h
    ensures Counted(blocks + 1, bytes + r.req, h[p := r])
  {
    RequestedInsert(h, p, r);
  }

  lemma CountedAfterFree(blocks: nat, bytes: nat, h: Heap, p: int)
    requires Counted(blocks, bytes, h) && p in h
    ensures blocks >= 1 && bytes >= h[p].req && Counted(blocks - 1, bytes - h[p].req, h - {p})
  {
    RequestedRemove(h, p);
    assert (h - {p})[p := h[p]] == h;
  }

  lemma CountedAtLeast(blocks: nat, bytes: nat, h: Heap, p: int)
    requires Counted(blocks, bytes, h) && p in h
    ensures blocks >= 1 && bytes >= h[p].req
  {
    CountedAfterFree(blocks, bytes, h, p);
  }

  // ----- runs -----

  datatype Event = Allocate(size: nat, p: int) | Release(p: int, freed: nat)

  ghost predicate Step(pre: Heap, e: Event, post: Heap) {
    match e
    case Allocate(size, p) => MallocStep(pre, size, p, post)
    case Release(p, freed) => FreeStep(pre, p, freed, post)
  }

  ghost predicate Run(hs: seq<Heap>, es: seq<Event>) {
    |hs| == |es| + 1 && forall i | 0 <= i < |es| :: Step(hs[i], es[i], hs[i + 1])
  }

  function Granted(es: seq<Event>): nat {
    if es == [] then 0
    else Granted(es[..|es| - 1]) + match es[|es| - 1] case Allocate(size, p) => (if p == NULL then 0 else size) case Release(_, _) => 0
  }

  function Released(es: seq<Event>): nat {
    if es == [] then 0
    else Released(es[..|es| - 1]) + match es[|es| - 1] case Allocate(_, _) => 0 case Release(_, freed) => freed
  }

  /** Over any run live regions never overlap, and the bytes granted are the bytes released plus the bytes still live. */
  lemma {:induction false} RunConserves(hs: seq<Heap>, es: seq<Event>)
    requires Run(hs, es) && hs[0] == map[]
    ensures Granted(es) == Released(es) + Requested(hs[|es|])
    ensures Separate(hs[|es|])
    decreases |es|
  {
    if es != [] {
      var n := |es| - 1;
      RunConserves(hs[..n + 1], es[..n]);
      var pre, post := hs[n], hs[n + 1];
      StepKeepsSeparate(pre, es[n], post);
      match es[n] {
        case Allocate(size, p) => if p != NULL { RequestedInsert(pre, p, post[p]); }
        case Release(p, freed) => if p in pre { RequestedRemove(pre, p); }
      }
    }
  }
}
