/** Powers of two, block sizes and bitwise exclusive or on unbounded naturals. */
module Bits {

  function Pow2(k: nat): (p: nat)
    ensures p >= 1
  {
    if k == 0 then 1 else 2 * Pow2(k - 1)
  }

  /** Bitwise exclusive or, defined digit by digit. */
  function Xor(a: nat, b: nat): nat
    decreases a + b
  {
    if a == 0 && b == 0 then 0
    else (if a % 2 == b % 2 then 0 else 1) + 2 * Xor(a / 2, b / 2)
  }

  lemma {:induction false} XorZero(a: nat)
    ensures Xor(a, 0) == a
  {
    if a != 0 { XorZero(a / 2); }
  }

  lemma XorDoubled(a: nat, b: nat)
    ensures Xor(2 * a, 2 * b) == 2 * Xor(a, b)
  {
  }

  /** Flipping bit k of a multiple of 2^k moves to the other half of the enclosing pair. */
  lemma {:induction false} XorFlipsBit(q: nat, k: nat)
    ensures Xor(q * Pow2(k), Pow2(k)) == if q % 2 == 0 then (q + 1) * Pow2(k) else (q - 1) * Pow2(k)
  {
    if k == 0 {
      XorLowBit(q);
      assert q * Pow2(0) == q;
    } else {
      var p := Pow2(k - 1);
      XorFlipsBit(q, k - 1);
      XorDoubled(q * p, p);
      Doubling(q, p);
      Doubling(q + 1, p);
      Doubling(q - 1, p);
    }
  }

  lemma Doubling(q: int, p: int)
    ensures q * (2 * p) == 2 * (q * p)
  {
  }

  lemma XorLowBit(q: nat)
    ensures Xor(q, 1) == if q % 2 == 0 then q + 1 else q - 1
  {
    XorZero(q / 2);
  }

  const MIN_BLOCK: nat := 64

  /** Bytes in a block of the given order. */
  function Size(k: nat): (s: nat)
    ensures s >= MIN_BLOCK
  {
    if k == 0 then MIN_BLOCK else 2 * Size(k - 1)
  }

  lemma {:induction false} SizeIsPow2(k: nat)
    ensures Size(k) == Pow2(k + 6)
  {
    if k == 0 {
      assert Pow2(6) == 2 * Pow2(5) == 4 * Pow2(4) == 8 * Pow2(3) == 16 * Pow2(2) == 32 * Pow2(1);
    } else {
      SizeIsPow2(k - 1);
    }
  }

  lemma {:induction false} SizeGrows(j: nat, k: nat)
    requires j < k
    ensures 2 * Size(j) <= Size(k)
  {
    if j + 1 < k { SizeGrows(j, k - 1); }
  }

  predicate Aligned(x: int, k: nat) {
    x >= 0 && x % Size(k) == 0
  }

  /** The address the free routine computes for the sibling of an order-k block. */
  function Sibling(x: nat, k: nat): nat {
    Xor(x, Size(k))
  }

  lemma MultipleOf(x: int, s: int) returns (q: int)
    requires s > 0 && x >= 0 && x % s == 0
    ensures q >= 0 && x == q * s
  {
    q := x / s;
  }

  lemma ModOfMultiple(q: nat, s: nat)
    requires s > 0
    ensures (q * s) % s == 0
  {
    var m := q * s;
    assert (q - m / s) * s == m % s;
    ProductGap(q - m / s, s);
  }

  lemma ProductGap(d: int, s: int)
    requires s > 0
    ensures d == 0 || d * s >= s || d * s <= -s
  {
    if d > 0 { MulMonotone(1, d, s); } else if d < 0 { MulMonotone(1, -d, s); }
  }

  lemma MulMonotone(u: nat, v: nat, s: nat)
    requires u <= v
    ensures u * s <= v * s
  {
    assert (v - u) * s == v * s - u * s;
  }

  lemma SiblingOfMultiple(q: nat, k: nat)
    ensures Sibling(q * Size(k), k) == if q % 2 == 0 then (q + 1) * Size(k) else (q - 1) * Size(k)
  {
    SizeIsPow2(k);
    XorFlipsBit(q, k + 6);
  }

  /** The two halves of an aligned block are aligned and are each other's sibling. */
  lemma Halves(a: nat, k: nat)
    requires k > 0 && Aligned(a, k)
    ensures Size(k) == 2 * Size(k - 1)
    ensures Aligned(a, k - 1) && Aligned(a + Size(k - 1), k - 1)
    ensures Sibling(a, k - 1) == a + Size(k - 1)
    ensures Sibling(a + Size(k - 1), k - 1) == a
  {
    hide Sibling;
    var s := Size(k - 1);
    var q := MultipleOf(a, Size(k));
    Doubling(q, s);
    assert a == (2 * q) * s;
    assert a + s == (2 * q + 1) * s;
    ModOfMultiple(2 * q, s);
    ModOfMultiple(2 * q + 1, s);
    SiblingOfMultiple(2 * q, k - 1);
    SiblingOfMultiple(2 * q + 1, k - 1);
  }

  /** The sibling of a whole aligned arena lies outside it. */
  lemma SiblingOutside(a: nat, k: nat)
    requires Aligned(a, k)
    ensures Sibling(a, k) == a + Size(k) || Sibling(a, k) == a - Size(k)
  {
    var q := MultipleOf(a, Size(k));
    SiblingOfMultiple(q, k);
    assert (q + 1) * Size(k) == q * Size(k) + Size(k);
    assert (q - 1) * Size(k) == q * Size(k) - Size(k);
  }

  lemma {:induction false} AlignedDown(x: nat, j: nat, k: nat)
    requires j <= k && Aligned(x, k)
    ensures Aligned(x, j)
  {
    if j < k {
      Halves(x, k);
      AlignedDown(x, j, k - 1);
    }
  }

  /** An aligned block never straddles a boundary aligned to at least its own size. */
  lemma NoStraddle(x: nat, j: nat, mid: nat, k: nat)
    requires j <= k && Aligned(x, j) && Aligned(mid, k)
    requires x < mid
    ensures x + Size(j) <= mid
  {
    AlignedDown(mid, j, k);
    var s := Size(j);
    var u := MultipleOf(x, s);
    var v := MultipleOf(mid, s);
    assert u < v by {
      if u >= v { MulMonotone(v, u, s); }
    }
    MulMonotone(u + 1, v, s);
    assert (u + 1) * s == u * s + s;
  }
}
