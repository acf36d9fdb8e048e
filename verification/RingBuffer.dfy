/**
 Circular buffers: the contents of a buffer from some slot on, wrapping around at its
 end, as the queue of a semaphore and the bytes of a pipe are kept.
 */
module RingBuffer {

  /** The i-th slot from head on, of n. */
  function Slot(n: nat, head: nat, i: nat): (k: nat)
    requires n > 0
    ensures k < n
  {
    (head + i) % n
  }

  /** The contents of so many slots from head on. */
  function RingSeq<T>(w: seq<T>, head: nat, count: nat): (q: seq<T>)
    requires |w| > 0
    ensures |q| == count
    ensures forall i | 0 <= i < count :: q[i] == w[Slot(|w|, head, i)]
  {
    seq(count, i requires 0 <= i < count => w[Slot(|w|, head, i)])
  }

  lemma SlotIs(n: nat, head: nat, i: nat)
    requires head < n && i <= n
    ensures Slot(n, head, i) == if head + i < n then head + i else head + i - n
  {
    var x := head + i;
    if x >= n {
      var q := x / n;
      assert x == n * q + x % n;
      assert q >= 2 ==> n * q >= n * 2;
      assert q == 1;
    }
  }

  /** Writing behind the last slot in use appends. */
  lemma RingPush<T>(w: seq<T>, head: nat, count: nat, x: T)
    requires head < |w| && count < |w|
    ensures RingSeq(w[Slot(|w|, head, count) := x], head, count + 1) == RingSeq(w, head, count) + [x]
    ensures Slot(|w|, Slot(|w|, head, count), 1) == Slot(|w|, head, count + 1)
  {
    hide Slot;
    var n := |w|;
    SlotIs(n, head, count);
    SlotIs(n, head, count + 1);
    SlotIs(n, Slot(n, head, count), 1);
    forall i | 0 <= i < count ensures Slot(n, head, i) != Slot(n, head, count) { SlotIs(n, head, i); }
  }

  /** Moving the head on drops the first. */
  lemma RingPop<T>(w: seq<T>, head: nat, count: nat)
    requires head < |w| && 0 < count <= |w|
    ensures RingSeq(w, head, count) == [w[head]] + RingSeq(w, Slot(|w|, head, 1), count - 1)
    ensures Slot(|w|, Slot(|w|, head, 1), count - 1) == Slot(|w|, head, count)
  {
    hide Slot;
    var n := |w|;
    var h := Slot(n, head, 1);
    SlotIs(n, head, 0);
    SlotIs(n, head, 1);
    SlotIs(n, head, count);
    SlotIs(n, h, count - 1);
    forall i | 0 <= i < count - 1 ensures Slot(n, h, i) == Slot(n, head, i + 1) {
      SlotIs(n, h, i);
      SlotIs(n, head, i + 1);
    }
  }
}
