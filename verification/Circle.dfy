/**
 Circular linked lists kept as maps from a node address to its neighbour's
 address.  The list is described by the sequence of its nodes from some first node.
 */
module Circle {

  function Succ(i: nat, n: nat): (j: nat)
    requires i < n
    ensures j < n
  {
    if i + 1 == n then 0 else i + 1
  }

  function Pred(i: nat, n: nat): (j: nat)
    requires i < n
    ensures j < n && Succ(j, n) == i
  {
    if i == 0 then n - 1 else i - 1
  }

  ghost predicate Distinct<T(!new)>(r: seq<T>) {
    forall i, j | 0 <= i < j < |r| :: r[i] != r[j]
  }

  function Remove<T>(r: seq<T>, k: nat): (s: seq<T>)
    requires k < |r|
    ensures |s| == |r| - 1
    ensures forall i | 0 <= i < |s| :: s[i] == r[if i < k then i else i + 1]
  {
    r[..k] + r[k + 1..]
  }

  function InsertAfter<T>(r: seq<T>, k: nat, y: T): (s: seq<T>)
    requires k < |r|
    ensures |s| == |r| + 1
    ensures forall i | 0 <= i < |s| :: s[i] == if i <= k then r[i] else if i == k + 1 then y else r[i - 1]
  {
    r[..k + 1] + [y] + r[k + 1..]
  }

  lemma RemoveFacts<T(!new)>(r: seq<T>, k: nat)
    requires k < |r| && Distinct(r)
    ensures Distinct(Remove(r, k))
    ensures forall x :: x in Remove(r, k) <==> x in r && x != r[k]
  {
    var s := Remove(r, k);
    forall x ensures x in s <==> x in r && x != r[k] {
      if x in r && x != r[k] {
        var j :| 0 <= j < |r| && r[j] == x;
        assert s[if j < k then j else j - 1] == x;
      }
    }
  }

  /** Every node names the next one, and the last names the first. */
  ghost predicate Forward(nx: map<int, int>, r: seq<int>) {
    forall i | 0 <= i < |r| :: r[i] in nx && nx[r[i]] == r[Succ(i, |r|)]
  }

  /** Every node names the previous one, and the first names the last. */
  ghost predicate Backward(pv: map<int, int>, r: seq<int>) {
    forall i | 0 <= i < |r| :: r[Succ(i, |r|)] in pv && pv[r[Succ(i, |r|)]] == r[i]
  }

  lemma ForwardFrame(nx: map<int, int>, nx': map<int, int>, r: seq<int>)
    requires Forward(nx, r) && forall i | 0 <= i < |r| :: r[i] in nx' && (r[i] in nx ==> nx'[r[i]] == nx[r[i]])
    ensures Forward(nx', r)
  {
  }

  lemma BackwardAt(pv: map<int, int>, r: seq<int>, i: nat)
    requires Backward(pv, r) && i < |r|
    ensures r[i] in pv && pv[r[i]] == r[Pred(i, |r|)]
  {
    assert r[Succ(Pred(i, |r|), |r|)] == r[i];
  }

  lemma BackwardFrame(pv: map<int, int>, pv': map<int, int>, r: seq<int>)
    requires Backward(pv, r) && forall i | 0 <= i < |r| :: r[i] in pv' && (r[i] in pv ==> pv'[r[i]] == pv[r[i]])
    ensures Backward(pv', r)
  {
  }

  lemma DistinctAt<T(!new)>(r: seq<T>, i: nat, j: nat)
    requires Distinct(r) && i < |r| && j < |r| && i != j
    ensures r[i] != r[j]
  {
  }

  lemma ForwardAt(nx: map<int, int>, r: seq<int>, i: nat)
    requires Forward(nx, r) && i < |r|
    ensures r[i] in nx && nx[r[i]] == r[Succ(i, |r|)]
  {
  }

  /** Where the neighbours of a node stand once the k-th one is gone. */
  lemma RemoveNeighbours(r: seq<int>, k: nat, i: nat) returns (o: nat)
    requires k < |r| && i < |r| - 1
    ensures o < |r| && o != k && Remove(r, k)[i] == r[o]
    ensures Remove(r, k)[Succ(i, |r| - 1)] == r[if Succ(o, |r|) == k then Succ(k, |r|) else Succ(o, |r|)]
  {
    o := if i < k then i else i + 1;
  }

  lemma ForwardRemove(nx: map<int, int>, r: seq<int>, k: nat)
    requires Forward(nx, r) && Distinct(r) && k < |r| && |r| > 1
    ensures r[k] in nx && nx[r[k]] == r[Succ(k, |r|)]
    ensures Forward(nx[r[Pred(k, |r|)] := nx[r[k]]], Remove(r, k))
  {
    hide Remove, Succ, Pred, Distinct;
    ForwardAt(nx, r, k);
    var nx', s := nx[r[Pred(k, |r|)] := nx[r[k]]], Remove(r, k);
    forall i | 0 <= i < |s| ensures s[i] in nx' && nx'[s[i]] == s[Succ(i, |s|)] { ForwardRemoveAt(nx, r, k, i); }
  }

  lemma ForwardRemoveAt(nx: map<int, int>, r: seq<int>, k: nat, i: nat)
    requires Forward(nx, r) && Distinct(r) && k < |r| && i < |r| - 1 && r[k] in nx
    ensures var nx', s := nx[r[Pred(k, |r|)] := nx[r[k]]], Remove(r, k);
            s[i] in nx' && nx'[s[i]] == s[Succ(i, |s|)]
  {
    hide Remove, Distinct, Forward;
    ForwardAt(nx, r, k);
    var o := RemoveNeighbours(r, k, i);
    ForwardAt(nx, r, o);
    if o != Pred(k, |r|) { DistinctAt(r, o, Pred(k, |r|)); }
  }

  lemma BackwardRemove(pv: map<int, int>, r: seq<int>, k: nat)
    requires Backward(pv, r) && Distinct(r) && k < |r| && |r| > 1
    ensures r[k] in pv && pv[r[k]] == r[Pred(k, |r|)]
    ensures Backward(pv[r[Succ(k, |r|)] := pv[r[k]]], Remove(r, k))
  {
    BackwardAt(pv, r, k);
    var n, q := |r|, Succ(k, |r|);
    var pv', s := pv[r[q] := pv[r[k]]], Remove(r, k);
    forall i | 0 <= i < |s| ensures s[Succ(i, |s|)] in pv' && pv'[s[Succ(i, |s|)]] == s[i] {
      var o := RemoveNeighbours(r, k, i);
      var m := Succ(o, n);
      assert pv[r[m]] == r[o];
      if m != k { assert m != q && r[m] != r[q]; }
    }
  }

  /** Where the neighbours of a node stand once y follows the k-th one. */
  lemma InsertNeighbours(r: seq<int>, k: nat, y: int, i: nat) returns (o: nat)
    requires k < |r| && i < |r| + 1 && i != k + 1
    ensures o < |r| && InsertAfter(r, k, y)[i] == r[o]
    ensures InsertAfter(r, k, y)[Succ(i, |r| + 1)] == if o == k then y else r[Succ(o, |r|)]
  {
    o := if i <= k then i else i - 1;
  }

  lemma ForwardInsert(nx: map<int, int>, r: seq<int>, k: nat, y: int)
    requires Forward(nx, r) && Distinct(r) && k < |r| && y !in r
    ensures Forward(nx[y := r[Succ(k, |r|)]][r[k] := y], InsertAfter(r, k, y))
  {
    hide InsertAfter, Succ, Distinct;
    var nx', s := nx[y := r[Succ(k, |r|)]][r[k] := y], InsertAfter(r, k, y);
    forall i | 0 <= i < |s| ensures s[i] in nx' && nx'[s[i]] == s[Succ(i, |s|)] { ForwardInsertAt(nx, r, k, y, i); }
  }

  lemma ForwardInsertAt(nx: map<int, int>, r: seq<int>, k: nat, y: int, i: nat)
    requires Forward(nx, r) && Distinct(r) && k < |r| && y !in r && i < |r| + 1
    ensures var nx', s := nx[y := r[Succ(k, |r|)]][r[k] := y], InsertAfter(r, k, y);
            s[i] in nx' && nx'[s[i]] == s[Succ(i, |s|)]
  {
    hide InsertAfter, Succ, Distinct, Forward;
    if i == k + 1 {
      NewNeighbours(r, k, y);
      assert r[k] in r;
    } else {
      var o := InsertNeighbours(r, k, y, i);
      ForwardAt(nx, r, o);
      if o != k { DistinctAt(r, o, k); }
    }
  }

  lemma NewNeighbours(r: seq<int>, k: nat, y: int)
    requires k < |r|
    ensures InsertAfter(r, k, y)[k + 1] == y
    ensures InsertAfter(r, k, y)[Succ(k + 1, |r| + 1)] == r[Succ(k, |r|)]
  {
  }

  lemma BackwardInsert(pv: map<int, int>, r: seq<int>, k: nat, y: int)
    requires Backward(pv, r) && Distinct(r) && k < |r| && y !in r
    ensures Backward(pv[y := r[k]][r[Succ(k, |r|)] := y], InsertAfter(r, k, y))
  {
    var n, q := |r|, Succ(k, |r|);
    var pv', s := pv[y := r[k]][r[q] := y], InsertAfter(r, k, y);
    forall i | 0 <= i < |s| ensures s[Succ(i, |s|)] in pv' && pv'[s[Succ(i, |s|)]] == s[i] {
      if i != k + 1 {
        var o := InsertNeighbours(r, k, y, i);
        var m := Succ(o, n);
        assert pv[r[m]] == r[o];
        if o != k { assert m != q && r[m] != r[q]; }
      }
    }
  }

  /** A rotation of a circular list is the same circular list. */
  lemma LastToFront(nx: map<int, int>, pv: map<int, int>, r: seq<int>, y: int)
    requires Forward(nx, r + [y]) && Backward(pv, r + [y])
    ensures Forward(nx, [y] + r) && Backward(pv, [y] + r)
  {
    var n, s, t := |r| + 1, [y] + r, r + [y];
    forall i | 0 <= i < n
      ensures s[i] in nx && nx[s[i]] == s[Succ(i, n)] && s[Succ(i, n)] in pv && pv[s[Succ(i, n)]] == s[i]
    {
      var o := Pred(i, n);
      assert s[i] == t[o] && s[Succ(i, n)] == t[Succ(o, n)];
    }
  }

  /** Inserting after the last node and starting the list there. */
  lemma CirclePush(nx: map<int, int>, pv: map<int, int>, r: seq<int>, y: int)
    requires Forward(nx, r) && Backward(pv, r) && Distinct(r) && r != [] && y !in r
    ensures Forward(nx[y := r[0]][r[|r| - 1] := y], [y] + r)
    ensures Backward(pv[y := r[|r| - 1]][r[0] := y], [y] + r)
  {
    ForwardInsert(nx, r, |r| - 1, y);
    BackwardInsert(pv, r, |r| - 1, y);
    assert InsertAfter(r, |r| - 1, y) == r + [y];
    LastToFront(nx[y := r[0]][r[|r| - 1] := y], pv[y := r[|r| - 1]][r[0] := y], r, y);
  }
}
