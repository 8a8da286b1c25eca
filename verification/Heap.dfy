/** The binary heap discipline that the transaction lists keep their slices in: what sifting up and
    down does to a slice, and that the first element is the least. An element's place in the order
    is an integer key; ties are unordered. */
module Heaps {

  function Parent(j: nat): (i: nat)
    requires j > 0
    ensures i < j
  {
    (j - 1) / 2
  }

  ghost predicate EdgeOk<T>(h: seq<T>, key: T -> int, j: nat)
    requires 0 < j < |h|
  {
    key(h[Parent(j)]) <= key(h[j])
  }

  ghost predicate IsHeap<T>(h: seq<T>, key: T -> int) {
    forall j: nat {:trigger EdgeOk(h, key, j)} | 0 < j < |h| :: EdgeOk(h, key, j)
  }

  /** A heap as far as the elements from `lo` on and what is below them go. */
  ghost predicate IsHeapFrom<T>(h: seq<T>, key: T -> int, lo: nat) {
    forall j: nat {:trigger EdgeOk(h, key, j)} | 0 < j < |h| && Parent(j) >= lo :: EdgeOk(h, key, j)
  }

  lemma {:induction false} FirstIsLeast<T>(h: seq<T>, key: T -> int, k: nat)
    requires IsHeap(h, key) && k < |h|
    ensures key(h[0]) <= key(h[k])
  {
    if k > 0 {
      assert EdgeOk(h, key, k);
      FirstIsLeast(h, key, Parent(k));
    }
  }

  function Swapped<T>(h: seq<T>, i: nat, j: nat): (r: seq<T>)
    requires i < |h| && j < |h|
    ensures |r| == |h| && multiset(r) == multiset(h)
  {
    h[i := h[j]][j := h[i]]
  }

  /** A heap but for the edge above `j`, which may be out of order; what is below `j` is in order
      with what is above it. */
  ghost predicate HeapButUp<T>(h: seq<T>, key: T -> int, j: nat) {
    && j < |h|
    && (forall k: nat {:trigger EdgeOk(h, key, k)} | 0 < k < |h| && k != j :: EdgeOk(h, key, k))
    && (forall k: nat {:trigger EdgeOk(h, key, k)} | 0 < k < |h| && Parent(k) == j && j > 0 ::
          key(h[Parent(j)]) <= key(h[k]))
  }

  /** The same from `lo` on, but for the edges below `i`. */
  ghost predicate HeapButDown<T>(h: seq<T>, key: T -> int, i: nat, lo: nat) {
    && (forall k: nat {:trigger EdgeOk(h, key, k)} | 0 < k < |h| && Parent(k) >= lo && Parent(k) != i ::
          EdgeOk(h, key, k))
    && BelowAboveOk(h, key, i, lo)
  }

  /** The same, but for the edges below `i` and the one above it. */
  ghost predicate HeapButAt<T>(h: seq<T>, key: T -> int, i: nat, lo: nat) {
    && (forall k: nat {:trigger EdgeOk(h, key, k)} | 0 < k < |h| && Parent(k) >= lo && Parent(k) != i && k != i ::
          EdgeOk(h, key, k))
    && BelowAboveOk(h, key, i, lo)
  }

  /** What is below `i` is in order with what is above it. */
  ghost predicate BelowAboveOk<T>(h: seq<T>, key: T -> int, i: nat, lo: nat) {
    forall k: nat {:trigger EdgeOk(h, key, k)} | 0 < k < |h| && Parent(k) == i && i > 0 && Parent(i) >= lo ::
      key(h[Parent(i)]) <= key(h[k])
  }

  lemma UpStep<T>(h: seq<T>, key: T -> int, j: nat)
    requires HeapButUp(h, key, j) && j > 0 && key(h[j]) < key(h[Parent(j)])
    ensures HeapButUp(Swapped(h, Parent(j), j), key, Parent(j))
  {
    var i := Parent(j);
    var r := Swapped(h, i, j);
    forall k: nat | 0 < k < |r| && k != i
      ensures EdgeOk(r, key, k)
      ensures Parent(k) == i && i > 0 ==> key(r[Parent(i)]) <= key(r[k])
    {
      if k != j { assert EdgeOk(h, key, k); }
      if i > 0 { assert EdgeOk(h, key, i); }
    }
  }

  method Up<T>(h0: seq<T>, key: T -> int, j0: nat) returns (h: seq<T>)
    requires HeapButUp(h0, key, j0)
    ensures IsHeap(h, key) && |h| == |h0| && multiset(h) == multiset(h0)
  {
    h := h0;
    var j := j0;
    while true
      invariant HeapButUp(h, key, j) && |h| == |h0| && multiset(h) == multiset(h0)
      decreases j
    {
      if j == 0 || key(h[j]) >= key(h[Parent(j)]) {
        assert forall k: nat | 0 < k < |h| :: EdgeOk(h, key, k);
        return;
      }
      UpStep(h, key, j);
      h := Swapped(h, Parent(j), j);
      j := Parent(j);
    }
  }

  lemma DownStep<T>(h: seq<T>, key: T -> int, i: nat, j: nat, lo: nat)
    requires HeapButAt(h, key, i, lo) && lo <= i < j < |h| && Parent(j) == i && key(h[j]) < key(h[i])
    requires forall k: nat | 0 < k < |h| && Parent(k) == i :: key(h[j]) <= key(h[k])
    ensures HeapButDown(Swapped(h, i, j), key, j, lo)
  {
    var r := Swapped(h, i, j);
    forall k: nat | 0 < k < |r| && Parent(k) >= lo
      ensures Parent(k) != j ==> EdgeOk(r, key, k)
      ensures Parent(k) == j ==> key(r[Parent(j)]) <= key(r[k])
    {
      assert Parent(k) != i && k != i ==> EdgeOk(h, key, k);
      if k == i { assert EdgeOk(h, key, j) || key(h[Parent(i)]) <= key(h[j]); }
    }
  }

  /** Sifts the element at `i0` down; tells whether it moved. If it did not, it is in order with what
      is below it. */
  method Down<T>(h0: seq<T>, key: T -> int, i0: nat, ghost lo: nat) returns (h: seq<T>, moved: bool)
    requires HeapButAt(h0, key, i0, lo) && lo <= i0
    ensures |h| == |h0| && multiset(h) == multiset(h0)
    ensures moved || HeapButDown(h0, key, i0, lo) ==> IsHeapFrom(h, key, lo)
    ensures !moved ==> h == h0 && forall k: nat | 0 < k < |h| && Parent(k) == i0 :: EdgeOk(h, key, k)
  {
    h := h0;
    var i := i0;
    while true
      invariant |h| == |h0| && multiset(h) == multiset(h0) && i0 <= i
      invariant if i == i0 then h == h0 else HeapButDown(h, key, i, lo)
      decreases |h0| - i
    {
      var j1 := 2 * i + 1;
      if j1 >= |h| {
        break;
      }
      var j := j1;
      if j1 + 1 < |h| && key(h[j1 + 1]) < key(h[j1]) {
        j := j1 + 1;
      }
      assert forall k: nat | 0 < k < |h| && Parent(k) == i :: k == j1 || k == j1 + 1;
      if key(h[j]) >= key(h[i]) {
        break;
      }
      DownStep(h, key, i, j, lo);
      h := Swapped(h, i, j);
      i := j;
    }
    moved := i > i0;
  }

  /** heap.Init. */
  method Init<T>(h0: seq<T>, key: T -> int) returns (h: seq<T>)
    ensures IsHeap(h, key) && multiset(h) == multiset(h0)
  {
    h := h0;
    var i := |h| / 2;
    while i > 0
      invariant 0 <= i <= |h| / 2 && |h| == |h0| && multiset(h) == multiset(h0) && IsHeapFrom(h, key, i)
    {
      i := i - 1;
      assert i > 0 ==> Parent(i) < i;
      var moved: bool;
      h, moved := Down(h, key, i, i);
    }
  }

  /** heap.Push. */
  method Push<T>(h0: seq<T>, key: T -> int, x: T) returns (h: seq<T>)
    requires IsHeap(h0, key)
    ensures IsHeap(h, key) && multiset(h) == multiset(h0) + multiset{x}
  {
    h := h0 + [x];
    forall k: nat | 0 < k < |h0|
      ensures EdgeOk(h, key, k)
    {
      assert EdgeOk(h0, key, k);
    }
    assert forall k: nat | 0 < k < |h| :: Parent(k) < |h| - 1;
    h := Up(h, key, |h| - 1);
  }

  /** What heap.Pop and heap.Remove do to the slice before sifting: the last element takes the place of
      the one that leaves. */
  function Replaced<T>(h: seq<T>, i: nat): (r: seq<T>)
    requires i < |h|
  {
    if i == |h| - 1 then h[..i] else h[..|h|-1][i := h[|h|-1]]
  }

  lemma ReplacedParts<T>(h: seq<T>, key: T -> int, i: nat)
    requires IsHeap(h, key) && i < |h|
    ensures multiset(Replaced(h, i)) == multiset(h) - multiset{h[i]}
    ensures HeapButAt(Replaced(h, i), key, i, 0)
    ensures i == |h| - 1 ==> IsHeap(Replaced(h, i), key)
  {
    var n := |h| - 1;
    var r := Replaced(h, i);
    assert h == h[..n] + [h[n]];
    forall k: nat | 0 < k < |r|
      ensures Parent(k) != i && k != i ==> EdgeOk(r, key, k)
      ensures Parent(k) == i && i > 0 ==> key(r[Parent(i)]) <= key(r[k])
    {
      assert EdgeOk(h, key, k);
      if i > 0 { assert EdgeOk(h, key, i); }
    }
  }

  /** heap.Remove, and heap.Pop when `i` is zero. */
  method Remove<T>(h0: seq<T>, key: T -> int, i: nat) returns (h: seq<T>)
    requires IsHeap(h0, key) && i < |h0|
    ensures IsHeap(h, key) && multiset(h) == multiset(h0) - multiset{h0[i]}
  {
    ReplacedParts(h0, key, i);
    h := Replaced(h0, i);
    if i < |h| {
      var moved: bool;
      h, moved := Down(h, key, i, 0);
      if !moved {
        h := Up(h, key, i);
      }
    }
  }
}
