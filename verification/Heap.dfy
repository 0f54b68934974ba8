/**
 Binary heaps kept in a slice, as in Go's container/heap, ordered by a total
 preorder.
 */
module Heap {

  ghost predicate TotalPreorder<T(!new)>(le: (T, T) -> bool) {
    && (forall x, y :: le(x, y) || le(y, x))
    && (forall x, y, z :: le(x, y) && le(y, z) ==> le(x, z))
  }

  function Parent(i: nat): nat
    requires i > 0
  {
    (i - 1) / 2
  }

  ghost predicate Ordered<T>(le: (T, T) -> bool, h: seq<T>, i: nat) {
    0 < i < |h| ==> le(h[Parent(i)], h[i])
  }

  ghost predicate IsHeap<T>(le: (T, T) -> bool, h: seq<T>) {
    forall i: nat | 0 < i < |h| :: Ordered(le, h, i)
  }

  /** The first element is a least one. */
  lemma {:induction false} HeadIsLeast<T(!new)>(le: (T, T) -> bool, h: seq<T>, i: nat)
    requires TotalPreorder(le) && IsHeap(le, h) && i < |h|
    ensures le(h[0], h[i])
  {
    if i > 0 {
      HeadIsLeast(le, h, Parent(i));
      assert Ordered(le, h, i);
    }
  }

  function Swapped<T>(h: seq<T>, i: nat, j: nat): (r: seq<T>)
    requires i < |h| && j < |h|
    ensures |r| == |h|
    ensures multiset(r) == multiset(h)
  {
    h[i := h[j]][j := h[i]]
  }

  /** Ordered everywhere but between `j` and its parent. */
  ghost predicate UpOk<T>(le: (T, T) -> bool, h: seq<T>, j: nat) {
    && j < |h|
    && (forall i: nat | 0 < i < |h| && i != j :: Ordered(le, h, i))
    && (forall i: nat | 0 < i < |h| && Parent(i) == j && j > 0 :: le(h[Parent(j)], h[i]))
  }

  lemma UpStep<T(!new)>(le: (T, T) -> bool, h: seq<T>, j: nat)
    requires TotalPreorder(le) && UpOk(le, h, j) && j > 0 && !le(h[Parent(j)], h[j])
    ensures UpOk(le, Swapped(h, Parent(j), j), Parent(j))
  {
    var p, h' := Parent(j), Swapped(h, Parent(j), j);
    assert le(h[j], h[p]);
    forall i: nat | 0 < i < |h'| && i != p ensures Ordered(le, h', i) {
      assert i == j || Ordered(le, h, i);
    }
    forall i: nat | 0 < i < |h'| && Parent(i) == p && p > 0 ensures le(h'[Parent(p)], h'[i]) {
      assert Ordered(le, h, p);
      assert i == j || Ordered(le, h, i);
    }
  }

  lemma UpDone<T>(le: (T, T) -> bool, h: seq<T>, j: nat)
    requires UpOk(le, h, j) && (j == 0 || le(h[Parent(j)], h[j]))
    ensures IsHeap(le, h)
  {
    assert Ordered(le, h, j);
  }

  method Up<T(!new)>(le: (T, T) -> bool, h0: seq<T>, j0: nat) returns (h: seq<T>)
    requires TotalPreorder(le) && UpOk(le, h0, j0)
    ensures IsHeap(le, h) && multiset(h) == multiset(h0) && |h| == |h0|
  {
    h := h0;
    var j: nat := j0;
    while j > 0 && !le(h[Parent(j)], h[j])
      invariant UpOk(le, h, j) && multiset(h) == multiset(h0) && |h| == |h0|
    {
      UpStep(le, h, j);
      h, j := Swapped(h, Parent(j), j), Parent(j);
    }
    UpDone(le, h, j);
  }

  /** Ordered everywhere but between `i` and its children. */
  ghost predicate DownOk<T>(le: (T, T) -> bool, h: seq<T>, i: nat) {
    && (forall k: nat | 0 < k < |h| && Parent(k) != i :: Ordered(le, h, k))
    && (forall k: nat | 0 < k < |h| && Parent(k) == i && 0 < i < |h| :: le(h[Parent(i)], h[k]))
  }

  function SmallerChild<T>(le: (T, T) -> bool, h: seq<T>, i: nat): (c: nat)
    requires 2 * i + 1 < |h|
    ensures c < |h| && c > i && Parent(c) == i
  {
    if 2 * i + 2 < |h| && !le(h[2 * i + 1], h[2 * i + 2]) then 2 * i + 2 else 2 * i + 1
  }

  lemma DownStep<T(!new)>(le: (T, T) -> bool, h: seq<T>, i: nat)
    requires TotalPreorder(le) && DownOk(le, h, i) && 2 * i + 1 < |h|
    requires !le(h[i], h[SmallerChild(le, h, i)])
    ensures DownOk(le, Swapped(h, i, SmallerChild(le, h, i)), SmallerChild(le, h, i))
  {
    var c := SmallerChild(le, h, i);
    var h' := Swapped(h, i, c);
    forall k: nat | 0 < k < |h'| && Parent(k) != c ensures Ordered(le, h', k) {
      assert Parent(k) == i ==> k == 2 * i + 1 || k == 2 * i + 2;
      assert Parent(k) == i || Ordered(le, h, k);
    }
    forall k: nat | 0 < k < |h'| && Parent(k) == c ensures le(h'[Parent(c)], h'[k]) {
      assert Ordered(le, h, k);
    }
  }

  lemma DownDone<T(!new)>(le: (T, T) -> bool, h: seq<T>, i: nat)
    requires TotalPreorder(le) && DownOk(le, h, i)
    requires 2 * i + 1 < |h| ==> le(h[i], h[SmallerChild(le, h, i)])
    ensures IsHeap(le, h)
  {
    forall k: nat | 0 < k < |h| ensures Ordered(le, h, k) {
      assert Parent(k) == i ==> k == 2 * i + 1 || k == 2 * i + 2;
    }
  }

  method Down<T(!new)>(le: (T, T) -> bool, h0: seq<T>, i0: nat) returns (h: seq<T>)
    requires TotalPreorder(le) && DownOk(le, h0, i0)
    ensures IsHeap(le, h) && multiset(h) == multiset(h0) && |h| == |h0|
  {
    h := h0;
    var i: nat := i0;
    while 2 * i + 1 < |h| && !le(h[i], h[SmallerChild(le, h, i)])
      invariant DownOk(le, h, i) && multiset(h) == multiset(h0) && |h| == |h0|
      decreases |h| - i
    {
      var c := SmallerChild(le, h, i);
      DownStep(le, h, i);
      h, i := Swapped(h, i, c), c;
    }
    DownDone(le, h, i);
  }

  lemma Appended<T>(le: (T, T) -> bool, h: seq<T>, x: T)
    requires IsHeap(le, h)
    ensures UpOk(le, h + [x], |h|)
  {
    forall i: nat | 0 < i < |h| ensures Ordered(le, h + [x], i) {
      assert Ordered(le, h, i);
    }
  }

  lemma Prefix<T>(le: (T, T) -> bool, h: seq<T>, n: nat)
    requires IsHeap(le, h) && n <= |h|
    ensures IsHeap(le, h[..n])
  {
    forall i: nat | 0 < i < n ensures Ordered(le, h[..n], i) {
      assert Ordered(le, h, i);
    }
  }

  method Push<T(!new)>(le: (T, T) -> bool, h0: seq<T>, x: T) returns (h: seq<T>)
    requires TotalPreorder(le) && IsHeap(le, h0)
    ensures IsHeap(le, h) && multiset(h) == multiset(h0) + multiset{x}
  {
    Appended(le, h0, x);
    h := Up(le, h0 + [x], |h0|);
  }

  method Pop<T(!new)>(le: (T, T) -> bool, h0: seq<T>) returns (h: seq<T>, x: T)
    requires TotalPreorder(le) && IsHeap(le, h0) && h0 != []
    ensures x == h0[0] && forall y | y in h0 :: le(x, y)
    ensures IsHeap(le, h) && multiset(h0) == multiset(h) + multiset{x}
  {
    var n := |h0| - 1;
    var h1 := Swapped(h0, 0, n);
    x := h1[n];
    var rest := h1[..n];
    assert h1 == rest + [x];
    forall k: nat | 0 < k < |rest| && Parent(k) != 0 ensures Ordered(le, rest, k) {
      assert Ordered(le, h0, k);
    }
    h := Down(le, rest, 0);
    forall y | y in h0 ensures le(x, y) {
      var i :| 0 <= i < |h0| && h0[i] == y;
      HeadIsLeast(le, h0, i);
    }
  }

  // ---------- removal from the middle ----------

  /** Ordered everywhere but around `i`, whose children are still above its parent. */
  ghost predicate HoleAt<T>(le: (T, T) -> bool, h: seq<T>, i: nat) {
    && i < |h|
    && (forall k: nat | 0 < k < |h| && k != i && Parent(k) != i :: Ordered(le, h, k))
    && (forall k: nat | 0 < k < |h| && Parent(k) == i && i > 0 :: le(h[Parent(i)], h[k]))
  }

  /** Putting another element at `i` leaves a hole there, in the heap without its last element. */
  lemma HoleLeft<T(!new)>(le: (T, T) -> bool, h: seq<T>, i: nat, x: T)
    requires TotalPreorder(le) && IsHeap(le, h) && i < |h| - 1
    ensures HoleAt(le, h[..|h| - 1][i := x], i)
  {
    var r := h[..|h| - 1][i := x];
    forall k: nat | 0 < k < |r| && k != i && Parent(k) != i ensures Ordered(le, r, k) {
      assert Ordered(le, h, k);
    }
    forall k: nat | 0 < k < |r| && Parent(k) == i && i > 0 ensures le(r[Parent(i)], r[k]) {
      assert Ordered(le, h, k) && Ordered(le, h, i);
    }
  }

  /** If the element sinks, its former child fits under its parent. */
  lemma HoleSinks<T(!new)>(le: (T, T) -> bool, h: seq<T>, i: nat)
    requires TotalPreorder(le) && HoleAt(le, h, i) && 2 * i + 1 < |h| && !le(h[i], h[SmallerChild(le, h, i)])
    ensures DownOk(le, Swapped(h, i, SmallerChild(le, h, i)), SmallerChild(le, h, i))
  {
    var c := SmallerChild(le, h, i);
    var r := Swapped(h, i, c);
    assert le(h[c], h[i]);
    forall k: nat | 0 < k < |r| && Parent(k) != c ensures Ordered(le, r, k) {
      assert Parent(k) == i ==> k == 2 * i + 1 || k == 2 * i + 2;
      assert Parent(k) == i || k == i || Ordered(le, h, k);
    }
    forall k: nat | 0 < k < |r| && Parent(k) == c ensures le(r[Parent(c)], r[k]) {
      assert Ordered(le, h, k);
    }
  }

  /** If it does not sink, it may only have to rise. */
  lemma HoleStays<T(!new)>(le: (T, T) -> bool, h: seq<T>, i: nat)
    requires TotalPreorder(le) && HoleAt(le, h, i)
    requires 2 * i + 1 < |h| ==> le(h[i], h[SmallerChild(le, h, i)])
    ensures UpOk(le, h, i)
  {
    forall k: nat | 0 < k < |h| && k != i ensures Ordered(le, h, k) {
      assert Parent(k) == i ==> k == 2 * i + 1 || k == 2 * i + 2;
    }
  }
}
