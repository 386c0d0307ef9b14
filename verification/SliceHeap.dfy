/**
 Binary heaps kept in a slice, with the sift operations of Go's container/heap.
 Both transaction queues of the pool are such heaps.
 */
module SliceHeap {

  /** `less` is asymmetric and "not less" is transitive, so it orders a slice up to ties. */
  ghost predicate StrictWeakOrder<T(!new)>(less: (T, T) -> bool) {
    && (forall a, b :: less(a, b) ==> !less(b, a))
    && (forall a, b, c :: !less(b, a) && !less(c, b) ==> !less(c, a))
  }

  ghost predicate OrderedAt<T>(q: seq<T>, less: (T, T) -> bool, j: int)
    requires 1 <= j < |q|
  {
    !less(q[j], q[(j - 1) / 2])
  }

  ghost predicate Ordered<T>(q: seq<T>, less: (T, T) -> bool) {
    forall j :: 1 <= j < |q| ==> OrderedAt(q, less, j)
  }

  /** The root of an ordered heap is minimal. */
  lemma {:induction false} RootIsMinimal<T(!new)>(q: seq<T>, less: (T, T) -> bool, k: nat)
    requires StrictWeakOrder(less) && Ordered(q, less) && k < |q|
    ensures !less(q[k], q[0])
  {
    if k > 0 {
      RootIsMinimal(q, less, (k - 1) / 2);
      assert OrderedAt(q, less, k);
    }
  }

  function Swap<T>(q: seq<T>, i: nat, j: nat): (r: seq<T>)
    requires i < |q| && j < |q|
    ensures |r| == |q| && multiset(r) == multiset(q)
  {
    q[i := q[j]][j := q[i]]
  }

  /** Every pair is ordered except possibly `j` with its parent; the children of `j` respect its grandparent. */
  ghost predicate OrderedExceptUp<T>(q: seq<T>, less: (T, T) -> bool, j: int) {
    && (forall k :: 1 <= k < |q| && k != j ==> OrderedAt(q, less, k))
    && (forall k :: 1 <= k < |q| && (k - 1) / 2 == j && j >= 1 ==> !less(q[k], q[(j - 1) / 2]))
  }

  lemma UpStep<T(!new)>(q: seq<T>, less: (T, T) -> bool, j: nat)
    requires StrictWeakOrder(less) && 0 < j < |q| && OrderedExceptUp(q, less, j) && less(q[j], q[(j - 1) / 2])
    ensures OrderedExceptUp(Swap(q, (j - 1) / 2, j), less, (j - 1) / 2)
  {
    var i := (j - 1) / 2;
    var r := Swap(q, i, j);
    forall k | 1 <= k < |r| && k != i ensures OrderedAt(r, less, k) {
      if k != j { assert OrderedAt(q, less, k); }
    }
    forall k | 1 <= k < |r| && (k - 1) / 2 == i && i >= 1 ensures !less(r[k], r[(i - 1) / 2]) {
      assert OrderedAt(q, less, i);
      if k != j { assert OrderedAt(q, less, k); }
    }
  }

  method Up<T(!new)>(q: seq<T>, less: (T, T) -> bool, start: nat) returns (r: seq<T>)
    requires StrictWeakOrder(less) && start < |q| && OrderedExceptUp(q, less, start)
    ensures Ordered(r, less) && multiset(r) == multiset(q) && |r| == |q|
  {
    r := q;
    var j := start;
    while j > 0 && less(r[j], r[(j - 1) / 2])
      invariant 0 <= j < |r| == |q| && multiset(r) == multiset(q)
      invariant OrderedExceptUp(r, less, j)
      decreases j
    {
      UpStep(r, less, j);
      r := Swap(r, (j - 1) / 2, j);
      j := (j - 1) / 2;
    }
    forall k | 1 <= k < |r| ensures OrderedAt(r, less, k) { }
  }

  /** Every pair below `lo` is ordered except possibly the children of `i`, which respect the parent of `i`. */
  ghost predicate OrderedExceptDown<T>(q: seq<T>, less: (T, T) -> bool, lo: int, i: int, n: int)
    requires n <= |q|
  {
    && (forall k :: 1 <= k < n && (k - 1) / 2 >= lo && (k - 1) / 2 != i ==> OrderedAt(q, less, k))
    && (forall k :: 1 <= k < n && (k - 1) / 2 == i && i >= 1 && (i - 1) / 2 >= lo ==> !less(q[k], q[(i - 1) / 2]))
  }

  /** Sifts position `lo` down inside the first `n` elements. */
  method Down<T(!new)>(q: seq<T>, less: (T, T) -> bool, lo: nat, n: nat) returns (r: seq<T>)
    requires StrictWeakOrder(less) && n <= |q|
    requires forall k :: 1 <= k < n && (k - 1) / 2 > lo ==> OrderedAt(q, less, k)
    ensures |r| == |q| && multiset(r) == multiset(q) && r[n..] == q[n..]
    ensures forall k :: 1 <= k < n && (k - 1) / 2 >= lo ==> OrderedAt(r, less, k)
    ensures multiset(r[..n]) == multiset(q[..n])
  {
    r := q;
    var i := lo;
    while 2 * i + 1 < n
      invariant lo <= i && |r| == |q| && multiset(r) == multiset(q) && r[n..] == q[n..]
      invariant OrderedExceptDown(r, less, lo, i, n)
    {
      var j := 2 * i + 1;
      if j + 1 < n && less(r[j + 1], r[j]) {
        j := j + 1;
      }
      if !less(r[j], r[i]) {
        forall k | 1 <= k < n && (k - 1) / 2 >= lo ensures OrderedAt(r, less, k) { }
        break;
      }
      ghost var before := r;
      r := Swap(r, i, j);
      SwapKeepsOrder(before, r, less, lo, i, j, n);
      i := j;
    }
    forall k | 1 <= k < n && (k - 1) / 2 >= lo ensures OrderedAt(r, less, k) { }
    SamePrefix(r, q, n);
  }

  lemma SamePrefix<T>(r: seq<T>, q: seq<T>, n: nat)
    requires |r| == |q| && n <= |q| && multiset(r) == multiset(q) && r[n..] == q[n..]
    ensures multiset(r[..n]) == multiset(q[..n])
  {
    assert r == r[..n] + r[n..] && q == q[..n] + q[n..];
    assert multiset(r) == multiset(r[..n]) + multiset(r[n..]);
    assert multiset(q) == multiset(q[..n]) + multiset(q[n..]);
    assert multiset(r[..n]) == multiset(r) - multiset(r[n..]);
    assert multiset(q[..n]) == multiset(q) - multiset(q[n..]);
  }

  lemma SwapKeepsOrder<T(!new)>(q: seq<T>, r: seq<T>, less: (T, T) -> bool, lo: nat, i: nat, j: nat, n: nat)
    requires StrictWeakOrder(less) && n <= |q| && lo <= i
    requires OrderedExceptDown(q, less, lo, i, n)
    requires (j == 2 * i + 1 || j == 2 * i + 2) && j < n && r == Swap(q, i, j) && less(q[j], q[i])
    requires forall k :: 1 <= k < n && (k - 1) / 2 == i ==> !less(q[k], q[j])
    ensures OrderedExceptDown(r, less, lo, j, n)
  {
    forall k | 1 <= k < n && (k - 1) / 2 >= lo && (k - 1) / 2 != j ensures OrderedAt(r, less, k) {
      if (k - 1) / 2 != i && k != i { assert OrderedAt(q, less, k); }
    }
    forall k | 1 <= k < n && (k - 1) / 2 == j && (j - 1) / 2 >= lo ensures !less(r[k], r[(j - 1) / 2]) {
      assert OrderedAt(q, less, k);
    }
  }

  method Push<T(!new)>(q: seq<T>, less: (T, T) -> bool, x: T) returns (r: seq<T>)
    requires StrictWeakOrder(less) && Ordered(q, less)
    ensures Ordered(r, less) && multiset(r) == multiset(q) + multiset{x} && |r| == |q| + 1
  {
    var s := q + [x];
    forall k | 1 <= k < |s| && k != |q| ensures OrderedAt(s, less, k) { assert OrderedAt(q, less, k); }
    r := Up(s, less, |q|);
  }

  method Pop<T(!new)>(q: seq<T>, less: (T, T) -> bool) returns (x: T, r: seq<T>)
    requires StrictWeakOrder(less) && Ordered(q, less) && q != []
    ensures x == q[0] && Ordered(r, less) && multiset(r) == multiset(q) - multiset{x} && |r| == |q| - 1
  {
    var n := |q| - 1;
    var s := Swap(q, 0, n);
    forall k | 1 <= k < n && (k - 1) / 2 > 0 ensures OrderedAt(s, less, k) { assert OrderedAt(q, less, k); }
    var d := Down(s, less, 0, n);
    x, r := d[n], d[..n];
    PopResult(q, s, d, less, n);
  }

  lemma PopResult<T(!new)>(q: seq<T>, s: seq<T>, d: seq<T>, less: (T, T) -> bool, n: nat)
    requires |q| == |s| == |d| == n + 1 && s == Swap(q, 0, n)
    requires d[n..] == s[n..] && multiset(d) == multiset(s)
    requires forall k :: 1 <= k < n ==> OrderedAt(d, less, k)
    ensures d[n] == q[0] && multiset(d[..n]) == multiset(q) - multiset{q[0]} && Ordered(d[..n], less)
  {
    assert d[n..][0] == s[n..][0];
    assert d == d[..n] + [d[n]];
    forall k | 1 <= k < n ensures OrderedAt(d[..n], less, k) { assert OrderedAt(d, less, k); }
  }

  method Init<T(!new)>(q: seq<T>, less: (T, T) -> bool) returns (r: seq<T>)
    requires StrictWeakOrder(less)
    ensures Ordered(r, less) && multiset(r) == multiset(q) && |r| == |q|
  {
    r := q;
    var i := |q| / 2;
    while i > 0
      invariant 0 <= i <= |q| / 2 && |r| == |q| && multiset(r) == multiset(q)
      invariant forall k :: 1 <= k < |r| && (k - 1) / 2 >= i ==> OrderedAt(r, less, k)
    {
      i := i - 1;
      r := Down(r, less, i, |r|);
    }
  }
}
