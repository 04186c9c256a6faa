/** lib/stdlib.c: heapsort in place, and binary search in its result.  Elements are
    whole values here; the byte loop of a swap exchanges two of them.  Indices of
    heap elements start at 1, as in the source. */
module Stdlib {
  import opened Wrappers

  type Compare<!T> = (T, T) -> int

  /** Always true: names two or three elements whose comparison a proof uses. */
  ghost predicate Elements<T>(x: T, y: T, z: T) {
    true
  }

  /** A strcmp()-type comparison: the sign flips with the arguments, and "not
      greater" is transitive. */
  ghost predicate Preorder<T(!new)>(cmp: Compare<T>) {
    && (forall x, y :: cmp(x, y) > 0 <==> cmp(y, x) < 0)
    && (forall x, y, z {:trigger Elements(x, y, z)} :: cmp(x, y) <= 0 && cmp(y, z) <= 0 ==> cmp(x, z) <= 0)
  }

  /** `x` is not greater than `y`. */
  predicate Le<T>(cmp: Compare<T>, x: T, y: T) {
    cmp(x, y) <= 0
  }

  lemma LeTransitive<T(!new)>(cmp: Compare<T>, x: T, y: T, z: T)
    requires Preorder(cmp) && Le(cmp, x, y) && Le(cmp, y, z)
    ensures Le(cmp, x, z)
  {
    assert Elements(x, y, z);
  }

  ghost predicate Sorted<T>(cmp: Compare<T>, s: seq<T>) {
    forall i, j :: 0 <= i < j < |s| ==> Le(cmp, s[i], s[j])
  }

  /** Nothing in `s` is greater than anything in `t`. */
  ghost predicate Below<T>(cmp: Compare<T>, s: seq<T>, t: seq<T>) {
    forall x, y :: x in s && y in t ==> Le(cmp, x, y)
  }

  // ----------------------------------------------------------------------- heaps

  /** Element `k` of the heap is not greater than its parent. */
  predicate Under<T>(cmp: Compare<T>, s: seq<T>, k: nat)
    requires 2 <= k <= |s|
  {
    Le(cmp, s[k - 1], s[k / 2 - 1])
  }

  /** The first `n` elements are a heap from element `lo` down, but for the children
      of `hole`. */
  ghost predicate Heap<T>(cmp: Compare<T>, s: seq<T>, lo: nat, n: nat, hole: nat) {
    0 < lo && n <= |s| && forall k: nat :: 2 * lo <= k <= n && k / 2 != hole ==> Under(cmp, s, k)
  }

  /** The children of `hole` would fit under its parent. */
  ghost predicate Bridged<T>(cmp: Compare<T>, s: seq<T>, lo: nat, n: nat, hole: nat)
    requires 0 < lo <= hole && n <= |s|
  {
    forall k: nat :: k <= n && k / 2 == hole && 2 * lo <= hole ==> Le(cmp, s[k - 1], s[hole / 2 - 1])
  }

  function Swapped<T>(s: seq<T>, i: nat, j: nat): (r: seq<T>)
    requires 0 < i <= |s| && 0 < j <= |s|
    ensures |r| == |s|
  {
    s[i - 1 := s[j - 1]][j - 1 := s[i - 1]]
  }

  lemma SwapKeeps<T>(s: seq<T>, i: nat, j: nat, n: nat)
    requires 0 < i <= n && 0 < j <= n && n <= |s|
    ensures multiset(Swapped(s, i, j)[..n]) == multiset(s[..n]) && Swapped(s, i, j)[n..] == s[n..]
  {
    assert Swapped(s, i, j)[..n] == s[..n][i - 1 := s[..n][j - 1]][j - 1 := s[..n][i - 1]];
  }

  /** Swapping the hole's element with its greater child moves the hole down. */
  lemma Sink<T(!new)>(cmp: Compare<T>, s: seq<T>, lo: nat, n: nat, i: nat, max: nat)
    requires Preorder(cmp) && 0 < lo <= i && max / 2 == i && max <= n <= |s| && Heap(cmp, s, lo, n, i)
             && Bridged(cmp, s, lo, n, i)
    requires Le(cmp, s[i - 1], s[max - 1]) && forall k: nat :: k <= n && k / 2 == i ==> Le(cmp, s[k - 1], s[max - 1])
    ensures Heap(cmp, Swapped(s, i, max), lo, n, max) && Bridged(cmp, Swapped(s, i, max), lo, n, max)
  {
    var t := Swapped(s, i, max);
    forall k: nat | 2 * lo <= k <= n && k / 2 != max
      ensures Under(cmp, t, k)
    {
      if k != i && k / 2 != i { assert Under(cmp, s, k); }
    }
    forall k: nat | k <= n && k / 2 == max
      ensures Le(cmp, t[k - 1], t[max / 2 - 1])
    {
      assert Under(cmp, s, k);
    }
  }

  /** The greatest of an element and its children. */
  method MaxChild<T(!new)>(cmp: Compare<T>, a: array<T>, i: nat, n: nat) returns (max: nat)
    requires Preorder(cmp) && 0 < i <= n <= a.Length
    ensures i <= max <= n && (max == i || max / 2 == i) && Le(cmp, a[i - 1], a[max - 1])
    ensures forall k: nat :: k <= n && k / 2 == i ==> Le(cmp, a[k - 1], a[max - 1])
  {
    var left, right := 2 * i, 2 * i + 1;
    max := i;
    if left <= n && cmp(a[left - 1], a[max - 1]) > 0 { max := left; }
    ghost var first := max;
    if right <= n && cmp(a[right - 1], a[max - 1]) > 0 { max := right; }
    assert Elements(a[i - 1], a[first - 1], a[max - 1]);
    assert left <= n ==> Elements(a[left - 1], a[first - 1], a[max - 1]);
    forall k: nat | k <= n && k / 2 == i ensures Le(cmp, a[k - 1], a[max - 1]) { assert k == left || k == right; }
  }

  /** heapify: the element at `i` floats down to where it belongs. */
  method Heapify<T(!new)>(cmp: Compare<T>, a: array<T>, lo: nat, n: nat)
    requires Preorder(cmp) && 0 < lo <= n <= a.Length && Heap(cmp, a[..], lo, n, lo)
    modifies a
    ensures Heap(cmp, a[..], lo, n, 0) && multiset(a[..n]) == old(multiset(a[..n])) && a[n..] == old(a[n..])
  {
    var i := lo;
    while true
      invariant lo <= i <= n && Heap(cmp, a[..], lo, n, i) && Bridged(cmp, a[..], lo, n, i)
      invariant multiset(a[..n]) == old(multiset(a[..n])) && a[n..] == old(a[n..])
      decreases n - i
    {
      var max := MaxChild(cmp, a, i, n);
      if max == i { break; }
      ghost var s := a[..];
      Sink(cmp, s, lo, n, i, max);
      SwapKeeps(s, i, max, n);
      a[i - 1], a[max - 1] := a[max - 1], a[i - 1];
      assert a[..] == Swapped(s, i, max);
      i := max;
    }
  }

  /** The top of a heap is its greatest element. */
  lemma {:induction false} TopIsMax<T(!new)>(cmp: Compare<T>, s: seq<T>, n: nat, k: nat)
    requires Preorder(cmp) && Heap(cmp, s, 1, n, 0) && 0 < k <= n
    ensures Le(cmp, s[k - 1], s[0])
  {
    if k == 1 {
      assert cmp(s[0], s[0]) > 0 <==> cmp(s[0], s[0]) < 0;
    } else {
      assert Under(cmp, s, k);
      TopIsMax(cmp, s, n, k / 2);
      LeTransitive(cmp, s[k - 1], s[k / 2 - 1], s[0]);
    }
  }

  /** The state of the second loop: a heap of `n`, and what follows it in order and
      not below it. */
  ghost predicate Sorting<T>(cmp: Compare<T>, s: seq<T>, n: nat) {
    n <= |s| && Heap(cmp, s, 1, n, 0) && Sorted(cmp, s[n..]) && Below(cmp, s[..n], s[n..])
  }

  /** Swapping the top to the end of the heap. */
  lemma TopToEnd<T(!new)>(cmp: Compare<T>, s: seq<T>, n: nat)
    requires Preorder(cmp) && 1 < n && Sorting(cmp, s, n)
    ensures var t := Swapped(s, 1, n);
            Heap(cmp, t, 1, n - 1, 1) && Sorted(cmp, t[n - 1..]) && Below(cmp, t[..n - 1], t[n - 1..])
  {
    var t := Swapped(s, 1, n);
    SwapKeeps(s, 1, n, n);
    forall k: nat | 2 <= k <= n - 1 && k / 2 != 1 ensures Under(cmp, t, k) { assert Under(cmp, s, k); }
    assert t[n - 1..] == [s[0]] + s[n..];
    assert s[0] in s[..n];
    forall x | x in t[..n - 1]
      ensures x in s[..n] && Le(cmp, x, s[0])
    {
      assert x in multiset(t[..n]);
      var k :| 0 <= k < n && s[k] == x;
      TopIsMax(cmp, s, n, k + 1);
    }
  }

  /** Rearranging the heap keeps what follows above it. */
  lemma StillBelow<T>(cmp: Compare<T>, s: seq<T>, t: seq<T>, n: nat)
    requires n <= |s| == |t| && Sorted(cmp, s[n..]) && Below(cmp, s[..n], s[n..])
    requires multiset(t[..n]) == multiset(s[..n]) && t[n..] == s[n..]
    ensures Sorted(cmp, t[n..]) && Below(cmp, t[..n], t[n..])
  {
    forall x | x in t[..n] ensures x in s[..n] { assert x in multiset(t[..n]); }
  }

  lemma SamePieces<T>(s: seq<T>, t: seq<T>, n: nat)
    requires n <= |s| == |t| && multiset(t[..n]) == multiset(s[..n]) && t[n..] == s[n..]
    ensures multiset(t) == multiset(s)
  {
    assert s == s[..n] + s[n..] && t == t[..n] + t[n..];
  }

  /** sort's first loop. */
  method BuildHeap<T(!new)>(cmp: Compare<T>, a: array<T>)
    requires Preorder(cmp)
    modifies a
    ensures Heap(cmp, a[..], 1, a.Length, 0) && multiset(a[..]) == old(multiset(a[..]))
  {
    var n := a.Length;
    var i := n / 2;
    while i > 0
      invariant 0 <= i <= n / 2 && Heap(cmp, a[..], i + 1, n, 0) && multiset(a[..]) == old(multiset(a[..]))
    {
      assert a[..n] == a[..];
      Heapify(cmp, a, i, n);
      assert a[..n] == a[..];
      i := i - 1;
    }
  }

  /** One round of sort's second loop. */
  method Extract<T(!new)>(cmp: Compare<T>, a: array<T>, n: nat)
    requires Preorder(cmp) && 1 < n <= a.Length && Sorting(cmp, a[..], n)
    modifies a
    ensures Sorting(cmp, a[..], n - 1) && multiset(a[..]) == old(multiset(a[..]))
  {
    ghost var s := a[..];
    TopToEnd(cmp, s, n);
    SwapKeeps(s, 1, n, n);
    a[0], a[n - 1] := a[n - 1], a[0];
    ghost var t := a[..];
    assert t == Swapped(s, 1, n);
    SamePieces(s, t, n);
    Heapify(cmp, a, 1, n - 1);
    StillBelow(cmp, t, a[..], n - 1);
    SamePieces(t, a[..], n - 1);
  }

  /** sort: a sorted rearrangement, for every array and every total preorder. */
  method Sort<T(!new)>(cmp: Compare<T>, a: array<T>)
    requires Preorder(cmp)
    modifies a
    ensures Sorted(cmp, a[..]) && multiset(a[..]) == old(multiset(a[..]))
  {
    BuildHeap(cmp, a);
    var i := a.Length;
    while i > 1
      invariant 0 <= i <= a.Length && Sorting(cmp, a[..], i) && multiset(a[..]) == old(multiset(a[..]))
    {
      Extract(cmp, a, i);
      i := i - 1;
    }
    LastOne(cmp, a[..], i);
  }

  lemma LastOne<T>(cmp: Compare<T>, s: seq<T>, n: nat)
    requires n <= 1 && Sorting(cmp, s, n)
    ensures Sorted(cmp, s)
  {
    if n == 1 {
      assert s[0] in s[..1];
      forall j | 0 < j < |s| ensures Le(cmp, s[0], s[j]) { assert s[j] == s[1..][j - 1]; }
      forall i, j | 0 < i < j < |s|
        ensures Le(cmp, s[i], s[j])
      {
        assert s[i] == s[1..][i - 1] && s[j] == s[1..][j - 1];
      }
    } else {
      assert s[0..] == s;
    }
  }

  /** binary_search: a match exactly when there is one. */
  method BinarySearch<T(!new)>(cmp: Compare<T>, key: T, a: array<T>) returns (r: Option<nat>)
    requires Preorder(cmp) && Sorted(cmp, a[..])
    ensures r.Some? ==> r.value < a.Length && cmp(key, a[r.value]) == 0
    ensures r.None? ==> forall k :: 0 <= k < a.Length ==> cmp(key, a[k]) != 0
  {
    var first, last := 0, a.Length;
    while first < last
      invariant 0 <= first <= last <= a.Length
      invariant forall k :: 0 <= k < first ==> cmp(key, a[k]) > 0
      invariant forall k :: last <= k < a.Length ==> cmp(key, a[k]) < 0
    {
      var middle := first + (last - first) / 2;
      var c := cmp(key, a[middle]);
      if c == 0 { return Some(middle); }
      SearchSide(cmp, key, a[..], middle);
      if c < 0 { last := middle; } else { first := middle + 1; }
    }
    r := None;
  }

  /** An element on the wrong side puts everything beyond it there too. */
  lemma SearchSide<T(!new)>(cmp: Compare<T>, key: T, s: seq<T>, m: nat)
    requires Preorder(cmp) && Sorted(cmp, s) && m < |s|
    ensures cmp(key, s[m]) < 0 ==> forall k :: m <= k < |s| ==> cmp(key, s[k]) < 0
    ensures cmp(key, s[m]) > 0 ==> forall k :: 0 <= k <= m ==> cmp(key, s[k]) > 0
  {
    forall k | 0 <= k < |s|
      ensures cmp(key, s[m]) < 0 && k >= m ==> cmp(key, s[k]) < 0
      ensures cmp(key, s[m]) > 0 && k <= m ==> cmp(key, s[k]) > 0
    {
      if k > m {
        assert Le(cmp, s[m], s[k]) && Elements(s[m], s[k], key);
      } else if k < m {
        assert Le(cmp, s[k], s[m]) && Elements(key, s[k], s[m]);
      }
    }
  }
}
