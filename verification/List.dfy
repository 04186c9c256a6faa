/** The kernel's doubly linked list: interior elements between two sentinels,
    rewired in place, and the natural merge sort that runs on it. */
module KernelList {
  import opened Runs
  import opened Wrappers

  /** `r` is `s` back to front. */
  ghost function Reversed<X>(s: seq<X>): (r: seq<X>)
    ensures |r| == |s|
    ensures forall i :: 0 <= i < |s| ==> r[i] == s[|s| - 1 - i]
  {
    seq(|s|, i requires 0 <= i < |s| => s[|s| - 1 - i])
  }

  lemma ReversedTwice<X>(s: seq<X>)
    ensures Reversed(Reversed(s)) == s
  {
  }

  /** `list_insert_ordered` puts an element carrying `x` before index `k` of `s`:
      the first place holding something that `x` is less than. */
  ghost predicate IsInsertionPoint<T>(less: Less<T>, s: seq<Elem<T>>, x: T, k: nat) {
    && k <= |s|
    && (forall i :: 0 <= i < k ==> !less(x, s[i].item))
    && (k < |s| ==> less(x, s[k].item))
  }

  lemma SortedSplit<T>(less: Less<T>, a: seq<Elem<T>>, b: seq<Elem<T>>)
    requires Sorted(less, a + b)
    ensures Sorted(less, a) && Sorted(less, b)
    ensures forall x, y :: x in a && y in b ==> !less(y.item, x.item)
  {
    var c := a + b;
    assert forall i :: 0 <= i < |a| ==> a[i] == c[i];
    assert forall i :: 0 <= i < |b| ==> b[i] == c[|a| + i];
  }

  lemma SortedJoin<T>(less: Less<T>, a: seq<Elem<T>>, b: seq<Elem<T>>)
    requires Sorted(less, a) && Sorted(less, b)
    requires forall x, y :: x in a && y in b ==> !less(y.item, x.item)
    ensures Sorted(less, a + b)
  {
    var c := a + b;
    forall i, j | 0 <= i < j < |c|
      ensures !less(c[j].item, c[i].item)
    {
      if i < |a| && j < |a| {
        assert c[i] == a[i] && c[j] == a[j];
      } else if i < |a| {
        assert c[i] in a && c[j] in b;
      } else {
        assert c[i] == b[i - |a|] && c[j] == b[j - |a|];
      }
    }
  }

  lemma SortedInsert<T(!new)>(less: Less<T>, a: seq<Elem<T>>, e: Elem<T>, b: seq<Elem<T>>)
    requires StrictWeakOrder(less) && Sorted(less, a) && Sorted(less, b)
    requires forall x, y :: x in a && y in b ==> !less(y.item, x.item)
    requires forall x :: x in a ==> !less(e.item, x.item)
    requires b != [] ==> less(e.item, b[0].item)
    ensures Sorted(less, a + ([e] + b))
    ensures forall y :: y in b ==> less(e.item, y.item)
  {
    forall y | y in b
      ensures less(e.item, y.item) && !less(y.item, e.item)
    {
      LessTransitive(less, e.item, b[0].item, y.item);
      NotBoth(less, e.item, y.item);
    }
    SortedCons(less, e, b);
    SortedJoin(less, a, [e] + b);
  }

  /** Ordered insertion keeps the list sorted and, for a strict weak order, puts
      the new element behind its equals. */
  lemma InsertionSorted<T(!new)>(less: Less<T>, s: seq<Elem<T>>, e: Elem<T>, k: nat)
    requires StrictWeakOrder(less) && Sorted(less, s) && IsInsertionPoint(less, s, e.item, k)
    ensures Sorted(less, s[..k] + ([e] + s[k..]))
    ensures forall y :: y in s[k..] ==> less(e.item, y.item)
  {
    assert s == s[..k] + s[k..];
    SortedSplit(less, s[..k], s[k..]);
    SortedInsert(less, s[..k], e, s[k..]);
  }

  // ------------------------------------------------------------------ chains

  /** `NoDup` in terms of multisets, which suits rearrangements. */
  ghost predicate Distinct<X>(s: seq<X>) {
    forall e {:trigger multiset(s)[e]} :: e in s ==> multiset(s)[e] == 1
  }

  lemma DistinctAt<X>(s: seq<X>, i: nat, j: nat)
    requires Distinct(s) && i < j < |s|
    ensures s[i] != s[j]
  {
    var a, b := s[..j], s[j..];
    assert s == a + b && a[i] == s[i] && b[0] == s[j];
    assert multiset(s)[s[j]] == multiset(a)[s[j]] + multiset(b)[s[j]];
    assert s[i] in multiset(a) && s[j] in multiset(b);
  }

  lemma DistinctFrom<X>(s: seq<X>, i: nat)
    requires Distinct(s) && i < |s|
    ensures forall q :: 0 <= q < |s| && q != i ==> s[q] != s[i]
  {
    forall q | 0 <= q < |s| && q != i
      ensures s[q] != s[i]
    {
      DistinctAt(s, if q < i then q else i, if q < i then i else q);
    }
  }

  lemma DistinctPairs<X>(s: seq<X>)
    requires Distinct(s)
    ensures NoDup(s)
  {
    forall i, j | 0 <= i < j < |s|
      ensures s[i] != s[j]
    {
      DistinctAt(s, i, j);
    }
  }

  /** Rearranging keeps distinctness and the set of elements. */
  lemma DistinctPermuted<X>(s: seq<X>, t: seq<X>)
    requires Distinct(s) && multiset(t) == multiset(s)
    ensures Distinct(t) && forall e :: e in t <==> e in s
  {
    forall e
      ensures e in t <==> e in s
    {
      assert e in t <==> e in multiset(t);
      assert e in s <==> e in multiset(s);
    }
  }

  ghost predicate Within<X>(s: seq<X>, repr: set<X>) {
    forall e :: e in s ==> e in repr
  }

  /** Neighbours in `c` point at each other. */
  ghost predicate Linked<T>(c: seq<Elem<T>>)
    reads c
  {
    && (forall i {:trigger c[i].next} :: 0 <= i < |c| - 1 ==> c[i].next == c[i + 1])
    && (forall i {:trigger c[i].prev} :: 0 < i < |c| ==> c[i].prev == c[i - 1])
  }

  lemma SliceLinked<T>(c: seq<Elem<T>>, i: nat, j: nat)
    requires i <= j <= |c| && Linked(c)
    ensures Linked(c[i..j])
  {
    var b := c[i..j];
    forall t | 0 <= t < |b| - 1
      ensures b[t].next == b[t + 1] && b[t + 1].prev == b[t]
    {
      assert b[t] == c[i + t] && b[t + 1] == c[i + t + 1];
      assert c[i + t].next == c[i + t + 1] && c[i + t + 1].prev == c[i + t];
    }
  }

  /** A chain can be cut anywhere. */
  lemma CutLinked<T>(a: seq<Elem<T>>, b: seq<Elem<T>>)
    requires Linked(a + b)
    ensures Linked(a) && Linked(b)
    ensures a != [] && b != [] ==> a[|a| - 1].next == b[0] && b[0].prev == a[|a| - 1]
  {
    var c := a + b;
    SliceLinked(c, 0, |a|);
    SliceLinked(c, |a|, |c|);
    assert c[..|a|] == a && c[|a|..] == b;
    if a != [] && b != [] {
      assert c[|a| - 1].next == c[|a|] && c[|a|].prev == c[|a| - 1];
    }
  }

  /** Two chains joined at a seam form one. */
  lemma JoinLinked<T>(a: seq<Elem<T>>, b: seq<Elem<T>>)
    requires Linked(a) && Linked(b)
    requires a != [] && b != [] ==> a[|a| - 1].next == b[0] && b[0].prev == a[|a| - 1]
    ensures Linked(a + b)
  {
    var c := a + b;
    forall t | 0 <= t < |c| - 1
      ensures c[t].next == c[t + 1] && c[t + 1].prev == c[t]
    {
      if t < |a| - 1 {
        assert c[t] == a[t] && c[t + 1] == a[t + 1];
        assert a[t].next == a[t + 1] && a[t + 1].prev == a[t];
      } else if t >= |a| {
        var u := t - |a|;
        assert c[t] == b[u] && c[t + 1] == b[u + 1];
        assert b[u].next == b[u + 1] && b[u + 1].prev == b[u];
      }
    }
  }

  /** In a chain of three parts without repetition, no other element is the last
      of the first part, the first of the third, or an end of the second. */
  lemma Seams<X>(a: seq<X>, m: seq<X>, b: seq<X>)
    requires Distinct(a + m + b) && a != [] && m != [] && b != []
    ensures forall i :: 0 <= i < |a| ==> a[i] != b[0] && a[i] != m[0] && a[i] != m[|m| - 1]
    ensures forall i :: 0 <= i < |a| - 1 ==> a[i] != a[|a| - 1]
    ensures forall i :: 0 <= i < |m| ==> m[i] != a[|a| - 1] && m[i] != b[0]
    ensures forall i :: 0 < i < |m| ==> m[i] != m[0]
    ensures forall i :: 0 <= i < |m| - 1 ==> m[i] != m[|m| - 1]
    ensures forall i :: 0 <= i < |b| ==> b[i] != a[|a| - 1] && b[i] != m[0] && b[i] != m[|m| - 1]
    ensures forall i :: 0 < i < |b| ==> b[i] != b[0]
  {
    var c := a + m + b;
    var n, o := |a|, |a| + |m|;
    DistinctPairs(c);
    assert c[n - 1] == a[n - 1] && c[n] == m[0] && c[o - 1] == m[|m| - 1] && c[o] == b[0];
    assert forall i :: 0 <= i < |a| ==> a[i] == c[i];
    assert forall i :: 0 <= i < |m| ==> m[i] == c[n + i];
    assert forall i :: 0 <= i < |b| ==> b[i] == c[o + i];
  }

  /** Takes the block from `first` to `last` out of a chain made of `a`, the
      block and `b`. */
  method Unlink<T>(first: Elem<T>, last: Elem<T>, ghost a: seq<Elem<T>>, ghost block: seq<Elem<T>>,
                   ghost b: seq<Elem<T>>,
                   ghost left: Elem<T>, ghost right: Elem<T>)
    requires a != [] && b != [] && block != [] && first == block[0] && last == block[|block| - 1]
    requires left == a[|a| - 1] && right == b[0]
    requires Distinct(a + block + b)
    requires Linked(a) && Linked(block) && Linked(b)
    requires first.prev == left && last.next == right
    modifies left`next, right`prev
    ensures Linked(a + b) && Linked(block)
  {
    Seams(a, block, b);
    first.prev.next := last.next;
    last.next.prev := first.prev;
    JoinLinked(a, b);
  }

  /** Puts the block from `first` to `last` between `a` and `b`, before the first
      element of `b`. */
  method Link<T>(before: Elem<T>, first: Elem<T>, last: Elem<T>, ghost a: seq<Elem<T>>, ghost block: seq<Elem<T>>,
                 ghost b: seq<Elem<T>>,
                 ghost left: Elem<T>)
    requires a != [] && b != [] && block != [] && first == block[0] && last == block[|block| - 1]
    requires left == a[|a| - 1] && before == b[0]
    requires Distinct(a + block + b)
    requires Linked(a) && Linked(b) && Linked(block) && before.prev == left
    modifies first`prev, last`next, left`next, before`prev
    ensures Linked(a + block + b)
  {
    Seams(a, block, b);
    first.prev := before.prev;
    last.next := before;
    before.prev.next := first;
    before.prev := last;
    JoinLinked(a, block);
    JoinLinked(a + block, b);
  }

  // -------------------------------------------------------------- block moves

  /** What lies before and behind index `k` once the block `i..j` is out. */
  ghost function SpliceFront<X>(s: seq<X>, k: nat, i: nat, j: nat): seq<X>
    requires i <= j <= |s| && k <= |s| && Outside(k, i, j)
  {
    if k < i then s[..k] else s[..i] + s[j..k]
  }

  ghost function SpliceBack<X>(s: seq<X>, k: nat, i: nat, j: nat): seq<X>
    requires i <= j <= |s| && k <= |s| && Outside(k, i, j)
  {
    if k < i then s[k..i] + s[j..] else s[k..]
  }

  /** The chain `s` with the block `i..j` moved to just before index `k`. */
  ghost function Spliced<X>(s: seq<X>, k: nat, i: nat, j: nat): seq<X>
    requires i <= j <= |s| && k <= |s| && Outside(k, i, j)
  {
    SpliceFront(s, k, i, j) + s[i..j] + SpliceBack(s, k, i, j)
  }

  lemma SplicedParts<X>(s: seq<X>, k: nat, i: nat, j: nat)
    requires 1 <= i <= j < |s| && 1 <= k < |s| && Outside(k, i, j)
    ensures s == s[..i] + s[i..j] + s[j..]
    ensures SpliceFront(s, k, i, j) + SpliceBack(s, k, i, j) == s[..i] + s[j..]
    ensures i == j ==> Spliced(s, k, i, j) == s
  {
    if k < i {
      assert s[..k] + (s[k..i] + s[j..]) == s[..i] + s[j..];
    } else {
      assert (s[..i] + s[j..k]) + s[k..] == s[..i] + s[j..];
    }
  }

  /** A block move only rearranges. */
  lemma SplicedPermutes<X>(s: seq<X>, k: nat, i: nat, j: nat)
    requires 1 <= i <= j < |s| && 1 <= k < |s| && Outside(k, i, j)
    ensures multiset(Spliced(s, k, i, j)) == multiset(s)
  {
    SplicedParts(s, k, i, j);
    var a, m, b := SpliceFront(s, k, i, j), s[i..j], SpliceBack(s, k, i, j);
    calc {
      multiset(a + m + b);
      multiset(a + b) + multiset(m);
      multiset(s[..i] + s[j..]) + multiset(m);
      multiset(s[..i] + m + s[j..]);
    }
  }

  // ----------------------------------------------------- the links after a splice

  /** The target is outside the block, or just behind it. */
  predicate Outside(k: nat, i: nat, j: nat) {
    k < i || j <= k
  }

  /** `way` follows the links forward from `from`. */
  ghost predicate Walk<T>(way: seq<Elem<T>>, from: Elem<T>)
    reads way
  {
    way != [] && way[0] == from && forall t {:trigger way[t].next} :: 0 <= t < |way| - 1 ==> way[t].next == way[t + 1]
  }

  ghost predicate Leads<T>(way: seq<Elem<T>>, from: Elem<T>, to: Elem<T>)
    reads way
  {
    Walk(way, from) && way[|way| - 1] == to
  }

  /** Where the element at index `m` points once the block `i..j` has been put before the
      element at index `k`, wherever that is. */
  function NextAfter(k: nat, i: nat, j: nat, m: nat): nat {
    if m + 1 == (if k == j then i else k) then i
    else if m + 1 == j then k
    else if m + 1 == i then j
    else m + 1
  }

  function PrevAfter(k: nat, i: nat, j: nat, m: nat): int {
    if m == k then j - 1
    else if m == i then (if k == j then i else k) - 1
    else if m == j then i - 1
    else m - 1
  }

  ghost predicate Relinked<T>(c: seq<Elem<T>>, k: nat, i: nat, j: nat)
    requires 1 <= i < j < |c| && 1 <= k < |c|
    reads c
  {
    && (forall m {:trigger c[m].next} :: 0 <= m < |c| - 1 ==> c[m].next == c[NextAfter(k, i, j, m)])
    && (forall m {:trigger c[m].prev} :: 0 < m < |c| ==> c[m].prev == c[PrevAfter(k, i, j, m)])
  }

  ghost predicate Respliced<T>(c: seq<Elem<T>>, k: nat, i: nat, j: nat)
    requires 1 <= i <= j < |c| && 1 <= k < |c|
    reads c
  {
    if i < j then Relinked(c, k, i, j) else Linked(c)
  }

  /** The first half of list_splice's assignments takes the block out ... */
  method CutOut<T>(first: Elem<T>, last: Elem<T>, ghost c: seq<Elem<T>>, ghost i: nat, ghost j: nat,
                   ghost left: Elem<T>, ghost right: Elem<T>)
    requires 1 <= i < j < |c| && first == c[i] && last == c[j - 1] && left == c[i - 1] && right == c[j]
    requires Distinct(c) && Linked(c)
    modifies left`next, right`prev
    ensures forall m {:trigger c[m].next} :: 0 <= m < |c| - 1 ==> c[m].next == c[if m + 1 == i then j else m + 1]
    ensures forall m {:trigger c[m].prev} :: 0 < m < |c| ==> c[m].prev == c[if m == j then i - 1 else m - 1]
  {
    assert first.prev == left && last.next == right;
    DistinctFrom(c, i - 1);
    DistinctFrom(c, j);
    first.prev.next := last.next;
    last.next.prev := first.prev;
  }

  /** ... and the second puts it before its target, for any target. */
  method PutBefore<T>(before: Elem<T>, first: Elem<T>, last: Elem<T>, ghost c: seq<Elem<T>>, ghost k: nat,
                      ghost i: nat, ghost j: nat, ghost p: nat, ghost left: Elem<T>)
    requires 1 <= i < j < |c| && 1 <= k < |c| && before == c[k] && first == c[i] && last == c[j - 1]
    requires Distinct(c) && p == (if k == j then i else k) - 1 && left == c[p]
    requires forall m {:trigger c[m].next} :: 0 <= m < |c| - 1 ==> c[m].next == c[if m + 1 == i then j else m + 1]
    requires forall m {:trigger c[m].prev} :: 0 < m < |c| ==> c[m].prev == c[if m == j then i - 1 else m - 1]
    modifies left`next, last`next, first`prev, before`prev
    ensures forall m {:trigger c[m].next} :: 0 <= m < |c| - 1 ==> c[m].next == c[NextAfter(k, i, j, m)]
    ensures forall m {:trigger c[m].prev} :: 0 < m < |c| ==> c[m].prev == c[PrevAfter(k, i, j, m)]
  {
    assert before.prev == left;
    DistinctFrom(c, p);
    DistinctFrom(c, j - 1);
    DistinctFrom(c, i);
    DistinctFrom(c, k);
    first.prev := before.prev;
    last.next := before;
    before.prev.next := first;
    before.prev := last;
  }

  method Rewire<T>(before: Elem<T>, first: Elem<T>, last: Elem<T>, ghost c: seq<Elem<T>>, ghost k: nat,
                   ghost i: nat, ghost j: nat)
    requires 1 <= i < j < |c| && 1 <= k < |c| && before == c[k] && first == c[i] && last == c[j - 1]
    requires Distinct(c) && Linked(c) && c[0].prev == null && c[|c| - 1].next == null
    modifies set e | e in c
    ensures Relinked(c, k, i, j) && c[0].prev == null && c[|c| - 1].next == null
  {
    ghost var p := (if k == j then i else k) - 1;
    Ends(c, k, i, j, p);
    CutOut(first, last, c, i, j, c[i - 1], c[j]);
    PutBefore(before, first, last, c, k, i, j, p, c[p]);
  }

  /** The elements a splice writes to are not the ends. */
  lemma Ends<X>(c: seq<X>, k: nat, i: nat, j: nat, p: nat)
    requires Distinct(c) && 1 <= i < j < |c| && 1 <= k < |c| && p < |c| - 1
    ensures c[0] != c[j] && c[0] != c[i] && c[0] != c[k]
    ensures var z := c[|c| - 1]; z != c[i - 1] && z != c[j - 1] && z != c[p]
  {
    DistinctFrom(c, 0);
    DistinctFrom(c, |c| - 1);
  }

  /** A stretch that a splice leaves alone. */
  lemma Stretch<T>(c: seq<Elem<T>>, k: nat, i: nat, j: nat, a: nat, b: nat)
    requires 1 <= i < j < |c| && 1 <= k < |c| && Relinked(c, k, i, j) && a <= b <= |c|
    requires !(a < k < b) && !(a < i < b) && !(a < j < b)
    ensures Linked(c[a..b])
  {
    var d := c[a..b];
    forall t | 0 <= t < |d| - 1
      ensures d[t].next == d[t + 1] && d[t + 1].prev == d[t]
    {
      assert NextAfter(k, i, j, a + t) == a + t + 1;
      assert c[a + t].next == c[a + t + 1] && c[a + t + 1].prev == c[a + t];
    }
  }

  lemma RelinkedAhead<T>(c: seq<Elem<T>>, k: nat, i: nat, j: nat, a: seq<Elem<T>>, b: seq<Elem<T>>,
                         m: seq<Elem<T>>, d: seq<Elem<T>>)
    requires 1 <= k < i < j < |c| && Relinked(c, k, i, j)
    requires a == c[..k] && b == c[k..i] && m == c[i..j] && d == c[j..]
    ensures Linked(a + m + (b + d))
  {
    Stretch(c, k, i, j, 0, k);
    Stretch(c, k, i, j, k, i);
    Stretch(c, k, i, j, i, j);
    Stretch(c, k, i, j, j, |c|);
    assert c[k - 1].next == c[i] && c[j - 1].next == c[k] && c[i - 1].next == c[j];
    assert c[i].prev == c[k - 1] && c[k].prev == c[j - 1] && c[j].prev == c[i - 1];
    Rejoin(a, m, b, d);
    assert a + m + (b + d) == a + m + b + d;
  }

  lemma RelinkedBehind<T>(c: seq<Elem<T>>, k: nat, i: nat, j: nat, a: seq<Elem<T>>, m: seq<Elem<T>>,
                          b: seq<Elem<T>>, d: seq<Elem<T>>)
    requires 1 <= i < j < k < |c| && Relinked(c, k, i, j)
    requires a == c[..i] && m == c[i..j] && b == c[j..k] && d == c[k..]
    ensures Linked(a + b + m + d)
  {
    Stretch(c, k, i, j, 0, i);
    Stretch(c, k, i, j, i, j);
    Stretch(c, k, i, j, j, k);
    Stretch(c, k, i, j, k, |c|);
    assert c[k - 1].next == c[i] && c[j - 1].next == c[k] && c[i - 1].next == c[j];
    assert c[i].prev == c[k - 1] && c[k].prev == c[j - 1] && c[j].prev == c[i - 1];
    Rejoin(a, b, m, d);
  }

  /** Four chains joined at their seams form one. */
  lemma Rejoin<T>(a: seq<Elem<T>>, b: seq<Elem<T>>, m: seq<Elem<T>>, d: seq<Elem<T>>)
    requires a != [] && b != [] && m != [] && d != [] && Linked(a) && Linked(b) && Linked(m) && Linked(d)
    requires a[|a| - 1].next == b[0] && b[0].prev == a[|a| - 1]
    requires b[|b| - 1].next == m[0] && m[0].prev == b[|b| - 1]
    requires m[|m| - 1].next == d[0] && d[0].prev == m[|m| - 1]
    ensures Linked(a + b + m + d)
  {
    JoinLinked(a, b);
    JoinLinked(a + b, m);
    JoinLinked(a + b + m, d);
  }

  lemma RelinkedOutside<T>(c: seq<Elem<T>>, k: nat, i: nat, j: nat)
    requires 1 <= i < j < |c| && 1 <= k < |c| && Relinked(c, k, i, j) && Outside(k, i, j)
    ensures Linked(Spliced(c, k, i, j))
  {
    if k < i {
      RelinkedAhead(c, k, i, j, c[..k], c[k..i], c[i..j], c[j..]);
    } else if k > j {
      RelinkedBehind(c, k, i, j, c[..i], c[i..j], c[j..k], c[k..]);
    } else {
      RelinkedSame(c, i, j);
      assert Spliced(c, k, i, j) == c;
    }
  }

  lemma RelinkedSame<T>(c: seq<Elem<T>>, i: nat, j: nat)
    requires 1 <= i < j < |c| && Relinked(c, j, i, j)
    ensures Linked(c)
  {
  }

  /** A splice before the block's first element closes the front. */
  lemma ClosedFront<T>(c: seq<Elem<T>>, i: nat, j: nat, s: seq<Elem<T>>)
    requires 1 <= i < j < |c| && Relinked(c, i, i, j) && s == c[..j]
    ensures Closed(s)
  {
    forall m | 0 <= m < |s|
      ensures s[m].next in s
    {
      var n := NextAfter(i, i, j, m);
      assert c[m].next == c[n] && s[n] == c[n];
    }
  }

  /** A splice further into the block leaves the list without it. */
  lemma LinkedAround<T>(c: seq<Elem<T>>, k: nat, i: nat, j: nat, a: seq<Elem<T>>, b: seq<Elem<T>>)
    requires 1 <= i < k < j < |c| && Relinked(c, k, i, j) && c[|c| - 1].next == null
    requires a == c[..i] && b == c[j..]
    ensures Linked(a + b) && Closed(a + b) && c[k - 1].next == c[i] && c[j - 1].next == c[k]
  {
    Stretch(c, k, i, j, 0, i);
    Stretch(c, k, i, j, j, |c|);
    assert c[i - 1].next == c[j] && c[j].prev == c[i - 1];
    JoinLinked(a, b);
    LinkedClosed(a + b);
  }

  lemma LinkedClosed<T>(s: seq<Elem<T>>)
    requires Linked(s) && s != [] && s[|s| - 1].next == null
    ensures Closed(s)
  {
    forall m | 0 <= m < |s| && s[m].next != null
      ensures s[m].next in s
    {
      assert s[m].next == s[m + 1];
    }
  }

  /** No link leads out of these elements. */
  ghost predicate Closed<T>(s: seq<Elem<T>>)
    reads s
  {
    forall m {:trigger s[m].next} :: 0 <= m < |s| && s[m].next != null ==> s[m].next in s
  }

  lemma {:induction false} StaysIn<T>(way: seq<Elem<T>>, s: seq<Elem<T>>, k: nat)
    requires k < |way| && Walk(way, way[0]) && way[0] in s && Closed(s)
    ensures way[k] in s
  {
    if k > 0 {
      StaysIn(way, s, k - 1);
      var m :| 0 <= m < |s| && s[m] == way[k - 1];
      assert way[k - 1].next == way[k];
    }
  }

  /** Ways from an element of a closed part stay in it. */
  lemma StaysClosed<T>(s: seq<Elem<T>>, head: Elem<T>)
    requires Closed(s) && head in s
    ensures forall way: seq<Elem<T>>, e :: Walk(way, head) && e in way ==> e in s
  {
    forall way: seq<Elem<T>>, e | Walk(way, head) && e in way
      ensures e in s
    {
      var m :| 0 <= m < |way| && way[m] == e;
      StaysIn(way, s, m);
    }
  }

  /** After a splice before the block's own first element no way leads to the tail. */
  lemma LostTail<T>(c: seq<Elem<T>>, i: nat, j: nat, head: Elem<T>, tail: Elem<T>)
    requires 1 <= i < j < |c| && Distinct(c) && head == c[0] && tail == c[|c| - 1] && Relinked(c, i, i, j)
    ensures forall way: seq<Elem<T>> :: !Leads(way, head, tail)
  {
    var s := c[..j];
    ClosedFront(c, i, j, s);
    assert s[0] == head;
    StaysClosed(s, head);
    DistinctFrom(c, |c| - 1);
    forall way: seq<Elem<T>> | Walk(way, head)
      ensures way[|way| - 1] != tail
    {
      assert way[|way| - 1] in way;
    }
  }

  /** After a splice further into the block no way reaches it. */
  lemma LostBlock<T>(c: seq<Elem<T>>, k: nat, i: nat, j: nat, head: Elem<T>, tail: Elem<T>)
    requires 1 <= i < k < j < |c| && NoDup(c) && head == c[0] && tail == c[|c| - 1] && tail.next == null
    requires Relinked(c, k, i, j)
    ensures Linked(c[..i] + c[j..]) && c[k - 1].next == c[i] && c[j - 1].next == c[k]
    ensures forall way: seq<Elem<T>>, e :: Walk(way, head) && e in c[i..j] ==> e !in way
  {
    var s := c[..i] + c[j..];
    LinkedAround(c, k, i, j, c[..i], c[j..]);
    assert s[0] == head;
    StaysClosed(s, head);
    assert forall e :: e in c[i..j] ==> e !in s;
  }

  lemma NotWhole<T>(c: seq<Elem<T>>, way: seq<Elem<T>>, e: Elem<T>)
    requires e in c && e !in way
    ensures multiset(way) != multiset(c)
  {
    assert e in multiset(c) && e !in multiset(way);
  }

  /** What is left of a list whose block was spliced into itself. */
  lemma Broken<T>(c: seq<Elem<T>>, k: nat, i: nat, j: nat, head: Elem<T>, tail: Elem<T>)
    requires 1 <= i <= k < j < |c| && Distinct(c) && head == c[0] && tail == c[|c| - 1] && tail.next == null
    requires Relinked(c, k, i, j)
    ensures k == i ==> forall way: seq<Elem<T>> :: !Leads(way, head, tail)
    ensures k > i ==> Linked(c[..i] + c[j..]) && c[k - 1].next == c[i] && c[j - 1].next == c[k]
    ensures k > i ==> forall way: seq<Elem<T>>, e :: Walk(way, head) && e in c[i..j] ==> e !in way
    ensures forall way: seq<Elem<T>> :: Leads(way, head, tail) ==> multiset(way) != multiset(c)
  {
    if k == i {
      LostTail(c, i, j, head, tail);
    } else {
      DistinctPairs(c);
      LostBlock(c, k, i, j, head, tail);
      assert c[i..j][0] == c[i];
      forall way: seq<Elem<T>> | Leads(way, head, tail)
        ensures multiset(way) != multiset(c)
      {
        NotWhole(c, way, c[i]);
      }
    }
  }

  /** A block move keeps the elements and the ends. */
  lemma SplicedFacts<X>(c: seq<X>, k: nat, i: nat, j: nat, s: seq<X>, repr: set<X>)
    requires 1 <= i <= j < |c| && 1 <= k < |c| && Distinct(c) && Within(c, repr)
    requires Outside(k, i, j) && s == Spliced(c, k, i, j)
    ensures multiset(s) == multiset(c) && Distinct(s) && Within(s, repr)
    ensures |s| == |c| && s[0] == c[0] && s[|s| - 1] == c[|c| - 1] && (i == j ==> s == c)
  {
    SplicedPermutes(c, k, i, j);
    DistinctPermuted(c, s);
    SplicedParts(c, k, i, j);
  }

  lemma SplicedLinked<T>(c: seq<Elem<T>>, k: nat, i: nat, j: nat, s: seq<Elem<T>>, repr: set<Elem<T>>)
    requires 1 <= i <= j < |c| && 1 <= k < |c| && Distinct(c) && Within(c, repr)
    requires Outside(k, i, j) && s == Spliced(c, k, i, j)
    requires var ready := Respliced(c, k, i, j); ready
    ensures multiset(s) == multiset(c) && Distinct(s) && Within(s, repr) && Linked(s)
    ensures |s| == |c| && s[0] == c[0] && s[|s| - 1] == c[|c| - 1]
  {
    SplicedFacts(c, k, i, j, s, repr);
    if i < j { RelinkedOutside(c, k, i, j); }
  }

  class List<T(!new)> {
    const head: Elem<T>
    const tail: Elem<T>
    /** The chain from `head` to `tail`, sentinels included. */
    ghost var full: seq<Elem<T>>
    /** The nodes the list may rewrite. */
    ghost var repr: set<Elem<T>>

    /** `Valid`, but for the links between the elements. */
    ghost predicate Sound()
      reads this, repr
    {
      && Within(full, repr)
      && |full| >= 2 && full[0] == head && full[|full| - 1] == tail
      && Distinct(full) && head.prev == null && tail.next == null
    }

    ghost predicate Valid()
      reads this, repr
    {
      Sound() && Linked(full)
    }

    /** The interior elements, front to back. */
    ghost function Contents(): seq<Elem<T>>
      reads this
      requires |full| >= 2
    {
      full[1..|full| - 1]
    }

    constructor (head: Elem<T>, tail: Elem<T>)
      requires head != tail
      modifies head, tail
      ensures Valid() && this.head == head && this.tail == tail && Contents() == [] && repr == {head, tail}
    {
      this.head, this.tail := head, tail;
      full, repr := [head, tail], {head, tail};
      new;
      head.prev := null;
      head.next := tail;
      tail.prev := head;
      tail.next := null;
    }

    method Empty() returns (b: bool)
      requires Valid()
      ensures b <==> Contents() == []
    {
      assert full[0].next == full[1];
      b := head.next == tail;
      if |full| > 2 { DistinctAt(full, 1, |full| - 1); }
    }

    /** Inserts `elem` just before `before`, the element at index `k`. */
    method Insert(before: Elem<T>, elem: Elem<T>, ghost k: nat)
      requires Valid() && 1 <= k < |full| && full[k] == before && elem !in full
      modifies this, repr, elem
      ensures Valid() && full == old(full[..k] + [elem] + full[k..]) && repr == old(repr) + {elem}
    {
      ghost var a, b := full[..k], full[k..];
      assert full == a + b;
      InsertedDistinct(a, elem, b);
      CutLinked(a, b);
      Seams(a, [elem], b);
      Link(before, elem, elem, a, [elem], b, full[k - 1]);
      full, repr := a + [elem] + b, repr + {elem};
    }

    method PushBack(elem: Elem<T>)
      requires Valid() && elem !in full
      modifies this, repr, elem
      ensures Valid() && Contents() == old(Contents()) + [elem] && repr == old(repr) + {elem}
    {
      Insert(tail, elem, |full| - 1);
    }

    method PushFront(elem: Elem<T>)
      requires Valid() && elem !in full
      modifies this, repr, elem
      ensures Valid() && Contents() == [elem] + old(Contents()) && repr == old(repr) + {elem}
    {
      assert full[0].next == full[1];
      Insert(head.next, elem, 1);
    }

    /** Takes `elem`, the element at index `k`, out of the list and returns its successor. */
    method Remove(elem: Elem<T>, ghost k: nat) returns (next: Elem<T>)
      requires Valid() && 1 <= k < |full| - 1 && full[k] == elem
      modifies this, repr
      ensures Valid() && full == old(full[..k] + full[k + 1..]) && repr == old(repr) - {elem}
      ensures next == full[k]
    {
      ghost var a, b := full[..k], full[k + 1..];
      assert full == a + [elem] + b;
      CutLinked(a + [elem], b);
      CutLinked(a, [elem]);
      RemovedDistinct(a, elem, b);
      Seams(a, [elem], b);
      next := elem.next;
      Unlink(elem, elem, a, [elem], b, full[k - 1], full[k + 1]);
      full, repr := a + b, repr - {elem};
    }

    method PopFront() returns (front: Elem<T>)
      requires Valid() && Contents() != []
      modifies this, repr
      ensures Valid() && [front] + Contents() == old(Contents()) && repr == old(repr) - {front}
    {
      assert full[0].next == full[1];
      front := head.next;
      var _ := Remove(front, 1);
    }

    /** list_splice: moves the elements from `first` up to, not including, `last` to just
        before `before`.  They sit at indices `i` to `j`, `before` at `k`.  A target inside the
        block breaks the list: before the block's first element no way leads from the head to
        the tail any more; further in, the list is linked without the block, which is left in
        two rings that no way from the head reaches. */
    method Splice(before: Elem<T>, first: Elem<T>, last: Elem<T>, ghost k: nat, ghost i: nat, ghost j: nat)
      requires Valid() && 1 <= k < |full| && 1 <= i <= j < |full|
      requires full[k] == before && full[i] == first && full[j] == last
      modifies this, repr
      ensures repr == old(repr)
      ensures Outside(k, i, j) ==> Valid() && full == old(Spliced(full, k, i, j))
      ensures k == i < j ==> forall way: seq<Elem<T>> :: !Leads(way, head, tail)
      ensures i < k < j ==> Linked(old(full[..i] + full[j..])) && old(full[k - 1]).next == first
                            && old(full[j - 1]).next == before
      ensures i < k < j ==> forall way: seq<Elem<T>>, e ::
                Walk(way, head) && e in old(full[i..j]) ==> e !in way
      ensures Outside(k, i, j) <==>
              exists way: seq<Elem<T>> :: Leads(way, head, tail) && multiset(way) == multiset(old(full))
    {
      SpliceLinks(before, first, last, k, i, j);
      if Outside(k, i, j) {
        Settle(k, i, j, Spliced(full, k, i, j));
        ValidLeads();
      } else {
        Broken(full, k, i, j, head, tail);
      }
    }

    lemma ValidLeads()
      requires Valid()
      ensures Leads(full, head, tail)
    {
    }

    /** The code of list_splice. */
    method SpliceLinks(before: Elem<T>, first: Elem<T>, last: Elem<T>, ghost k: nat, ghost i: nat, ghost j: nat)
      requires Valid() && 1 <= k < |full| && 1 <= i <= j < |full|
      requires full[k] == before && full[i] == first && full[j] == last
      modifies repr
      ensures var ready := Sound() && Respliced(full, k, i, j); ready
    {
      if i < j { DistinctAt(full, i, j); }
      if first != last {
        assert full[j].prev == full[j - 1];
        Rewire(before, first, last.prev, full, k, i, j);
      }
    }

    /** After a splice outside the block, the list is the rearranged one. */
    ghost method Settle(k: nat, i: nat, j: nat, s: seq<Elem<T>>)
      requires 1 <= k < |full| && 1 <= i <= j < |full| && Outside(k, i, j) && s == Spliced(full, k, i, j)
      requires var ready := Sound() && Respliced(full, k, i, j); ready
      modifies `full
      ensures var valid := Valid(); valid
      ensures full == s && multiset(s) == multiset(old(full))
    {
      SplicedLinked(full, k, i, j, s, repr);
      Become(s);
    }

    ghost method Become(s: seq<Elem<T>>)
      requires Sound() && |s| >= 2 && s[0] == head && s[|s| - 1] == tail
      requires Within(s, repr) && Distinct(s) && Linked(s)
      modifies `full
      ensures var valid := Valid(); valid && full == s
    {
      full := s;
    }

    method MoveBlock(before: Elem<T>, first: Elem<T>, last: Elem<T>, ghost k: nat, ghost i: nat, ghost j: nat,
                     ghost s: seq<Elem<T>>)
      requires Valid() && 1 <= k < |full| && 1 <= i <= j < |full| && Outside(k, i, j) && s == Spliced(full, k, i, j)
      requires full[k] == before && full[i] == first && full[j] == last
      modifies this, repr
      ensures var valid := Valid(); valid
      ensures full == s && repr == old(repr)
    {
      SpliceLinks(before, first, last, k, i, j);
      Settle(k, i, j, s);
    }

    /** A block of another list, `from`, which is `a`, the block and `b`, goes between `x`
        and `y`. */
    method SpliceBlock(from: List<T>, before: Elem<T>, first: Elem<T>, last: Elem<T>,
                       ghost x: seq<Elem<T>>, ghost y: seq<Elem<T>>,
                       ghost a: seq<Elem<T>>, ghost block: seq<Elem<T>>, ghost b: seq<Elem<T>>)
      requires Valid() && from.Valid() && from != this && repr !! from.repr && full == x + y
               && from.full == a + block + b
      requires x != [] && y != [] && a != [] && block != [] && b != [] && before == y[0] && first == block[0]
               && last == b[0]
      modifies this, from, repr, from.repr
      ensures Valid() && repr !! from.repr && full == x + block + y && from.full == a + b
      ensures var valid := from.Valid(); valid
    {
      ghost var moved := set e | e in block;
      Carried(x, y, a, block, b, moved, repr, from.repr);
      Carry(before, first, last, x, y, a, block, b);
      full, repr := x + block + y, repr + moved;
      from.full, from.repr := a + b, from.repr - moved;
    }

    /** Splice from another list, `from`. */
    method SpliceFrom(from: List<T>, before: Elem<T>, first: Elem<T>, last: Elem<T>, ghost k: nat, ghost i: nat,
                      ghost j: nat)
      requires Valid() && from.Valid() && from != this && repr !! from.repr
      requires 1 <= k < |full| && 1 <= i <= j < |from.full|
      requires full[k] == before && from.full[i] == first && from.full[j] == last
      modifies this, from, repr, from.repr
      ensures Valid() && repr !! from.repr
      ensures full == old(full[..k] + from.full[i..j] + full[k..]) && from.full == old(from.full[..i] + from.full[j..])
      ensures var valid := from.Valid(); valid
    {
      ghost var x, y := full, from.full;
      assert y[..i] + y[i..j] + y[j..] == y && x[..k] + x[k..] == x;
      if first == last {
        if i < j { DistinctAt(y, i, j); }
        assert x[..k] + y[i..j] + x[k..] == x && y[..i] + y[j..] == y;
        return;
      }
      SpliceBlock(from, before, first, last, x[..k], x[k..], y[..i], y[i..j], y[j..]);
    }

    /** Finds the end of the run that starts at `a`, index `i`, looking no
        further than `b`, index `j`. */
    method FindEndOfRun(less: Less<T>, a: Elem<T>, b: Elem<T>, ghost i: nat, ghost j: nat, ghost s: seq<Elem<T>>)
      returns (e: Elem<T>, ghost n: nat)
      requires Valid() && 1 <= i < j < |full| && full[i] == a && full[j] == b && s == full[i..j]
      ensures n == i + RunLength(less, s) && e == full[n] && (e == b <==> n == j)
    {
      assert a.next == full[i + 1] && full[i + 1].prev == full[i];
      e, n := a.next, i + 1;
      while e != b && !less(e.item, e.prev.item)
        invariant i < n <= j && e == full[n] && e.prev == full[n - 1]
        invariant forall p :: i < p < n ==> !less(full[p].item, full[p - 1].item)
        decreases j - n
      {
        assert full[n].next == full[n + 1] && full[n + 1].prev == full[n];
        e, n := e.next, n + 1;
      }
      if n < j { DistinctAt(full, n, j); }
      forall p | 1 <= p < n - i
        ensures !less(s[p].item, s[p - 1].item)
      {
        assert s[p] == full[i + p] && s[p - 1] == full[i + p - 1];
      }
      RunEndUnique(less, s, n - i);
    }

    /** Moves `e`, which follows the block `x`, ahead of `a`, the head of `x`. */
    method MoveAhead(a: Elem<T>, e: Elem<T>, ghost front: seq<Elem<T>>, ghost x: seq<Elem<T>>,
                     ghost rest: seq<Elem<T>>, ghost moved: seq<Elem<T>>)
      returns (next: Elem<T>)
      requires Valid() && front != [] && x != [] && rest != [] && full == front + x + [e] + rest && a == x[0]
      requires moved == front + [e] + x + rest
      modifies this, repr
      ensures Valid() && repr == old(repr) && full == moved
      ensures next == rest[0]
    {
      ghost var p, q := |front|, |front| + |x|;
      assert full[q] == e && full[q + 1] == rest[0] && full[p] == a;
      assert full[q].next == full[q + 1] && full[q + 1].prev == full[q];
      SplicedOne(full, front, x, e, rest, moved);
      next := e.next;
      MoveBlock(a, next.prev, next, p, q, q + 1, moved);
    }

    /** One round of the merge loop: `front` is done, `x` and `y` are still to be
        merged; either `a` stays or `b` moves ahead of it. */
    method MergeStep(less: Less<T>, a: Elem<T>, b: Elem<T>, ghost front: seq<Elem<T>>, ghost x: seq<Elem<T>>,
                     ghost y: seq<Elem<T>>, ghost post: seq<Elem<T>>)
      returns (a': Elem<T>, b': Elem<T>, ghost front': seq<Elem<T>>, ghost x': seq<Elem<T>>, ghost y': seq<Elem<T>>)
      requires Valid() && front != [] && x != [] && y != [] && post != [] && full == front + x + y + post
      requires a == x[0] && b == y[0]
      modifies this, repr
      ensures Valid() && repr == old(repr) && front' != [] && full == front' + x' + y' + post
      ensures a' == (x' + y' + post)[0] && b' == (y' + post)[0]
      ensures front' + Merge(less, x', y') == front + Merge(less, x, y)
      ensures |x'| + |y'| < |x| + |y|
    {
      if !less(b.item, a.item) {
        MergeKeep(less, front, x, y);
        PartsKeep(front, x, y, post);
        NextHead(front, x, y + post);
        front', x', y' := front + [x[0]], x[1..], y;
        a', b' := a.next, b;
      } else {
        MergeMove(less, front, x, y);
        PartsMove(front, x, y, post);
        front', x', y' := front + [y[0]], x, y[1..];
        b' := MoveAhead(a, b, front, x, y[1..] + post, front' + x' + y' + post);
        a' := a;
      }
    }

    /** Merges the run `x0` with the adjacent run `y0`; the runs start at `a0` and
        `a1b0`, and `b1` is the element behind them. */
    method InplaceMerge(less: Less<T>, a0: Elem<T>, a1b0: Elem<T>, b1: Elem<T>,
                        ghost pre: seq<Elem<T>>, ghost x0: seq<Elem<T>>, ghost y0: seq<Elem<T>>,
                            ghost post: seq<Elem<T>>)
      requires Valid() && pre != [] && post != [] && full == pre + x0 + y0 + post
      requires a0 == (x0 + y0 + post)[0] && a1b0 == (y0 + post)[0] && b1 == post[0]
      modifies this, repr
      ensures Valid() && repr == old(repr)
      ensures full == pre + Merge(less, x0, y0) + post
    {
      ghost var front, x, y := pre, x0, y0;
      var a, b := a0, a1b0;
      while a != b && b != b1
        invariant Valid() && repr == old(repr)
        invariant front != [] && full == front + x + y + post
        invariant a == (x + y + post)[0] && b == (y + post)[0]
        invariant front + Merge(less, x, y) == pre + Merge(less, x0, y0)
        decreases |x| + |y|
      {
        HeadsDiffer(x, y, post);
        a, b, front, x, y := MergeStep(less, a, b, front, x, y, post);
      }
      HeadsMeet(front, x, y, post);
      PartsDone(front, x, y, post, Merge(less, x, y));
    }

    /** Merges the first two runs of `rest`, which starts at `a0`, and returns the
        element behind them. */
    method MergeFirst(less: Less<T>, a0: Elem<T>, ghost done: seq<Elem<T>>, ghost rest: seq<Elem<T>>)
        returns (b1: Elem<T>)
      requires Valid() && full == [head] + done + rest + [tail] && rest != [] && a0 == rest[0]
      modifies this, repr
      ensures Valid() && repr == old(repr)
      ensures full == [head] + (done + FirstOut(less, rest)) + FirstRest(less, rest) + [tail]
      ensures b1 == (FirstRest(less, rest) + [tail])[0]
    {
      ghost var i, t := 1 + |done|, |full| - 1;
      RestSlices(head, done, rest, tail, full);
      var a1b0; ghost var j;
      a1b0, j := FindEndOfRun(less, a0, tail, i, t, rest);
      if a1b0 == tail {
        RestSingle(head, done, rest, tail);
        return tail;
      }
      ghost var n := j - i;
      ghost var k;
      b1, k := FindEndOfRun(less, a1b0, tail, j, t, rest[n..]);
      ghost var m := k - i;
      FirstPair(less, rest, n, m);
      RestParts(head, done, rest, tail, n, m);
      InplaceMerge(less, a0, a1b0, b1, [head] + done, rest[..n], rest[n..m], rest[m..] + [tail]);
      RestMerged(head, done, FirstOut(less, rest), FirstRest(less, rest), tail);
    }

    /** One pass of the sort: merges runs pairwise and counts the runs it puts out. */
    method MergePass(less: Less<T>) returns (cnt: nat)
      requires Valid()
      modifies this, repr
      ensures Valid() && repr == old(repr)
      ensures Contents() == Pass(less, old(Contents())) && cnt == PassCount(less, old(Contents()))
    {
      ghost var s, done, rest := Contents(), [], Contents();
      RestAll(head, full, tail);
      assert full[0].next == full[1];
      cnt := 0;
      var a0 := head.next;
      while a0 != tail
        invariant Valid() && repr == old(repr)
        invariant full == [head] + done + rest + [tail]
        invariant a0 == (rest + [tail])[0]
        invariant done + Pass(less, rest) == Pass(less, s)
        invariant cnt + PassCount(less, rest) == PassCount(less, s)
        decreases |rest|
      {
        assert rest != [];
        cnt := cnt + 1;
        a0 := MergeFirst(less, a0, done, rest);
        Regroup(done, FirstOut(less, rest), Pass(less, FirstRest(less, rest)));
        done, rest := done + FirstOut(less, rest), FirstRest(less, rest);
      }
      RestNone(head, done, rest, tail, full);
    }

    /** Sorts the list.  Each pass at least halves the number of runs, rounding
        up, so the passes end; then one run is left. */
    method Sort(less: Less<T>)
      requires Valid() && StrictWeakOrder(less)
      modifies this, repr
      ensures Valid() && repr == old(repr)
      ensures Sorted(less, Contents()) && Stable(less, old(Contents()), Contents())
      ensures multiset(Contents()) == multiset(old(Contents()))
    {
      ghost var before := Contents();
      var cnt := MergePass(less);
      PassStable(less, before);
      while cnt > 1
        invariant Valid() && repr == old(repr)
        invariant Contents() == Pass(less, before) && cnt == PassCount(less, before)
        invariant Stable(less, old(Contents()), Contents())
        decreases cnt
      {
        PassRuns(less, before);
        before := Contents();
        PassCountHalves(less, before);
        PassStable(less, before);
        cnt := MergePass(less);
      }
      LastPassSorts(less, before);
      StableIsPermutation(less, old(Contents()), Contents());
    }

    /** Inserts `elem` before the first element it is less than. */
    method InsertOrdered(less: Less<T>, elem: Elem<T>) returns (ghost k: nat)
      requires Valid() && elem !in full
      modifies this, repr, elem
      ensures Valid() && repr == old(repr) + {elem}
      ensures IsInsertionPoint(less, old(Contents()), elem.item, k)
      ensures Contents() == old(Contents()[..k] + ([elem] + Contents()[k..]))
    {
      assert full[0].next == full[1];
      var e := head.next;
      k := 0;
      while e != tail && !less(elem.item, e.item)
        invariant Valid() && full == old(full) && repr == old(repr)
        invariant k + 1 < |full| && e == full[k + 1]
        invariant forall i :: 0 <= i < k ==> !less(elem.item, Contents()[i].item)
        decreases |full| - k
      {
        assert full[k + 1].next == full[k + 2];
        e, k := e.next, k + 1;
      }
      if k + 1 < |full| - 1 { DistinctAt(full, k + 1, |full| - 1); }
      Insert(e, elem, k + 1);
      Interior(old(full), k + 1, elem);
    }

    /** Exchanges the two links of every interior element. */
    method ExchangeLinks()
      requires Valid() && |full| > 2
      modifies repr
      ensures forall q {:trigger full[q].next} :: 1 <= q < |full| - 1 ==> full[q].next == full[q - 1]
      ensures forall q {:trigger full[q].prev} :: 1 <= q < |full| - 1 ==> full[q].prev == full[q + 1]
      ensures head.next == full[1] && tail.prev == full[|full| - 2] && head.prev == null && tail.next == null
    {
      ghost var n := |full| - 1;
      assert full[0].next == full[1] && full[n].prev == full[n - 1];
      var e := head.next;
      ghost var i := 1;
      while e != tail
        invariant 1 <= i <= n && e == full[i]
        invariant forall q {:trigger full[q].next} :: 1 <= q < n ==>
                    full[q].next == if q < i then full[q - 1] else full[q + 1]
        invariant forall q {:trigger full[q].prev} :: 1 <= q < n ==>
                    full[q].prev == if q < i then full[q + 1] else full[q - 1]
        invariant head.next == full[1] && tail.prev == full[n - 1] && head.prev == null && tail.next == null
        decreases n - i
      {
        DistinctFrom(full, i);
        assert full[i].next == full[i + 1] && full[i].prev == full[i - 1];
        e.prev, e.next := e.next, e.prev;
        e, i := e.prev, i + 1;
      }
    }

    /** Attaches the sentinels to a chain whose links have been exchanged. */
    method MendEnds()
      requires |full| > 2 && full[0] == head && full[|full| - 1] == tail && Distinct(full) && Within(full, repr)
      requires full[1].next == head && full[|full| - 2].prev == tail
      requires head.next == full[1] && tail.prev == full[|full| - 2]
      modifies repr
      ensures head.next == full[|full| - 2] && full[|full| - 2].prev == head
      ensures tail.prev == full[1] && full[1].next == tail
      ensures forall q {:trigger full[q].next} :: 1 < q < |full| - 1 ==> full[q].next == old(full[q].next)
      ensures forall q {:trigger full[q].prev} :: 1 <= q < |full| - 2 ==> full[q].prev == old(full[q].prev)
      ensures head.prev == old(head.prev) && tail.next == old(tail.next)
    {
      ghost var n := |full| - 1;
      DistinctFrom(full, 0);
      DistinctFrom(full, n);
      DistinctFrom(full, 1);
      DistinctFrom(full, n - 1);
      head.next, tail.prev := tail.prev, head.next;
      head.next.prev, tail.prev.next := tail.prev.next, head.next.prev;
    }

    /** Turns the list around by exchanging the links of every element and then
        mending the ends. */
    method Reverse()
      requires Valid()
      modifies this, repr
      ensures Valid() && repr == old(repr) && Contents() == Reversed(old(Contents()))
    {
      var empty := Empty();
      if empty {
        return;
      }
      ExchangeLinks();
      MendEnds();
      TurnedLinked(full);
      TurnedPermutes(full);
      DistinctPermuted(full, Turned(full));
      full := Turned(full);
    }
  }

  lemma InsertedDistinct<X>(a: seq<X>, e: X, b: seq<X>)
    requires Distinct(a + b) && e !in a + b
    ensures Distinct(a + [e] + b)
  {
    var s := a + [e] + b;
    assert multiset(s) == multiset(a + b) + multiset{e};
    forall x | x in s
      ensures multiset(s)[x] == 1
    {
      if x != e { assert x in a + b; }
    }
  }

  lemma RemovedDistinct<X>(a: seq<X>, e: X, b: seq<X>)
    requires Distinct(a + [e] + b)
    ensures Distinct(a + b) && e !in a + b
  {
    var s, t := a + [e] + b, a + b;
    assert multiset(s) == multiset(t) + multiset{e};
    assert e in s && multiset(s)[e] == 1;
    forall x | x in t
      ensures multiset(t)[x] == 1 && x != e
    {
      assert x in multiset(t) && x in s && multiset(s)[x] == 1;
    }
  }

  /** Moving one element over a block. */
  lemma SplicedOne<X>(s: seq<X>, front: seq<X>, x: seq<X>, e: X, rest: seq<X>, moved: seq<X>)
    requires front != [] && x != [] && rest != [] && s == front + x + [e] + rest && moved == front + [e] + x + rest
    ensures Spliced(s, |front|, |front| + |x|, |front| + |x| + 1) == moved
  {
    var p := |front|;
    assert s[..p] == front && s[p + |x|..p + |x| + 1] == [e];
    assert s[p..p + |x|] == x && s[p + |x| + 1..] == rest;
  }

  lemma MergeKeep<T>(less: Less<T>, done: seq<Elem<T>>, a: seq<Elem<T>>, b: seq<Elem<T>>)
    requires a != [] && b != [] && !less(b[0].item, a[0].item)
    ensures (done + [a[0]]) + Merge(less, a[1..], b) == done + Merge(less, a, b)
  {
  }

  lemma MergeMove<T>(less: Less<T>, done: seq<Elem<T>>, a: seq<Elem<T>>, b: seq<Elem<T>>)
    requires a != [] && b != [] && less(b[0].item, a[0].item)
    ensures (done + [b[0]]) + Merge(less, a, b[1..]) == done + Merge(less, a, b)
  {
  }

  /** Moves a block from the chain of `a`, the block and `b` to between `x` and `y`. */
  method Carry<T>(before: Elem<T>, first: Elem<T>, last: Elem<T>, ghost x: seq<Elem<T>>, ghost y: seq<Elem<T>>,
                  ghost a: seq<Elem<T>>, ghost block: seq<Elem<T>>, ghost b: seq<Elem<T>>)
    requires x != [] && y != [] && a != [] && block != [] && b != []
    requires before == y[0] && first == block[0] && last == b[0]
    requires Linked(x + y) && Linked(a + block + b) && Distinct(x + y) && Distinct(a + block + b)
    requires forall e :: e in x + y ==> e !in a + block + b
    modifies set e | e in x + y, set e | e in a + block + b
    ensures Linked(x + block + y) && Linked(a + b) && Distinct(x + block + y) && Distinct(a + b)
    ensures (forall e :: e in x + block + y <==> e in x + y || e in block) && (forall e :: e in a + b ==> e !in block)
    ensures x[0].prev == old(x[0].prev) && y[|y| - 1].next == old(y[|y| - 1].next)
    ensures a[0].prev == old(a[0].prev) && b[|b| - 1].next == old(b[|b| - 1].next)
  {
    CutLinked(a + block, b);
    CutLinked(a, block);
    CutLinked(x, y);
    Seams(a, block, b);
    DistinctParts(x, y, a, block, b);
    Seams(x, block, y);
    Foreign(x, y, a, block, b);
    var final := last.prev;
    Unlink(first, final, a, block, b, a[|a| - 1], b[0]);
    Link(before, first, final, x, block, y, x[|x| - 1]);
  }

  lemma DistinctParts<X>(x: seq<X>, y: seq<X>, a: seq<X>, block: seq<X>, b: seq<X>)
    requires Distinct(x + y) && Distinct(a + block + b) && forall e :: e in x + y ==> e !in a + block + b
    ensures Distinct(x + block + y) && Distinct(a + b)
    ensures (forall e :: e in x + block + y <==> e in x + y || e in block) && (forall e :: e in a + b ==> e !in block)
  {
    assert multiset(x + block + y) == multiset(x + y) + multiset(block);
    assert multiset(a + block + b) == multiset(a + b) + multiset(block);
    forall e
      ensures e in x + block + y ==> multiset(x + block + y)[e] == 1
      ensures e in a + b ==> multiset(a + b)[e] == 1 && e !in block
      ensures e in x + block + y <==> e in x + y || e in block
    {
      Counts(x + y, block, e);
      Counts(a + b, block, e);
      assert (e in x + block + y <==> e in x || e in block || e in y)
             && (e in a + block + b <==> e in a || e in block || e in b);
      assert e in a + block + b ==> multiset(a + block + b)[e] == 1;
      assert e in x + y ==> multiset(x + y)[e] == 1;
    }
  }

  /** What a block that goes from one chain to another leaves of their ends and nodes. */
  lemma Carried<X>(x: seq<X>, y: seq<X>, a: seq<X>, block: seq<X>, b: seq<X>, moved: set<X>, p: set<X>, q: set<X>)
    requires x != [] && y != [] && a != [] && b != [] && moved == (set e | e in block)
    requires Within(x + y, p) && Within(a + block + b, q) && p !! q && Distinct(a + block + b)
    ensures Within(x + block + y, p + moved) && Within(a + b, q - moved) && p + moved !! q - moved
    ensures (x + block + y)[0] == (x + y)[0] && (x + block + y)[|x + block + y| - 1] == (x + y)[|x + y| - 1]
    ensures (a + b)[0] == (a + block + b)[0] && (a + b)[|a + b| - 1] == (a + block + b)[|a + block + b| - 1]
  {
    DistinctParts([], [], a, block, b);
    forall e | e in a + b ensures e in a + block + b {}
    forall e | e in x + block + y ensures e in x + y || e in block {}
  }

  lemma Counts<X>(s: seq<X>, t: seq<X>, e: X)
    ensures (e in s <==> multiset(s)[e] > 0) && (e in t <==> multiset(t)[e] > 0)
  {
    assert (e in s <==> e in multiset(s)) && (e in t <==> e in multiset(t));
  }

  /** What the ends of the parts of two chains without common elements are not. */
  lemma Foreign<X>(x: seq<X>, y: seq<X>, a: seq<X>, block: seq<X>, b: seq<X>)
    requires x != [] && y != [] && a != [] && block != [] && b != []
    requires forall e :: e in x + y ==> e !in a + block + b
    ensures forall t :: 0 <= t < |a| ==> a[t] != x[|x| - 1] && a[t] != y[0]
    ensures forall t :: 0 <= t < |b| ==> b[t] != x[|x| - 1] && b[t] != y[0]
    ensures forall t :: 0 <= t < |x| ==> x[t] != a[|a| - 1] && x[t] != b[0]
    ensures forall t :: 0 <= t < |y| ==> y[t] != a[|a| - 1] && y[t] != b[0]
  {
    forall e | e in x || e in y
      ensures e !in a && e !in b
    {
      assert e in x + y && (e in a || e in b ==> e in a + block + b);
    }
    assert x[|x| - 1] in x && y[0] in y && a[|a| - 1] in a && b[0] in b;
  }

  lemma HeadsDiffer<X>(x: seq<X>, y: seq<X>, post: seq<X>)
    requires post != [] && (x + y + post)[0] != (y + post)[0] && (y + post)[0] != post[0]
    ensures x != [] && y != [] && (x + y + post)[0] == x[0] && (y + post)[0] == y[0]
  {
    assert x == [] ==> x + y + post == y + post;
    assert y == [] ==> y + post == post;
  }

  lemma HeadsMeet<X>(front: seq<X>, x: seq<X>, y: seq<X>, post: seq<X>)
    requires Distinct(front + x + y + post) && post != []
    requires (x + y + post)[0] == (y + post)[0] || (y + post)[0] == post[0]
    ensures x == [] || y == []
  {
    var s, n, m := front + x + y + post, |front|, |front| + |x|;
    if x != [] && y != [] {
      assert s[n] == x[0] && s[m] == y[0] && s[m + |y|] == post[0];
      DistinctAt(s, n, m);
      DistinctAt(s, m, m + |y|);
    }
  }

  lemma PartsKeep<X>(front: seq<X>, x: seq<X>, y: seq<X>, post: seq<X>)
    requires x != []
    ensures front + x + y + post == front + x + (y + post)
    ensures front + x + y + post == (front + [x[0]]) + x[1..] + y + post
    ensures x[1..] + (y + post) == x[1..] + y + post
  {
    assert x == [x[0]] + x[1..];
  }

  lemma PartsMove<X>(front: seq<X>, x: seq<X>, y: seq<X>, post: seq<X>)
    requires y != []
    ensures front + x + y + post == front + x + [y[0]] + (y[1..] + post)
    ensures (front + [y[0]]) + x + y[1..] + post == front + [y[0]] + x + (y[1..] + post)
  {
    assert y == [y[0]] + y[1..];
  }

  lemma PartsDone<X>(front: seq<X>, x: seq<X>, y: seq<X>, post: seq<X>, merged: seq<X>)
    requires (x == [] && merged == y) || (y == [] && merged == x)
    ensures front + x + y + post == front + merged + post
  {
  }

  lemma NextHead<T>(front: seq<Elem<T>>, x: seq<Elem<T>>, rest: seq<Elem<T>>)
    requires x != [] && rest != [] && Linked(front + x + rest)
    ensures x[0].next == (x[1..] + rest)[0]
  {
    var s := front + x + rest;
    assert s[|front|] == x[0] && s[|front| + 1] == (x[1..] + rest)[0];
    assert s[|front|].next == s[|front| + 1];
  }

  lemma RestSlices<X>(head: X, done: seq<X>, rest: seq<X>, tail: X, full: seq<X>)
    requires full == [head] + done + rest + [tail]
    ensures |full| == |done| + |rest| + 2
    ensures forall n :: 0 <= n <= |rest| ==> full[1 + |done| + n..|full| - 1] == rest[n..]
    ensures rest == rest[0..]
    ensures forall i :: 0 <= i < |rest| ==> full[1 + |done| + i] == rest[i]
    ensures full[|full| - 1] == tail
  {
  }

  lemma RestParts<X>(head: X, done: seq<X>, rest: seq<X>, tail: X, n: nat, m: nat)
    requires 0 < n < m <= |rest|
    ensures [head] + done + rest + [tail] == ([head] + done) + rest[..n] + rest[n..m] + (rest[m..] + [tail])
    ensures (rest[..n] + rest[n..m] + (rest[m..] + [tail]))[0] == rest[0]
    ensures (rest[n..m] + (rest[m..] + [tail]))[0] == rest[n]
    ensures (rest[m..] + [tail])[0] == if m < |rest| then rest[m] else tail
  {
    assert rest == rest[..n] + rest[n..m] + rest[m..];
  }

  lemma RestSingle<X>(head: X, done: seq<X>, rest: seq<X>, tail: X)
    ensures [head] + done + rest + [tail] == [head] + (done + rest) + [] + [tail]
  {
  }

  lemma RestAll<X>(head: X, full: seq<X>, tail: X)
    requires |full| >= 2 && full[0] == head && full[|full| - 1] == tail
    ensures full == [head] + [] + full[1..|full| - 1] + [tail]
    ensures (full[1..|full| - 1] + [tail])[0] == full[1]
  {
  }

  lemma RestNone<X>(head: X, done: seq<X>, rest: seq<X>, tail: X, full: seq<X>)
    requires full == [head] + done + rest + [tail] && Distinct(full) && (rest + [tail])[0] == tail
    ensures rest == [] && full[1..|full| - 1] == done
  {
    RestSlices(head, done, rest, tail, full);
    if rest != [] {
      DistinctAt(full, 1 + |done|, |full| - 1);
    }
  }

  lemma RestMerged<X>(head: X, done: seq<X>, merged: seq<X>, more: seq<X>, tail: X)
    ensures ([head] + done) + merged + (more + [tail]) == [head] + (done + merged) + more + [tail]
  {
  }

  lemma Interior<X>(full: seq<X>, k: nat, e: X)
    requires 1 <= k < |full|
    ensures var s := full[1..|full| - 1];
            (full[..k] + [e] + full[k..])[1..|full|] == s[..k - 1] + ([e] + s[k - 1..])
  {
    var s, u := full[1..|full| - 1], full[..k] + [e] + full[k..];
    var t := s[..k - 1] + ([e] + s[k - 1..]);
    forall i | 0 <= i < |full| - 1
      ensures u[1..|full|][i] == t[i]
    {
      assert u[i + 1] == if i + 1 < k then full[i + 1] else if i + 1 == k then e else full[i];
      assert t[i] == if i < k - 1 then s[i] else if i == k - 1 then e else s[i - 1];
    }
  }

  /** A chain turned around between its sentinels. */
  ghost function Turned<X>(s: seq<X>): (t: seq<X>)
    requires |s| >= 2
    ensures |t| == |s| && t[0] == s[0] && t[|s| - 1] == s[|s| - 1]
    ensures forall q :: 1 <= q < |s| - 1 ==> t[q] == s[|s| - 1 - q]
    ensures t[1..|s| - 1] == Reversed(s[1..|s| - 1])
  {
    [s[0]] + Reversed(s[1..|s| - 1]) + [s[|s| - 1]]
  }

  /** Exchanging the links of all elements, and fixing the ends, turns a chain. */
  lemma TurnedLinked<T>(c: seq<Elem<T>>)
    requires |c| >= 3
    requires forall q {:trigger c[q].next} :: 1 < q < |c| - 1 ==> c[q].next == c[q - 1]
    requires forall q {:trigger c[q].prev} :: 1 <= q < |c| - 2 ==> c[q].prev == c[q + 1]
    requires c[0].next == c[|c| - 2] && c[|c| - 2].prev == c[0]
    requires c[|c| - 1].prev == c[1] && c[1].next == c[|c| - 1]
    ensures Linked(Turned(c))
  {
    var t, n := Turned(c), |c| - 1;
    forall q | 0 <= q < n
      ensures t[q].next == t[q + 1] && t[q + 1].prev == t[q]
    {
      if 1 <= q < n - 1 {
        assert t[q] == c[n - q] && t[q + 1] == c[n - q - 1];
        assert c[n - q].next == c[n - q - 1] && c[n - q - 1].prev == c[n - q];
      }
    }
  }

  lemma {:induction false} ReversedPermutes<X>(s: seq<X>)
    ensures multiset(Reversed(s)) == multiset(s)
  {
    if s != [] {
      var n := |s| - 1;
      ReversedPermutes(s[..n]);
      assert Reversed(s) == [s[n]] + Reversed(s[..n]);
      assert s == s[..n] + [s[n]];
    }
  }

  lemma TurnedPermutes<X>(s: seq<X>)
    requires |s| >= 2
    ensures multiset(Turned(s)) == multiset(s)
  {
    ReversedPermutes(s[1..|s| - 1]);
    assert s == [s[0]] + s[1..|s| - 1] + [s[|s| - 1]];
  }
}
