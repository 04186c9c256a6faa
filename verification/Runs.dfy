/** Natural merge sort on sequences of list elements: what one pass of the
    kernel's list sort computes, and why repeating passes sorts stably.

    Elements are compared through the `item` they are embedded in.  An element's
    identity is the node itself, so a statement about sequences of elements says
    where every node went, not only which values are present. */
module Runs {

  /** A list element.  `item` stands for the structure the element is embedded
      in; it never changes, the links do. */
  class Elem<T> {
    var prev: Elem?<T>
    var next: Elem?<T>
    const item: T

    constructor (item: T)
      ensures this.item == item && prev == null && next == null
    {
      this.item := item;
      prev, next := null, null;
    }
  }

  type Less<!T> = (T, T) -> bool

  /** Always true: names three items so that a proof can say which instance of
      the order's laws it needs. */
  ghost predicate Triple<T>(x: T, y: T, z: T) {
    true
  }

  /** `less` is a strict weak order: irreflexive, transitive, and "neither is
      less" is transitive. */
  ghost predicate StrictWeakOrder<T(!new)>(less: Less<T>) {
    && (forall x :: !less(x, x))
    && (forall x, y, z {:trigger Triple(x, y, z)} :: less(x, y) && less(y, z) ==> less(x, z))
    && (forall x, y, z {:trigger Triple(x, y, z)} :: less(x, z) ==> less(x, y) || less(y, z))
  }

  /** Equivalent items compare alike with everything. */
  lemma EquivalentAlike<T(!new)>(less: Less<T>, x: T, y: T, z: T)
    requires StrictWeakOrder(less) && Equivalent(less, x, y)
    ensures less(x, z) == less(y, z) && less(z, x) == less(z, y)
  {
    assert Triple(x, y, z) && Triple(y, x, z) && Triple(z, x, y) && Triple(z, y, x);
  }

  /** What is not less than something not less than `x` is not less than `x`. */
  lemma NotLessTransitive<T(!new)>(less: Less<T>, x: T, y: T, z: T)
    requires StrictWeakOrder(less) && !less(y, x) && !less(z, y)
    ensures !less(z, x)
  {
    assert Triple(z, y, x);
  }

  lemma NotBoth<T(!new)>(less: Less<T>, x: T, y: T)
    requires StrictWeakOrder(less) && less(x, y)
    ensures !less(y, x)
  {
    assert Triple(x, y, x);
  }

  lemma LessTransitive<T(!new)>(less: Less<T>, x: T, y: T, z: T)
    requires StrictWeakOrder(less)
    requires less(x, y) && !less(z, y)
    ensures less(x, z)
  {
    assert Triple(x, z, y);
  }

  predicate Equivalent<T>(less: Less<T>, x: T, y: T) {
    !less(x, y) && !less(y, x)
  }

  /** No element is less than an earlier one. */
  ghost predicate Sorted<T>(less: Less<T>, s: seq<Elem<T>>) {
    forall i, j :: 0 <= i < j < |s| ==> !less(s[j].item, s[i].item)
  }

  /** The elements of `s` equivalent to `x`, in the order they have in `s`. */
  ghost function Class<T>(less: Less<T>, s: seq<Elem<T>>, x: T): seq<Elem<T>> {
    if s == [] then []
    else (if Equivalent(less, s[0].item, x) then [s[0]] else []) + Class(less, s[1..], x)
  }

  /** `r` rearranges `s` without changing the relative order of equivalent elements. */
  ghost predicate Stable<T(!new)>(less: Less<T>, s: seq<Elem<T>>, r: seq<Elem<T>>) {
    forall x :: Class(less, r, x) == Class(less, s, x)
  }

  // ---------------------------------------------------------------- classes

  lemma {:induction false} ClassConcat<T>(less: Less<T>, a: seq<Elem<T>>, b: seq<Elem<T>>, x: T)
    ensures Class(less, a + b, x) == Class(less, a, x) + Class(less, b, x)
  {
    if a == [] {
      assert a + b == b;
    } else {
      assert (a + b)[1..] == a[1..] + b;
      ClassConcat(less, a[1..], b, x);
      var front := if Equivalent(less, a[0].item, x) then [a[0]] else [];
      assert front + (Class(less, a[1..], x) + Class(less, b, x)) == (front + Class(less, a[1..], x)) + Class(less,
                                                                                                              b, x);
    }
  }

  /** A class holds an element as often as the sequence does, if the element
      belongs to that class. */
  lemma {:induction false} ClassCounts<T(!new)>(less: Less<T>, s: seq<Elem<T>>, e: Elem<T>)
    requires StrictWeakOrder(less)
    ensures multiset(Class(less, s, e.item))[e] == multiset(s)[e]
  {
    if s != [] {
      assert s == [s[0]] + s[1..];
      ClassCounts(less, s[1..], e);
    }
  }

  /** Stability already implies that nothing was lost, added or duplicated. */
  lemma StableIsPermutation<T(!new)>(less: Less<T>, s: seq<Elem<T>>, r: seq<Elem<T>>)
    requires StrictWeakOrder(less) && Stable(less, s, r)
    ensures multiset(r) == multiset(s)
  {
    forall e: Elem<T>
      ensures multiset(r)[e] == multiset(s)[e]
    {
      ClassCounts(less, r, e);
      ClassCounts(less, s, e);
      assert Class(less, r, e.item) == Class(less, s, e.item);
    }
  }

  lemma {:induction false} ClassEmpty<T>(less: Less<T>, s: seq<Elem<T>>, x: T)
    requires forall i :: 0 <= i < |s| ==> !Equivalent(less, s[i].item, x)
    ensures Class(less, s, x) == []
  {
    if s != [] {
      ClassEmpty(less, s[1..], x);
    }
  }

  lemma {:induction false} ClassMember<T>(less: Less<T>, s: seq<Elem<T>>, x: T, e: Elem<T>)
    requires e in Class(less, s, x)
    ensures e in s && Equivalent(less, e.item, x)
  {
    if s != [] && e in Class(less, s[1..], x) {
      ClassMember(less, s[1..], x, e);
    }
  }

  lemma {:induction false} ClassHasMember<T>(less: Less<T>, s: seq<Elem<T>>, x: T, i: nat)
    requires i < |s| && Equivalent(less, s[i].item, x)
    ensures s[i] in Class(less, s, x)
  {
    if i > 0 {
      ClassHasMember(less, s[1..], x, i - 1);
    }
  }

  /** The head of a sorted sequence starts its own class, and no element of any
      stable rearrangement is less than it. */
  lemma SortedHeads<T(!new)>(less: Less<T>, a: seq<Elem<T>>, b: seq<Elem<T>>)
    requires StrictWeakOrder(less) && Sorted(less, a) && Sorted(less, b) && Stable(less, a, b)
    requires a != []
    ensures b != [] && b[0] == a[0]
  {
    var x := a[0].item;
    assert a[0] in Class(less, b, x);
    ClassMember(less, b, x, a[0]);
    var y := b[0].item;
    assert b[0] in Class(less, a, y);
    ClassMember(less, a, y, b[0]);
    EquivalentAlike(less, a[0].item, b[0].item, x);
    assert Class(less, b, x)[0] == b[0];
    assert Class(less, a, x)[0] == a[0];
  }

  /** A stable sort has exactly one possible answer. */
  lemma {:induction false} StableSortUnique<T(!new)>(less: Less<T>, a: seq<Elem<T>>, b: seq<Elem<T>>)
    requires StrictWeakOrder(less) && Sorted(less, a) && Sorted(less, b) && Stable(less, a, b)
    ensures a == b
  {
    if a == [] {
      if b != [] {
        ClassHasMember(less, b, b[0].item, 0);
      }
    } else {
      SortedHeads(less, a, b);
      assert a == [a[0]] + a[1..] && b == [b[0]] + b[1..];
      forall x
        ensures Class(less, b[1..], x) == Class(less, a[1..], x)
      {
        var front := if Equivalent(less, a[0].item, x) then [a[0]] else [];
        assert front + Class(less, b[1..], x) == Class(less, b, x) == Class(less, a, x) == front + Class(less,
                                                                                                         a[1..], x);
        assert Class(less, b[1..], x) == (front + Class(less, b[1..], x))[|front|..];
        assert Class(less, a[1..], x) == (front + Class(less, a[1..], x))[|front|..];
      }
      StableSortUnique(less, a[1..], b[1..]);
    }
  }

  // ------------------------------------------------------------------ merge

  /** The order in which merging two adjacent runs leaves them: an element of
      the second run moves ahead only of strictly greater elements. */
  ghost function Merge<T>(less: Less<T>, a: seq<Elem<T>>, b: seq<Elem<T>>): (m: seq<Elem<T>>)
    ensures |m| == |a| + |b|
    decreases |a| + |b|
  {
    if a == [] then b
    else if b == [] then a
    else if !less(b[0].item, a[0].item) then [a[0]] + Merge(less, a[1..], b)
    else [b[0]] + Merge(less, a, b[1..])
  }

  lemma {:induction false} MergeMembers<T>(less: Less<T>, a: seq<Elem<T>>, b: seq<Elem<T>>, e: Elem<T>)
    requires e in Merge(less, a, b)
    ensures e in a || e in b
    decreases |a| + |b|
  {
    if a == [] || b == [] {
    } else if !less(b[0].item, a[0].item) {
      if e != a[0] { MergeMembers(less, a[1..], b, e); }
    } else {
      if e != b[0] { MergeMembers(less, a, b[1..], e); }
    }
  }

  lemma SortedCons<T>(less: Less<T>, e: Elem<T>, s: seq<Elem<T>>)
    requires Sorted(less, s) && forall y :: y in s ==> !less(y.item, e.item)
    ensures Sorted(less, [e] + s)
  {
  }

  lemma SortedTail<T>(less: Less<T>, s: seq<Elem<T>>)
    requires Sorted(less, s) && s != []
    ensures Sorted(less, s[1..])
  {
  }

  lemma {:induction false} MergeSorted<T(!new)>(less: Less<T>, a: seq<Elem<T>>, b: seq<Elem<T>>)
    requires StrictWeakOrder(less) && Sorted(less, a) && Sorted(less, b)
    ensures Sorted(less, Merge(less, a, b))
    decreases |a| + |b|
  {
    if a == [] || b == [] {
    } else if !less(b[0].item, a[0].item) {
      MergeSorted(less, a[1..], b);
      forall y | y in Merge(less, a[1..], b)
        ensures !less(y.item, a[0].item)
      {
        MergeMembers(less, a[1..], b, y);
        if y in b { NotLessTransitive(less, a[0].item, b[0].item, y.item); }
      }
      SortedCons(less, a[0], Merge(less, a[1..], b));
    } else {
      MergeSorted(less, a, b[1..]);
      forall y | y in Merge(less, a, b[1..])
        ensures !less(y.item, b[0].item)
      {
        MergeMembers(less, a, b[1..], y);
        if y in a { LessTransitive(less, b[0].item, a[0].item, y.item); NotBoth(less, b[0].item, y.item); }
      }
      SortedCons(less, b[0], Merge(less, a, b[1..]));
    }
  }

  lemma ClassCons<T>(less: Less<T>, e: Elem<T>, s: seq<Elem<T>>, x: T)
    ensures Class(less, [e] + s, x) == (if Equivalent(less, e.item, x) then [e] else []) + Class(less, s, x)
  {
    assert ([e] + s)[1..] == s;
  }

  /** Nothing in a sorted sequence is equivalent to something less than its head. */
  lemma ClassBelow<T(!new)>(less: Less<T>, a: seq<Elem<T>>, x: T)
    requires StrictWeakOrder(less) && Sorted(less, a) && a != [] && less(x, a[0].item)
    ensures Class(less, a, x) == []
  {
    forall i | 0 <= i < |a|
      ensures !Equivalent(less, a[i].item, x)
    {
      LessTransitive(less, x, a[0].item, a[i].item);
    }
    ClassEmpty(less, a, x);
  }

  /** Merging keeps the first run's equivalent elements ahead of the second's. */
  lemma {:induction false} MergeClass<T(!new)>(less: Less<T>, a: seq<Elem<T>>, b: seq<Elem<T>>, x: T)
    requires StrictWeakOrder(less) && Sorted(less, a) && Sorted(less, b)
    ensures Class(less, Merge(less, a, b), x) == Class(less, a, x) + Class(less, b, x)
    decreases |a| + |b|
  {
    if a == [] || b == [] {
    } else if !less(b[0].item, a[0].item) {
      SortedTail(less, a);
      MergeClass(less, a[1..], b, x);
      var front := if Equivalent(less, a[0].item, x) then [a[0]] else [];
      calc {
        Class(less, Merge(less, a, b), x);
        { ClassCons(less, a[0], Merge(less, a[1..], b), x); }
        front + (Class(less, a[1..], x) + Class(less, b, x));
        (front + Class(less, a[1..], x)) + Class(less, b, x);
        Class(less, a, x) + Class(less, b, x);
      }
    } else {
      SortedTail(less, b);
      MergeClass(less, a, b[1..], x);
      var front := if Equivalent(less, b[0].item, x) then [b[0]] else [];
      if front != [] {
        EquivalentAlike(less, b[0].item, x, a[0].item);
        ClassBelow(less, a, x);
      }
      calc {
        Class(less, Merge(less, a, b), x);
        { ClassCons(less, b[0], Merge(less, a, b[1..]), x); }
        front + (Class(less, a, x) + Class(less, b[1..], x));
        { assert front == [] || Class(less, a, x) == []; }
        Class(less, a, x) + (front + Class(less, b[1..], x));
        Class(less, a, x) + Class(less, b, x);
      }
    }
  }

  /** Merging the first two of three adjacent parts and rearranging the third
      stably rearranges the whole stably. */
  lemma MergeThenRest<T(!new)>(less: Less<T>, a: seq<Elem<T>>, b: seq<Elem<T>>, rest: seq<Elem<T>>,
                               done: seq<Elem<T>>, x: T)
    requires StrictWeakOrder(less) && Sorted(less, a) && Sorted(less, b)
    requires Class(less, done, x) == Class(less, rest, x)
    ensures Class(less, Merge(less, a, b) + done, x) == Class(less, a + b + rest, x)
  {
    MergeClass(less, a, b, x);
    ClassConcat(less, Merge(less, a, b), done, x);
    ClassConcat(less, a, b, x);
    ClassConcat(less, a + b, rest, x);
  }

  // ------------------------------------------------------------------- runs

  /** The length of the maximal nondecreasing run `s` starts with. */
  ghost function RunLength<T>(less: Less<T>, s: seq<Elem<T>>): (n: nat)
    requires s != []
    ensures 1 <= n <= |s|
  {
    if |s| == 1 || less(s[1].item, s[0].item) then 1 else 1 + RunLength(less, s[1..])
  }

  /** `n` is where the first descent of `s` ends a run. */
  ghost predicate IsRunEnd<T>(less: Less<T>, s: seq<Elem<T>>, n: nat) {
    && 1 <= n <= |s|
    && (forall i :: 1 <= i < n ==> !less(s[i].item, s[i - 1].item))
    && (n < |s| ==> less(s[n].item, s[n - 1].item))
  }

  lemma {:induction false} RunLengthIsRunEnd<T>(less: Less<T>, s: seq<Elem<T>>)
    requires s != []
    ensures IsRunEnd(less, s, RunLength(less, s))
  {
    if |s| > 1 && !less(s[1].item, s[0].item) {
      RunLengthIsRunEnd(less, s[1..]);
      forall i | 2 <= i < RunLength(less, s)
        ensures !less(s[i].item, s[i - 1].item)
      {
        assert s[i] == s[1..][i - 1] && s[i - 1] == s[1..][i - 2];
      }
    }
  }

  /** The number of maximal nondecreasing runs. */
  ghost function RunCount<T>(less: Less<T>, s: seq<Elem<T>>): nat {
    if s == [] then 0 else 1 + RunCount(less, s[RunLength(less, s)..])
  }

  lemma {:induction false} AdjacentSorted<T(!new)>(less: Less<T>, s: seq<Elem<T>>)
    requires StrictWeakOrder(less)
    requires forall i :: 1 <= i < |s| ==> !less(s[i].item, s[i - 1].item)
    ensures Sorted(less, s)
  {
    if |s| > 1 {
      var t := s[1..];
      assert forall i :: 1 <= i < |t| ==> t[i] == s[i + 1] && t[i - 1] == s[i];
      AdjacentSorted(less, t);
      forall y | y in t
        ensures !less(y.item, s[0].item)
      {
        NotLessTransitive(less, s[0].item, t[0].item, y.item);
      }
      SortedCons(less, s[0], t);
      assert s == [s[0]] + t;
    }
  }

  lemma RunSorted<T(!new)>(less: Less<T>, s: seq<Elem<T>>, run: seq<Elem<T>>)
    requires StrictWeakOrder(less) && s != [] && run == s[..RunLength(less, s)]
    ensures Sorted(less, run)
  {
    RunLengthIsRunEnd(less, s);
    AdjacentSorted(less, run);
  }

  /** The run ends at the first descent, whatever way that is found. */
  lemma RunEndUnique<T>(less: Less<T>, s: seq<Elem<T>>, n: nat)
    requires IsRunEnd(less, s, n)
    ensures RunLength(less, s) == n
  {
    RunLengthIsRunEnd(less, s);
  }

  /** Putting an element in front adds a run or extends the first one. */
  lemma RunCountCons<T>(less: Less<T>, s: seq<Elem<T>>)
    requires |s| > 1
    ensures RunCount(less, s) ==
            RunCount(less, s[1..]) + if less(s[1].item, s[0].item) then 1 else 0
  {
    var n := RunLength(less, s);
    if n > 1 {
      assert s[n..] == s[1..][RunLength(less, s[1..])..];
    }
  }

  /** Joining two sequences never creates a run. */
  lemma {:induction false} RunCountConcat<T>(less: Less<T>, a: seq<Elem<T>>, b: seq<Elem<T>>)
    ensures RunCount(less, a + b) <= RunCount(less, a) + RunCount(less, b)
  {
    if a == [] {
      assert a + b == b;
    } else if |a| == 1 {
      if b == [] {
        assert a + b == a;
      } else {
        RunCountCons(less, a + b);
        assert (a + b)[1..] == b;
      }
    } else {
      RunCountCons(less, a + b);
      RunCountCons(less, a);
      assert (a + b)[1..] == a[1..] + b;
      RunCountConcat(less, a[1..], b);
    }
  }

  lemma SortedOneRun<T>(less: Less<T>, s: seq<Elem<T>>)
    requires Sorted(less, s) && s != []
    ensures RunCount(less, s) == 1
  {
    RunEndUnique(less, s, |s|);
    assert s[|s|..] == [];
  }

  // ----------------------------------------------------------------- passes

  /** Where the second run of `s` ends. */
  ghost function PairEnd<T>(less: Less<T>, s: seq<Elem<T>>): (m: nat)
    requires s != [] && RunLength(less, s) < |s|
    ensures RunLength(less, s) < m <= |s|
  {
    RunLength(less, s) + RunLength(less, s[RunLength(less, s)..])
  }

  ghost function MergeAt<T>(less: Less<T>, s: seq<Elem<T>>, n: nat, m: nat): seq<Elem<T>>
    requires n <= m <= |s|
  {
    Merge(less, s[..n], s[n..m])
  }

  /** The first two runs of `s`, merged, or its only run. */
  ghost function FirstOut<T>(less: Less<T>, s: seq<Elem<T>>): seq<Elem<T>>
    requires s != []
  {
    var n := RunLength(less, s);
    if n == |s| then s else MergeAt(less, s, n, PairEnd(less, s))
  }

  /** What follows the first two runs of `s`. */
  ghost function FirstRest<T>(less: Less<T>, s: seq<Elem<T>>): (r: seq<Elem<T>>)
    requires s != []
    ensures |r| < |s|
  {
    if RunLength(less, s) == |s| then [] else s[PairEnd(less, s)..]
  }

  lemma FirstPair<T>(less: Less<T>, s: seq<Elem<T>>, n: nat, m: nat)
    requires s != [] && n == RunLength(less, s) < |s| && m == n + RunLength(less, s[n..])
    ensures FirstOut(less, s) == Merge(less, s[..n], s[n..m]) && FirstRest(less, s) == s[m..]
  {
    assert PairEnd(less, s) == m;
    assert FirstOut(less, s) == MergeAt(less, s, n, m);
  }

  lemma PairSorted<T(!new)>(less: Less<T>, s: seq<Elem<T>>)
    requires StrictWeakOrder(less) && s != [] && RunLength(less, s) < |s|
    ensures Sorted(less, s[..RunLength(less, s)])
    ensures Sorted(less, s[RunLength(less, s)..PairEnd(less, s)])
  {
    var n, m := RunLength(less, s), PairEnd(less, s);
    assert s[n..][..m - n] == s[n..m];
    RunSorted(less, s, s[..n]);
    RunSorted(less, s[n..], s[n..m]);
  }

  lemma FirstOutSorted<T(!new)>(less: Less<T>, s: seq<Elem<T>>)
    requires StrictWeakOrder(less) && s != []
    ensures Sorted(less, FirstOut(less, s)) && FirstOut(less, s) != []
  {
    var n := RunLength(less, s);
    if n == |s| {
      RunSorted(less, s, s);
    } else {
      PairSorted(less, s);
      MergeSorted(less, s[..n], s[n..PairEnd(less, s)]);
    }
  }

  lemma FirstOutClass<T(!new)>(less: Less<T>, s: seq<Elem<T>>, done: seq<Elem<T>>, x: T)
    requires StrictWeakOrder(less) && s != [] && Class(less, done, x) == Class(less, FirstRest(less, s), x)
    ensures Class(less, FirstOut(less, s) + done, x) == Class(less, s, x)
  {
    var n := RunLength(less, s);
    if n == |s| {
      ClassConcat(less, s, done, x);
    } else {
      var m := PairEnd(less, s);
      PairSorted(less, s);
      MergeThenRest(less, s[..n], s[n..m], s[m..], done, x);
      assert s == s[..n] + s[n..m] + s[m..];
    }
  }

  lemma RunCountPair<T>(less: Less<T>, s: seq<Elem<T>>)
    requires s != []
    ensures RunCount(less, s) == RunCount(less, FirstRest(less, s)) + if RunLength(less, s) == |s| then 1 else 2
  {
    var n := RunLength(less, s);
    if n == |s| {
      assert s[n..] == [];
    } else {
      var rest := s[n..];
      assert rest[RunLength(less, rest)..] == s[PairEnd(less, s)..];
    }
  }

  /** One pass over the list: merge the first run with the second, the third
      with the fourth, and so on. */
  ghost function Pass<T>(less: Less<T>, s: seq<Elem<T>>): seq<Elem<T>>
    decreases |s|
  {
    if s == [] then [] else FirstOut(less, s) + Pass(less, FirstRest(less, s))
  }

  /** How many runs the pass counts as its output. */
  ghost function PassCount<T>(less: Less<T>, s: seq<Elem<T>>): nat
    decreases |s|
  {
    if s == [] then 0 else 1 + PassCount(less, FirstRest(less, s))
  }

  /** The pass's output count is half the number of runs, rounded up ... */
  lemma {:induction false} PassCountHalves<T>(less: Less<T>, s: seq<Elem<T>>)
    ensures PassCount(less, s) == (RunCount(less, s) + 1) / 2
    decreases |s|
  {
    if s != [] {
      RunCountPair(less, s);
      PassCountHalves(less, FirstRest(less, s));
    }
  }

  /** ... and bounds the number of runs that are left. */
  lemma {:induction false} PassRuns<T(!new)>(less: Less<T>, s: seq<Elem<T>>)
    requires StrictWeakOrder(less)
    ensures RunCount(less, Pass(less, s)) <= PassCount(less, s)
    decreases |s|
  {
    if s != [] {
      FirstOutSorted(less, s);
      SortedOneRun(less, FirstOut(less, s));
      PassRuns(less, FirstRest(less, s));
      RunCountConcat(less, FirstOut(less, s), Pass(less, FirstRest(less, s)));
    }
  }

  lemma {:induction false} PassClass<T(!new)>(less: Less<T>, s: seq<Elem<T>>, x: T)
    requires StrictWeakOrder(less)
    ensures Class(less, Pass(less, s), x) == Class(less, s, x)
    decreases |s|
  {
    if s != [] {
      PassClass(less, FirstRest(less, s), x);
      FirstOutClass(less, s, Pass(less, FirstRest(less, s)), x);
    }
  }

  lemma PassStable<T(!new)>(less: Less<T>, s: seq<Elem<T>>)
    requires StrictWeakOrder(less)
    ensures Stable(less, s, Pass(less, s))
  {
    forall x
      ensures Class(less, Pass(less, s), x) == Class(less, s, x)
    {
      PassClass(less, s, x);
    }
  }

  /** A pass that reports at most one output run leaves the list sorted. */
  lemma LastPassSorts<T(!new)>(less: Less<T>, s: seq<Elem<T>>)
    requires StrictWeakOrder(less) && PassCount(less, s) <= 1
    ensures Sorted(less, Pass(less, s))
  {
    PassRuns(less, s);
    var p := Pass(less, s);
    if p != [] {
      var n := RunLength(less, p);
      assert RunCount(less, p[n..]) == 0;
      assert p[..n] == p;
      RunSorted(less, p, p);
    }
  }
}
