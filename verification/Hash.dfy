/** lib/kernel/hash.c: a table of buckets that is resized as it fills and empties
    refines a finite set in which no two elements are equal, "equal" meaning that
    neither is less than the other. */
module HashTable {
  import opened Wrappers
  import opened Bits
  import opened Runs

  /** Everything in the buckets. */
  function Flat<T>(buckets: seq<seq<T>>): seq<T> {
    if buckets == [] then [] else buckets[0] + Flat(buckets[1..])
  }

  function Elems<T>(buckets: seq<seq<T>>): multiset<T> {
    multiset(Flat(buckets))
  }

  /** No two equal elements, and none twice. */
  ghost predicate Keyed<T(!new)>(less: Less<T>, m: multiset<T>) {
    forall x, y :: x in m && y in m && Equivalent(less, x, y) ==> x == y && m[x] == 1
  }

  /** find_bucket */
  function Index<T>(hash: T -> nat, n: nat, e: T): nat
    requires n > 0
  {
    And(hash(e), n - 1)
  }

  /** Every element is in the bucket its hash selects. */
  ghost predicate Placed<T>(hash: T -> nat, buckets: seq<seq<T>>) {
    forall i, e :: 0 <= i < |buckets| && e in buckets[i] ==> Index(hash, |buckets|, e) == i
  }

  ghost predicate IsPow2(n: nat) {
    exists k :: n == Pow2(k)
  }

  /** Equal elements have equal hashes. */
  ghost predicate Agrees<T(!new)>(less: Less<T>, hash: T -> nat) {
    forall x, y :: Equivalent(less, x, y) ==> hash(x) == hash(y)
  }

  // ---------------------------------------------------------------- buckets

  lemma {:induction false} FlatConcat<T>(a: seq<seq<T>>, b: seq<seq<T>>)
    ensures Flat(a + b) == Flat(a) + Flat(b)
  {
    if a == [] {
      assert a + b == b;
    } else {
      FlatConcat(a[1..], b);
      assert (a + b)[1..] == a[1..] + b;
      Regroup(a[0], Flat(a[1..]), Flat(b));
    }
  }

  lemma FlatSplit<T>(a: seq<seq<T>>, i: nat)
    requires i < |a|
    ensures Flat(a) == Flat(a[..i]) + a[i] + Flat(a[i + 1..])
  {
    assert a == a[..i] + a[i..];
    FlatConcat(a[..i], a[i..]);
    assert a[i..][1..] == a[i + 1..];
  }

  /** Changing one bucket. */
  lemma ElemsUpdate<T>(a: seq<seq<T>>, i: nat, bucket: seq<T>)
    requires i < |a|
    ensures Elems(a[i := bucket]) == Elems(a) - multiset(a[i]) + multiset(bucket)
  {
    FlatSplit(a, i);
    FlatSplit(a[i := bucket], i);
    assert a[i := bucket][..i] == a[..i] && a[i := bucket][i + 1..] == a[i + 1..];
  }

  lemma {:induction false} InFlat<T>(a: seq<seq<T>>, e: T)
    ensures e in Flat(a) <==> exists i :: 0 <= i < |a| && e in a[i]
  {
    if a != [] {
      InFlat(a[1..], e);
      if e in Flat(a[1..]) {
        var i :| 0 <= i < |a[1..]| && e in a[1..][i];
        assert a[1..][i] == a[i + 1];
      }
      forall i | 0 < i < |a| && e in a[i]
        ensures e in Flat(a[1..])
      {
        assert a[1..][i - 1] == a[i];
      }
    }
  }

  /** The bucket an element selects exists. */
  lemma IndexInRange<T>(hash: T -> nat, n: nat, e: T)
    requires IsPow2(n)
    ensures 0 <= Index(hash, n, e) < n
  {
    var k :| n == Pow2(k);
    AndMask(hash(e), k);
  }

  /** An equal element can only be in the bucket the element selects. */
  lemma OnlyInBucket<T(!new)>(less: Less<T>, hash: T -> nat, a: seq<seq<T>>, e: T, x: T)
    requires IsPow2(|a|) && Placed(hash, a) && Agrees(less, hash) && x in Elems(a) && Equivalent(less, x, e)
    ensures Index(hash, |a|, e) < |a| && x in a[Index(hash, |a|, e)]
  {
    InFlat(a, x);
    var i :| 0 <= i < |a| && x in a[i];
    assert Index(hash, |a|, x) == i;
    IndexInRange(hash, |a|, e);
  }

  /** Putting an element at the front of the bucket it selects. */
  lemma PutKeeps<T>(hash: T -> nat, a: seq<seq<T>>, e: T, i: nat)
    requires Placed(hash, a) && i < |a| && Index(hash, |a|, e) == i
    ensures Placed(hash, a[i := [e] + a[i]]) && Elems(a[i := [e] + a[i]]) == Elems(a) + multiset{e}
  {
    ElemsUpdate(a, i, [e] + a[i]);
    BucketWithin(a, i);
  }

  /** Taking the element at position `k` out of a bucket. */
  lemma DropKeeps<T>(hash: T -> nat, a: seq<seq<T>>, i: nat, k: nat)
    requires Placed(hash, a) && i < |a| && k < |a[i]|
    ensures var b := a[i := a[i][..k] + a[i][k + 1..]];
            Placed(hash, b) && Elems(b) == Elems(a) - multiset{a[i][k]} && a[i][k] in Elems(a)
  {
    ElemsUpdate(a, i, a[i][..k] + a[i][k + 1..]);
    BucketWithin(a, i);
    CutOut(a[i], k);
  }

  lemma CutOut<T>(s: seq<T>, k: nat)
    requires k < |s|
    ensures multiset(s) == multiset(s[..k] + s[k + 1..]) + multiset{s[k]}
  {
    assert s == s[..k] + [s[k]] + s[k + 1..];
  }

  /** Taking the front element out of a bucket. */
  lemma FrontOut<T>(a: seq<seq<T>>, i: nat)
    requires i < |a| && a[i] != []
    ensures Elems(a[i := a[i][1..]]) + multiset{a[i][0]} == Elems(a)
  {
    ElemsUpdate(a, i, a[i][1..]);
    BucketWithin(a, i);
    assert a[i] == [a[i][0]] + a[i][1..];
  }

  lemma BucketWithin<T>(a: seq<seq<T>>, i: nat)
    requires i < |a|
    ensures multiset(a[i]) <= Elems(a)
  {
    FlatSplit(a, i);
  }

  lemma {:induction false} AllEmpty<T>(a: seq<seq<T>>)
    requires forall i :: 0 <= i < |a| ==> a[i] == []
    ensures Flat(a) == []
  {
    if a != [] { AllEmpty(a[1..]); }
  }

  /** The number of buckets rehash wants: the largest power of two not above half
      the number of elements, and at least four. */
  method BucketCount(elems: nat) returns (n: nat)
    ensures IsPow2(n) && n >= 4 && n <= (if elems / 2 < 4 then 4 else elems / 2) < 2 * n
  {
    n := elems / 2;
    if n < 4 { n := 4; }
    ghost var start := n;
    while TurnOffLeast1(n) != 0
      invariant 0 < n && TopBit(n) == TopBit(start)
      decreases n
    {
      TurnOffKeepsTop(n);
      n := TurnOffLeast1(n);
    }
    TurnOffKeepsTop(n);
    ghost var k := TopBitIs(start);
  }

  class Hash<T(!new,==)> {
    var buckets: array<seq<T>>
    var elemCnt: nat
    const hash: T -> nat
    const less: Less<T>

    ghost function Contents(): multiset<T>
      reads this, buckets
    {
      Elems(buckets[..])
    }

    ghost predicate Valid()
      reads this, buckets
    {
      && StrictWeakOrder(less) && Agrees(less, hash)
      && buckets.Length >= 4 && IsPow2(buckets.Length) && Placed(hash, buckets[..])
      && Keyed(less, Contents()) && elemCnt == |Contents()|
    }

    /** hash_init */
    constructor (hash: T -> nat, less: Less<T>)
      requires StrictWeakOrder(less) && Agrees(less, hash)
      ensures Valid() && Contents() == multiset{} && fresh(buckets) && this.hash == hash && this.less == less
    {
      this.hash, this.less := hash, less;
      elemCnt := 0;
      buckets := new seq<T>[4](_ => []);
      new;
      AllEmpty(buckets[..]);
      assert Pow2(2) == 4;
    }

    /** find_elem */
    method FindElem(bucket: seq<T>, e: T) returns (k: Option<nat>)
      ensures k.Some? ==> k.value < |bucket| && Equivalent(less, bucket[k.value], e)
      ensures k.None? ==> forall x :: x in bucket ==> !Equivalent(less, x, e)
    {
      var i := 0;
      while i < |bucket|
        invariant i <= |bucket| && forall j :: 0 <= j < i ==> !Equivalent(less, bucket[j], e)
      {
        if !less(bucket[i], e) && !less(e, bucket[i]) { return Some(i); }
        i := i + 1;
      }
      k := None;
    }

    /** No element of the table is equal to `e`. */
    ghost predicate Absent(e: T)
      reads this, buckets
    {
      forall x :: x in Contents() ==> !Equivalent(less, x, e)
    }

    /** The search of hash_insert, hash_replace, hash_find and hash_delete. */
    method Locate(e: T) returns (i: nat, k: Option<nat>)
      requires Valid()
      ensures i < buckets.Length && i == Index(hash, buckets.Length, e)
      ensures k.Some? ==>
                k.value < |buckets[i]| && Equivalent(less, buckets[i][k.value], e) && buckets[i][k.value] in Contents()
      ensures k.None? ==> Absent(e)
    {
      IndexInRange(hash, buckets.Length, e);
      i := Index(hash, buckets.Length, e);
      k := FindElem(buckets[i], e);
      BucketWithin(buckets[..], i);
      if k.None? {
        forall x | x in Contents()
          ensures !Equivalent(less, x, e)
        {
          if Equivalent(less, x, e) { OnlyInBucket(less, hash, buckets[..], e, x); }
        }
      }
    }

    /** hash_find */
    method Find(e: T) returns (r: Option<T>)
      requires Valid()
      ensures r.Some? ==> r.value in Contents() && Equivalent(less, r.value, e)
      ensures r.None? ==> Absent(e)
    {
      var i, k := Locate(e);
      r := if k.None? then None else Some(buckets[i][k.value]);
    }

    /** insert_elem */
    method Put(i: nat, e: T)
      requires i < buckets.Length && i == Index(hash, buckets.Length, e) && Placed(hash, buckets[..])
      modifies `elemCnt, buckets
      ensures Placed(hash, buckets[..]) && Contents() == old(Contents()) + multiset{e} && elemCnt == old(elemCnt) + 1
    {
      ghost var a := buckets[..];
      elemCnt := elemCnt + 1;
      buckets[i] := [e] + buckets[i];
      assert buckets[..] == a[i := [e] + a[i]];
      PutKeeps(hash, a, e, i);
    }

    /** remove_elem */
    method Drop(i: nat, k: nat)
      requires i < buckets.Length && k < |buckets[i]| && Placed(hash, buckets[..]) && elemCnt > 0
      modifies `elemCnt, buckets
      ensures Placed(hash, buckets[..]) && elemCnt == old(elemCnt) - 1
      ensures Contents() == old(Contents()) - multiset{old(buckets[i][k])}
    {
      ghost var a := buckets[..];
      elemCnt := elemCnt - 1;
      buckets[i] := buckets[i][..k] + buckets[i][k + 1..];
      assert buckets[..] == a[i := a[i][..k] + a[i][k + 1..]];
      DropKeeps(hash, a, i, k);
    }

    /** The inner loop of rehash: one element of bucket `i` goes to its new bucket. */
    method MoveOne(from: array<seq<T>>, i: nat, to: array<seq<T>>)
      requires from != to && i < from.Length && from[i] != [] && IsPow2(to.Length) && Placed(hash, to[..])
      modifies from, to
      ensures from[..] == old(from[..])[i := old(from[i][1..])] && Placed(hash, to[..])
      ensures Elems(from[..]) + Elems(to[..]) == old(Elems(from[..]) + Elems(to[..]))
    {
      ghost var a, b := from[..], to[..];
      var e := from[i][0];
      IndexInRange(hash, to.Length, e);
      var k := Index(hash, to.Length, e);
      from[i] := from[i][1..];
      to[k] := [e] + to[k];
      assert from[..] == a[i := a[i][1..]] && to[..] == b[k := [e] + b[k]];
      PutKeeps(hash, b, e, k);
      FrontOut(a, i);
    }

    /** rehash's inner loop. */
    method MoveBucket(from: array<seq<T>>, i: nat, to: array<seq<T>>)
      requires from != to && i < from.Length && IsPow2(to.Length) && Placed(hash, to[..])
      modifies from, to
      ensures Placed(hash, to[..]) && from[..] == old(from[..])[i := []]
      ensures Elems(from[..]) + Elems(to[..]) == old(Elems(from[..]) + Elems(to[..]))
    {
      while from[i] != []
        invariant Placed(hash, to[..]) && Elems(from[..]) + Elems(to[..]) == old(Elems(from[..]) + Elems(to[..]))
        invariant from[..] == old(from[..])[i := from[i]]
        decreases |from[i]|
      {
        MoveOne(from, i, to);
      }
    }

    /** rehash's loops: every element of the old buckets goes to its new bucket. */
    method MoveAll(from: array<seq<T>>, to: array<seq<T>>)
      requires from != to && IsPow2(to.Length) && Placed(hash, to[..]) && Elems(to[..]) == multiset{}
      modifies from, to
      ensures Placed(hash, to[..]) && Elems(to[..]) == old(Elems(from[..]))
    {
      var i := 0;
      while i < from.Length
        invariant i <= from.Length && Placed(hash, to[..])
        invariant Elems(from[..]) + Elems(to[..]) == old(Elems(from[..]))
        invariant forall j :: 0 <= j < i ==> from[..][j] == []
      {
        MoveBucket(from, i, to);
        i := i + 1;
      }
      AllEmpty(from[..]);
    }

    /** rehash: `memory` says whether the allocation succeeds. */
    method Rehash(memory: bool)
      requires Valid()
      modifies this, buckets
      ensures Valid() && Contents() == old(Contents()) && (buckets == old(buckets) || fresh(buckets))
      ensures memory ==> buckets.Length <= (if elemCnt / 2 < 4 then 4 else elemCnt / 2) < 2 * buckets.Length
    {
      var n := BucketCount(elemCnt);
      if n == buckets.Length || !memory { return; }
      var to := new seq<T>[n](_ => []);
      AllEmpty(to[..]);
      MoveAll(buckets, to);
      buckets := to;
    }

    /** hash_insert */
    method Insert(e: T, memory: bool) returns (r: Option<T>)
      requires Valid()
      modifies this, buckets
      ensures Valid() && (buckets == old(buckets) || fresh(buckets))
      ensures r.Some? ==> r.value in old(Contents()) && Equivalent(less, r.value, e) && Contents() == old(Contents())
      ensures r.None? ==> old(Absent(e)) && Contents() == old(Contents()) + multiset{e}
    {
      var i, k := Locate(e);
      if k.None? {
        r := None;
        KeyedPut(less, Contents(), e);
        Put(i, e);
      } else {
        r := Some(buckets[i][k.value]);
      }
      Rehash(memory);
    }

    /** hash_replace's two halves when an equal element is there. */
    method Exchange(i: nat, k: nat, e: T)
      requires Valid() && i < buckets.Length && i == Index(hash, buckets.Length, e)
      requires k < |buckets[i]| && Equivalent(less, buckets[i][k], e) && buckets[i][k] in Contents()
      modifies `elemCnt, buckets
      ensures Valid() && Contents() == old(Contents()) - multiset{old(buckets[i][k])} + multiset{e}
    {
      KeyedSwap(less, Contents(), buckets[i][k], e);
      Drop(i, k);
      Put(i, e);
    }

    /** hash_replace */
    method Replace(e: T, memory: bool) returns (r: Option<T>)
      requires Valid()
      modifies this, buckets
      ensures Valid() && (buckets == old(buckets) || fresh(buckets))
      ensures r.Some? ==>
                r.value in old(Contents()) && Equivalent(less, r.value, e)
                  && Contents() == old(Contents()) - multiset{r.value} + multiset{e}
      ensures r.None? ==> old(Absent(e)) && Contents() == old(Contents()) + multiset{e}
    {
      var i, k := Locate(e);
      if k.None? {
        r := None;
        KeyedPut(less, Contents(), e);
        Put(i, e);
      } else {
        r := Some(buckets[i][k.value]);
        Exchange(i, k.value, e);
      }
      Rehash(memory);
    }

    /** hash_delete */
    method Delete(e: T, memory: bool) returns (r: Option<T>)
      requires Valid()
      modifies this, buckets
      ensures Valid() && (buckets == old(buckets) || fresh(buckets))
      ensures r.Some? ==>
                r.value in old(Contents()) && Equivalent(less, r.value, e)
                  && Contents() == old(Contents()) - multiset{r.value} && Absent(e)
      ensures r.None? ==> old(Absent(e)) && Contents() == old(Contents())
    {
      var i, k := Locate(e);
      if k.None? {
        r := None;
      } else {
        r := Some(buckets[i][k.value]);
        KeyedDrop(less, Contents(), r.value, e);
        Drop(i, k.value);
        Rehash(memory);
      }
    }
  }

  /** hash_init; `memory` says whether the first buckets can be allocated. */
  method Init<T(!new,==)>(hash: T -> nat, less: Less<T>, memory: bool) returns (h: Option<Hash<T>>)
    requires StrictWeakOrder(less) && Agrees(less, hash)
    ensures h.Some? <==> memory
    ensures h.Some? ==> fresh(h.value) && fresh(h.value.buckets) && h.value.Valid() && h.value.Contents() == multiset{}
  {
    if !memory { return None; }
    var table := new Hash(hash, less);
    h := Some(table);
  }

  /** hash_iterator: a bucket and a position in it, -1 for the list's head. */
  class Iterator<T(!new,==)> {
    const table: Hash<T>
    var bucket: nat
    var pos: int

    ghost predicate Valid()
      reads this, table, table.buckets
    {
      bucket < table.buckets.Length && -1 <= pos < |table.buckets[bucket]|
    }

    /** How many elements have been returned. */
    ghost function Done(): nat
      requires Valid()
      reads this, table, table.buckets
    {
      |Flat(table.buckets[..bucket])| + (pos + 1)
    }

    /** hash_first */
    constructor (table: Hash<T>)
      requires table.Valid()
      ensures Valid() && Done() == 0 && this.table == table
    {
      this.table := table;
      bucket, pos := 0, -1;
    }

    /** hash_next */
    method Next() returns (r: Option<T>)
      requires Valid()
      modifies this
      ensures var all := Flat(table.buckets[..]);
              if old(Done()) < |all| then r == Some(all[old(Done())]) && Valid() && Done() == old(Done()) + 1
              else r == None && old(Done()) == |all|
    {
      ghost var all, done := Flat(table.buckets[..]), Done();
      pos := pos + 1;
      while pos == |table.buckets[bucket]|
        invariant bucket < table.buckets.Length && 0 <= pos <= |table.buckets[bucket]|
        invariant done == |Flat(table.buckets[..bucket])| + pos
        decreases table.buckets.Length - bucket
      {
        FlatSplit(table.buckets[..], bucket);
        FlatTake(table.buckets[..], bucket);
        bucket := bucket + 1;
        if bucket >= table.buckets.Length {
          assert table.buckets[..] == table.buckets[..bucket];
          return None;
        }
        pos := 0;
      }
      FlatSplit(table.buckets[..], bucket);
      assert table.buckets[..][..bucket] == table.buckets[..bucket];
      r := Some(table.buckets[bucket][pos]);
    }
  }

  lemma FlatTake<T>(a: seq<seq<T>>, i: nat)
    requires i < |a|
    ensures Flat(a[..i + 1]) == Flat(a[..i]) + a[i]
  {
    assert a[..i + 1] == a[..i] + [a[i]];
    FlatConcat(a[..i], [a[i]]);
    assert Flat([a[i]]) == a[i];
  }

  /** The iteration idiom. */
  method Visit<T(!new,==)>(table: Hash<T>) returns (visited: seq<T>)
    requires table.Valid()
    ensures visited == Flat(table.buckets[..])
  {
    ghost var all := Flat(table.buckets[..]);
    var i := new Iterator(table);
    visited := [];
    while true
      invariant i.Valid() && i.table == table && i.Done() == |visited| <= |all| && visited == all[..|visited|]
      invariant fresh(i)
      decreases |all| - |visited|
    {
      var r := i.Next();
      if r.None? { break; }
      visited := visited + [r.value];
    }
    assert visited == all;
  }

  /** Every element is visited, and none twice. */
  method VisitAll<T(!new,==)>(table: Hash<T>) returns (visited: seq<T>)
    requires table.Valid()
    ensures multiset(visited) == table.Contents() && forall e :: e in visited ==> multiset(visited)[e] == 1
  {
    visited := Visit(table);
    KeyedOnce(table.less, table.Contents());
  }

  lemma KeyedOnce<T(!new)>(less: Less<T>, m: multiset<T>)
    requires StrictWeakOrder(less) && Keyed(less, m)
    ensures forall e :: e in m ==> m[e] == 1
  {
    assert forall e :: e in m ==> Equivalent(less, e, e);
  }

  // --------------------------------------------------------- the set of elements

  /** Adding an element equal to none. */
  lemma KeyedPut<T(!new)>(less: Less<T>, m: multiset<T>, e: T)
    requires StrictWeakOrder(less) && Keyed(less, m) && forall x :: x in m ==> !Equivalent(less, x, e)
    ensures Keyed(less, m + multiset{e})
  {
  }

  /** Taking an element out leaves none equal to it. */
  lemma KeyedDrop<T(!new)>(less: Less<T>, m: multiset<T>, x: T, e: T)
    requires StrictWeakOrder(less) && Keyed(less, m) && x in m && Equivalent(less, x, e)
    ensures Keyed(less, m - multiset{x}) && forall y :: y in m - multiset{x} ==> !Equivalent(less, y, e)
  {
    forall y | y in m - multiset{x}
      ensures !Equivalent(less, y, e)
    {
      EquivalentAlike(less, x, e, y);
      assert Equivalent(less, x, x);
    }
  }

  lemma KeyedSwap<T(!new)>(less: Less<T>, m: multiset<T>, x: T, e: T)
    requires StrictWeakOrder(less) && Keyed(less, m) && x in m && Equivalent(less, x, e)
    ensures Keyed(less, m - multiset{x} + multiset{e}) && |m| > 0
  {
    KeyedDrop(less, m, x, e);
    KeyedPut(less, m - multiset{x}, e);
  }
}
