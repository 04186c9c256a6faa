/** Notions that every part of the model shares. */
module Wrappers {
  datatype Option<+T> = None | Some(value: T)

  /** Nothing occurs twice. */
  ghost predicate NoDup<X>(s: seq<X>) {
    forall i, j :: 0 <= i < j < |s| ==> s[i] != s[j]
  }

  lemma TailOf<X>(s: seq<X>)
    requires NoDup(s) && s != []
    ensures NoDup(s[1..]) && forall t :: t in s[1..] <==> t in s && t != s[0]
  {
    assert s == [s[0]] + s[1..];
    assert forall i :: 0 <= i < |s| - 1 ==> s[1..][i] == s[i + 1];
  }

  lemma Regroup<X>(a: seq<X>, b: seq<X>, c: seq<X>)
    ensures a + (b + c) == (a + b) + c
  {
  }

  /** What is sealed by `Look`. */
  datatype Seal = OfMalloc | OfStdio | OfMmu | OfTables | OfQueues | OfLists | OfLinks | OfKernel | OfSteady | OfAlarms
                | OfOwners | OfOpens | OfDisk | OfFreeMap | OfSpared

  /** Always true.  A long predicate can be written to hold "if `Look(seal, z)`", for all z:
      a proof that uses what it says mentions `Look`, and one that only hands it on does
      not.  A contract that says `var p := P; p` also hands P on as a whole. */
  ghost predicate Look<K>(seal: K, z: nat) {
    true
  }
}
