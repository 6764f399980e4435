/**
 binary_search and is_exact of include/Utils.h: the branchless lower bound used on every sorted table.
 */
module Search {
  ghost predicate Sorted(a: seq<int>) { forall i, j :: 0 <= i <= j < |a| ==> a[i] <= a[j] }

  ghost predicate StrictlySorted(a: seq<int>) { forall i, j :: 0 <= i < j < |a| ==> a[i] < a[j] }

  lemma StrictIsSorted(a: seq<int>)
    requires StrictlySorted(a)
    ensures Sorted(a)
  {
    forall i, j | 0 <= i <= j < |a| ensures a[i] <= a[j] {
      if i < j { assert a[i] < a[j]; }
    }
  }

  // The elements before the lower bound are smaller than the key, the others are not.
  function LowerBound(a: seq<int>, key: int): (p: nat)
    ensures p <= |a|
  { if a == [] || a[0] >= key then 0 else 1 + LowerBound(a[1..], key) }

  ghost predicate Splits(a: seq<int>, key: int, p: nat) {
    p <= |a| && (forall i :: 0 <= i < p ==> a[i] < key) && (forall i :: p <= i < |a| ==> a[i] >= key)
  }

  lemma {:induction false} LowerBoundSplits(a: seq<int>, key: int)
    requires Sorted(a)
    ensures Splits(a, key, LowerBound(a, key))
  {
    if a != [] && a[0] < key {
      LowerBoundSplits(a[1..], key);
      var p := LowerBound(a[1..], key);
      forall i | 0 <= i < |a| ensures i < p + 1 <==> a[i] < key {
        if i > 0 { assert a[i] == a[1..][i - 1]; }
      }
    }
  }

  // The split is unique.
  lemma SplitsUnique(a: seq<int>, key: int, p: nat, q: nat)
    requires Splits(a, key, p) && Splits(a, key, q)
    ensures p == q
  {
    var m := if p < q then p else q;
    assert m < |a| ==> (a[m] < key <==> m < p) && (a[m] < key <==> m < q);
  }

  function IsExact(found: nat, a: seq<int>, key: int): bool { found < |a| && a[found] == key }

  // is_exact on the lower bound tells membership, and finds the key's own position.
  lemma ExactIffMember(a: seq<int>, key: int)
    requires Sorted(a)
    ensures IsExact(LowerBound(a, key), a, key) <==> key in a
    ensures forall i :: 0 <= i < |a| && a[i] == key && StrictlySorted(a) ==> LowerBound(a, key) == i
  {
    LowerBoundSplits(a, key);
    var p := LowerBound(a, key);
    if key in a {
      var i :| 0 <= i < |a| && a[i] == key;
      assert p <= i && a[p] <= a[i];
    }
  }

  method BinarySearch(a: seq<int>, key: int) returns (p: nat)
    requires Sorted(a) && a != []
    ensures p == LowerBound(a, key)
  {
    var base: nat, size := 0, |a|;
    while size > 1
      invariant 1 <= size && base + size <= |a|
      invariant forall i :: 0 <= i < base ==> a[i] < key
      invariant forall i :: base + size <= i < |a| ==> a[i] >= key
    {
      var half := size / 2;
      base := if a[base + half - 1] < key then base + half else base;
      size := size - half;
    }
    p := if a[base] < key then base + 1 else base;
    LowerBoundSplits(a, key);
    SplitsUnique(a, key, p, LowerBound(a, key));
  }
}
