/** Keyed lookup over an ordered collection, the way the document store answers
    `findById`, `findOne({documentId})` and `deleteOne(...)`: the first element
    in collection order whose key matches is the one found or removed. */
module Lookup {
  import opened Outcomes

  /** Some element of `xs` has key `k`. */
  predicate Has<T>(xs: seq<T>, key: T -> string, k: string) {
    exists i :: 0 <= i < |xs| && key(xs[i]) == k
  }

  /** No two elements of `xs` share a key (a unique index). */
  predicate UniqueKeys<T>(xs: seq<T>, key: T -> string) {
    forall i, j :: 0 <= i < j < |xs| ==> key(xs[i]) != key(xs[j])
  }

  /** Position of the first element with key `k`, or -1. */
  function FirstIndex<T>(xs: seq<T>, key: T -> string, k: string): (i: int)
    ensures -1 <= i < |xs|
    ensures i == -1 <==> !Has(xs, key, k)
    ensures 0 <= i ==> key(xs[i]) == k && !Has(xs[..i], key, k)
  {
    if |xs| == 0 then -1
    else if key(xs[0]) == k then 0
    else
      var j := FirstIndex(xs[1..], key, k);
      assert forall m :: 0 < m < |xs| ==> xs[1..][m - 1] == xs[m];
      if j < 0 then -1
      else
        j + 1
  }

  /** Inserting an element whose key is new keeps a unique index unique. */
  lemma AppendKeepsUnique<T>(xs: seq<T>, x: T, key: T -> string)
    requires UniqueKeys(xs, key) && !Has(xs, key, key(x))
    ensures UniqueKeys(xs + [x], key)
  {
    var r := xs + [x];
    forall i, j | 0 <= i < j < |r|
      ensures key(r[i]) != key(r[j])
    {
      assert r[i] == xs[i];
      if j < |xs| {
        assert r[j] == xs[j];
      }
    }
  }

  /** `findOne({key: k})`: the first element with key `k`. */
  function FindFirst<T>(xs: seq<T>, key: T -> string, k: string): (r: Option<T>)
    ensures r.None? <==> !Has(xs, key, k)
    ensures r.Some? ==> r.value in xs && key(r.value) == k
  {
    var i := FirstIndex(xs, key, k);
    if i < 0 then None else Some(xs[i])
  }

  /** Under a unique index, the element found is the only one with that key. */
  lemma FindFirstUnique<T>(xs: seq<T>, key: T -> string, i: nat)
    requires UniqueKeys(xs, key) && i < |xs|
    ensures FindFirst(xs, key, key(xs[i])) == Some(xs[i])
  {
    var j := FirstIndex(xs, key, key(xs[i]));
  }

  /** `deleteOne({key: k})`: drops the first element with key `k`, if any,
      and keeps every other element in order. */
  function RemoveFirst<T(==)>(xs: seq<T>, key: T -> string, k: string): (r: seq<T>)
    ensures !Has(xs, key, k) ==> r == xs
    ensures Has(xs, key, k) ==> |r| == |xs| - 1
  {
    var i := FirstIndex(xs, key, k);
    if i < 0 then xs else xs[..i] + xs[i + 1..]
  }

  /** Removal keeps every element with another key, adds nothing, and under a
      unique index leaves no element with the removed key. */
  lemma RemoveFirstKeeps<T>(xs: seq<T>, key: T -> string, k: string)
    ensures forall x :: x in RemoveFirst(xs, key, k) ==> x in xs
    ensures forall x :: x in xs && key(x) != k ==> x in RemoveFirst(xs, key, k)
    ensures UniqueKeys(xs, key) ==> UniqueKeys(RemoveFirst(xs, key, k), key) && !Has(RemoveFirst(xs, key, k), key, k)
  {
    var i := FirstIndex(xs, key, k);
    if i >= 0 {
      var r := xs[..i] + xs[i + 1..];
      DropAt(xs, i);
      forall x | x in xs && key(x) != k
        ensures x in r
      {
        var m :| 0 <= m < |xs| && xs[m] == x;
        assert xs[m] in r;
      }
      if UniqueKeys(xs, key) {
        forall a, b | 0 <= a < b < |r|
          ensures key(r[a]) != key(r[b])
        {
          assert r[a] == xs[Skip(a, i)] && r[b] == xs[Skip(b, i)];
        }
        forall m | 0 <= m < |r|
          ensures key(r[m]) != k
        {
          assert r[m] == xs[Skip(m, i)];
        }
      }
    }
  }

  /** Position in `xs` of position `m` of `xs` with position `i` dropped. */
  function Skip(m: nat, i: nat): nat {
    if m < i then m else m + 1
  }

  /** Dropping position `i` shifts the later elements down by one. */
  lemma DropAt<T>(xs: seq<T>, i: nat)
    requires i < |xs|
    ensures |xs[..i] + xs[i + 1..]| == |xs| - 1
    ensures forall m :: 0 <= m < |xs| - 1 ==> (xs[..i] + xs[i + 1..])[m] == xs[Skip(m, i)]
    ensures forall m :: 0 <= m < |xs| && m != i ==> xs[m] in xs[..i] + xs[i + 1..]
    ensures forall x :: x in xs[..i] + xs[i + 1..] ==> x in xs
  {
    var r := xs[..i] + xs[i + 1..];
    forall m | 0 <= m < |xs| && m != i
      ensures xs[m] in r
    {
      if m < i {
        assert r[m] == xs[m];
      } else {
        assert r[m - 1] == xs[m];
      }
    }
  }

  /** `deleteOne` cuts the collection at the first match: the elements before and
      after it stay, in their order. */
  lemma RemoveFirstSlice<T>(xs: seq<T>, key: T -> string, k: string)
    ensures Has(xs, key, k) ==>
      exists j :: 0 <= j < |xs| && key(xs[j]) == k && !Has(xs[..j], key, k)
        && RemoveFirst(xs, key, k) == xs[..j] + xs[j + 1..]
  {
    var j := FirstIndex(xs, key, k);
    if j >= 0 {
      assert RemoveFirst(xs, key, k) == xs[..j] + xs[j + 1..];
    }
  }

  /** When the first element with a key sits at `j`, removing by that key takes
      out exactly position `j`. */
  lemma RemoveFirstAt<T>(xs: seq<T>, key: T -> string, j: nat)
    requires j < |xs| && !Has(xs[..j], key, key(xs[j]))
    ensures RemoveFirst(xs, key, key(xs[j])) == xs[..j] + xs[j + 1..]
  {
    var i := FirstIndex(xs, key, key(xs[j]));
    assert i == j;
  }
}
