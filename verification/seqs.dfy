/**
 Order-preserving list operations shared by the catalog views: `Array.prototype.filter`,
 the first-seen de-duplication performed by spreading a `Set`, and prefixes.
 */
module Seqs {

  /** `r` can be obtained from `s` by deleting elements, keeping the order of the rest. */
  predicate IsSubseq<T(==)>(r: seq<T>, s: seq<T>)
    decreases |s|
  {
    && |r| <= |s|
    && (|r| == 0 || (r[0] == s[0] && IsSubseq(r[1..], s[1..])) || IsSubseq(r, s[1..]))
  }

  predicate IsPrefix<T(==)>(r: seq<T>, s: seq<T>) {
    |r| <= |s| && r == s[..|r|]
  }

  predicate NoDuplicates<T(==)>(s: seq<T>) {
    forall i, j :: 0 <= i < j < |s| ==> s[i] != s[j]
  }

  function Min(a: int, b: int): int {
    if a <= b then a else b
  }

  /**
   Keeps the elements satisfying `p`, in their original order. The result is pinned down
   completely: a subsequence of `s`, only elements satisfying `p`, and every element
   satisfying `p` with its full multiplicity.
   */
  function Filter<T(==,!new)>(s: seq<T>, p: T -> bool): (r: seq<T>)
    ensures forall i :: 0 <= i < |r| ==> p(r[i])
    ensures forall x :: p(x) ==> multiset(r)[x] == multiset(s)[x]
    ensures forall x :: x in r ==> x in s
    ensures IsSubseq(r, s)
    decreases |s|
  {
    if |s| == 0 then []
    else
      assert s == [s[0]] + s[1..];
      assert multiset(s) == multiset{s[0]} + multiset(s[1..]);
      var rest := Filter(s[1..], p);
      if p(s[0]) then
        var r := [s[0]] + rest;
        assert r[1..] == rest;
        assert multiset(r) == multiset{s[0]} + multiset(rest);
        r
      else rest
  }

  /** Every element of a filtered sequence that satisfies `p` lies in the filter's output. */
  lemma FilterKeeps<T(!new)>(s: seq<T>, p: T -> bool, x: T)
    requires x in s && p(x)
    ensures x in Filter(s, p)
  {
    assert multiset(s)[x] > 0;
  }

  /** The position of the first occurrence of `x` in `s`. */
  function FirstIndex<T(==)>(s: seq<T>, x: T): (i: nat)
    requires x in s
    ensures i < |s| && s[i] == x && x !in s[..i]
  {
    if s[0] == x then 0
    else
      var j := FirstIndex(s[1..], x);
      assert s[..j + 1] == [s[0]] + s[1..][..j];
      j + 1
  }

  /** The first occurrence is characterised by its two defining facts. */
  lemma FirstIndexUnique<T>(s: seq<T>, x: T, i: nat)
    requires i < |s| && s[i] == x && x !in s[..i]
    ensures FirstIndex(s, x) == i
  {
    var j := FirstIndex(s, x);
    forall k | 0 <= k < i
      ensures s[k] != x
    {
      assert s[..i][k] == s[k];
    }
    forall k | 0 <= k < j
      ensures s[k] != x
    {
      assert s[..j][k] == s[k];
    }
  }

  /**
   Distinct elements of `s` in the order of their first occurrence: the sequence JavaScript
   produces by spreading a `Set` built from `s`. Built by appending, as the `Set` is filled.
   */
  function Dedup<T(==,!new)>(s: seq<T>): (r: seq<T>)
    ensures forall x :: x in r <==> x in s
    ensures NoDuplicates(r)
    ensures forall i, j :: 0 <= i < j < |r| ==> FirstIndex(s, r[i]) < FirstIndex(s, r[j])
    decreases |s|
  {
    if |s| == 0 then []
    else
      var init := s[..|s| - 1];
      var last := s[|s| - 1];
      var d := Dedup(init);
      assert s == init + [last];
      FirstIndexOfExtension(init, last);
      if last in d then d
      else
        FirstIndexUnique(s, last, |s| - 1);
        d + [last]
  }

  /** Appending an element does not move the first occurrence of anything already present. */
  lemma FirstIndexOfExtension<T>(s: seq<T>, y: T)
    ensures forall x :: x in s ==> FirstIndex(s + [y], x) == FirstIndex(s, x)
  {
    forall x | x in s
      ensures FirstIndex(s + [y], x) == FirstIndex(s, x)
    {
      var i := FirstIndex(s, x);
      assert (s + [y])[..i] == s[..i];
      FirstIndexUnique(s + [y], x, i);
    }
  }
}
