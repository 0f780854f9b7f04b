/**
 The home page's "popular items" ranking: available items sorted by rating, best first, with
 ties kept in catalog order (JavaScript's `Array.prototype.sort` is stable), cut to ten.
 */
module Ranking {
  import opened Wrappers
  import opened Seqs
  import opened Catalog

  /** How many items the home page shows as popular. */
  const PopularLimit: nat := 10

  /** The sort key `item.rating || 0`, in tenths of a star. */
  function Score(x: Item): int {
    x.rating.GetOr(0)
  }

  /** Ratings never increase along the sequence. */
  predicate SortedByRating(s: seq<Item>) {
    forall i, j :: 0 <= i < j < |s| ==> Score(s[i]) >= Score(s[j])
  }

  /** The items of `s` whose score is `k`, in order: the tie class of `k`. */
  function RatedAs(s: seq<Item>, k: int): (r: seq<Item>)
    ensures forall i :: 0 <= i < |r| ==> Score(r[i]) == k
    ensures forall x :: x in r ==> x in s
    decreases |s|
  {
    if |s| == 0 then []
    else if Score(s[0]) == k then
      [s[0]] + RatedAs(s[1..], k)
    else RatedAs(s[1..], k)
  }

  lemma RatedAsCons(x: Item, s: seq<Item>, k: int)
    ensures RatedAs([x] + s, k) == (if Score(x) == k then [x] else []) + RatedAs(s, k)
  {
    assert ([x] + s)[0] == x;
    assert ([x] + s)[1..] == s;
  }

  /** Tie classes distribute over concatenation. */
  lemma {:induction false} RatedAsAppend(a: seq<Item>, b: seq<Item>, k: int)
    ensures RatedAs(a + b, k) == RatedAs(a, k) + RatedAs(b, k)
    decreases |a|
  {
    if |a| == 0 {
      assert a + b == b;
    } else {
      assert a + b == [a[0]] + (a[1..] + b);
      assert a == [a[0]] + a[1..];
      RatedAsCons(a[0], a[1..] + b, k);
      RatedAsCons(a[0], a[1..], k);
      RatedAsAppend(a[1..], b, k);
    }
  }

  /** Every element lies in its own tie class. */
  lemma {:induction false} InTieClass(s: seq<Item>, i: nat)
    requires i < |s|
    ensures s[i] in RatedAs(s, Score(s[i]))
    decreases i
  {
    assert s == [s[0]] + s[1..];
    RatedAsCons(s[0], s[1..], Score(s[i]));
    if i > 0 {
      InTieClass(s[1..], i - 1);
    }
  }

  /** Places `x` before the first element it is not worse than (so ahead of its ties). */
  function Insert(x: Item, t: seq<Item>): (r: seq<Item>)
    requires SortedByRating(t)
    ensures SortedByRating(r)
    ensures multiset(r) == multiset(t) + multiset{x}
    ensures |r| == |t| + 1
    ensures r[0] == x || (|t| > 0 && r[0] == t[0])
    decreases |t|
  {
    if |t| == 0 || Score(x) >= Score(t[0]) then
      SortedCons(x, t);
      [x] + t
    else
      assert t == [t[0]] + t[1..];
      assert multiset(t) == multiset{t[0]} + multiset(t[1..]);
      SortedTail(t);
      var rest := Insert(x, t[1..]);
      assert |t| > 1 ==> Score(t[0]) >= Score(t[1]);
      assert Score(t[0]) >= Score(rest[0]);
      SortedCons(t[0], rest);
      var r := [t[0]] + rest;
      assert multiset(r) == multiset{t[0]} + multiset(rest);
      r
  }

  lemma SortedTail(t: seq<Item>)
    requires |t| > 0 && SortedByRating(t)
    ensures SortedByRating(t[1..])
  {
    forall i, j | 0 <= i < j < |t| - 1 ensures Score(t[1..][i]) >= Score(t[1..][j]) {
      assert t[1..][i] == t[i + 1] && t[1..][j] == t[j + 1];
    }
  }

  /** Putting an element no worse than the head in front keeps a sequence sorted. */
  lemma SortedCons(y: Item, r: seq<Item>)
    requires SortedByRating(r)
    requires |r| == 0 || Score(y) >= Score(r[0])
    ensures SortedByRating([y] + r)
  {
    var s := [y] + r;
    forall i, j | 0 <= i < j < |s| ensures Score(s[i]) >= Score(s[j]) {
      if i > 0 {
        assert s[i] == r[i - 1] && s[j] == r[j - 1];
      } else {
        assert s[j] == r[j - 1];
        assert Score(r[0]) >= Score(r[j - 1]) || j == 1;
      }
    }
  }

  /** Insertion sort: the stable sort by descending rating. */
  function SortByRating(s: seq<Item>): (r: seq<Item>)
    ensures SortedByRating(r)
    ensures multiset(r) == multiset(s)
    ensures |r| == |s|
    decreases |s|
  {
    if |s| == 0 then []
    else
      assert multiset(s) == multiset{s[0]} + multiset(s[1..]) by { assert s == [s[0]] + s[1..]; }
      Insert(s[0], SortByRating(s[1..]))
  }

  /** Inserting `x` adds it at the front of its own tie class and leaves the others alone. */
  lemma {:induction false} InsertTieClasses(x: Item, t: seq<Item>, k: int)
    requires SortedByRating(t)
    ensures RatedAs(Insert(x, t), k) == (if Score(x) == k then [x] else []) + RatedAs(t, k)
    decreases |t|
  {
    if |t| == 0 || Score(x) >= Score(t[0]) {
      RatedAsCons(x, t, k);
    } else {
      InsertTieClasses(x, t[1..], k);
      RatedAsCons(t[0], Insert(x, t[1..]), k);
      RatedAsCons(t[0], t[1..], k);
      assert t == [t[0]] + t[1..];
    }
  }

  /** Sorting keeps every tie class in its original order: the sort is stable. */
  lemma {:induction false} SortIsStable(s: seq<Item>, k: int)
    ensures RatedAs(SortByRating(s), k) == RatedAs(s, k)
    decreases |s|
  {
    if |s| > 0 {
      SortIsStable(s[1..], k);
      InsertTieClasses(s[0], SortByRating(s[1..]), k);
      RatedAsCons(s[0], s[1..], k);
      assert s == [s[0]] + s[1..];
    }
  }

  /**
   A stable sort by rating is unique: two rating-sorted sequences with the same tie classes
   are equal. So `SortByRating` is the only ordering with both properties.
   */
  lemma {:induction false} StableSortUnique(a: seq<Item>, b: seq<Item>)
    requires SortedByRating(a) && SortedByRating(b)
    requires forall k :: RatedAs(a, k) == RatedAs(b, k)
    ensures a == b
    decreases |a| + |b|
  {
    EmptyTogether(a, b);
    EmptyTogether(b, a);
    if |a| > 0 {
      var ka, kb := Score(a[0]), Score(b[0]);
      HeadScoreIsMax(a, b, ka);
      HeadScoreIsMax(b, a, kb);
      assert ka == kb;
      assert a == [a[0]] + a[1..] && b == [b[0]] + b[1..];
      RatedAsCons(a[0], a[1..], ka);
      RatedAsCons(b[0], b[1..], ka);
      assert RatedAs(a, ka)[0] == a[0] && RatedAs(b, ka)[0] == b[0];
      assert a[0] == b[0];
      forall k
        ensures RatedAs(a[1..], k) == RatedAs(b[1..], k)
      {
        RatedAsCons(a[0], a[1..], k);
        RatedAsCons(b[0], b[1..], k);
        var head := if Score(a[0]) == k then [a[0]] else [];
        assert RatedAs(a, k) == RatedAs(b, k);
        assert RatedAs(a[1..], k) == RatedAs(a, k)[|head|..];
        assert RatedAs(b[1..], k) == RatedAs(b, k)[|head|..];
      }
      StableSortUnique(a[1..], b[1..]);
    }
  }

  /** Sequences with the same tie classes are empty together. */
  lemma EmptyTogether(a: seq<Item>, b: seq<Item>)
    requires forall k :: RatedAs(a, k) == RatedAs(b, k)
    ensures |b| > 0 ==> |a| > 0
  {
    if |b| > 0 {
      InTieClass(b, 0);
      assert RatedAs(a, Score(b[0])) == RatedAs(b, Score(b[0]));
    }
  }

  /** If `a` has an element scoring `k`, so does `b`, and `b`'s head scores at least `k`. */
  lemma HeadScoreIsMax(a: seq<Item>, b: seq<Item>, k: int)
    requires |a| > 0 && |b| > 0 && Score(a[0]) == k
    requires SortedByRating(b)
    requires RatedAs(a, k) == RatedAs(b, k)
    ensures Score(b[0]) >= k
  {
    InTieClass(a, 0);
    var y := a[0];
    assert y in RatedAs(b, k);
    var j :| 0 <= j < |b| && b[j] == y;
  }

  /** The available items, in catalog order. */
  function Available(items: seq<Item>): (r: seq<Item>)
    ensures forall i :: 0 <= i < |r| ==> r[i].available
    ensures forall x: Item :: x.available ==> multiset(r)[x] == multiset(items)[x]
    ensures forall x :: x in r ==> x in items
    ensures IsSubseq(r, items)
  {
    Filter(items, (x: Item) => x.available)
  }

  /**
   The popular list shown with an empty search: available items only, best rated first, at
   most ten, nothing better rated left out, and ties in catalog order.
   */
  function TopRated(items: seq<Item>): (r: seq<Item>)
    ensures forall i :: 0 <= i < |r| ==> r[i].available
    ensures SortedByRating(r)
    ensures |r| == Min(PopularLimit, |Available(items)|)
    ensures multiset(r) <= multiset(Available(items))
    ensures forall y, i :: multiset(Available(items))[y] > multiset(r)[y] && 0 <= i < |r| ==>
      Score(y) <= Score(r[i])
    ensures forall k :: IsPrefix(RatedAs(r, k), RatedAs(Available(items), k))
  {
    var avail := Available(items);
    var t := SortByRating(avail);
    var n := Min(PopularLimit, |t|);
    PrefixFacts(avail, t, n);
    TopExcludedRankLower(t, n);
    TopTiesInOrder(avail, t, n);
    t[..n]
  }

  /** A prefix of the sorted available list holds only available items, in rating order. */
  lemma PrefixFacts(avail: seq<Item>, t: seq<Item>, n: nat)
    requires forall i :: 0 <= i < |avail| ==> avail[i].available
    requires SortedByRating(t) && multiset(t) == multiset(avail) && n <= |t|
    ensures forall i :: 0 <= i < n ==> t[i].available
    ensures SortedByRating(t[..n])
    ensures multiset(t[..n]) <= multiset(avail)
  {
    assert t == t[..n] + t[n..];
    forall i | 0 <= i < n ensures t[i].available {
      assert t[i] in multiset(avail);
    }
  }

  /** Whatever a sorted list's prefix leaves out is rated no higher than anything it keeps. */
  lemma TopExcludedRankLower(t: seq<Item>, n: nat)
    requires SortedByRating(t) && n <= |t|
    ensures forall y, i :: multiset(t)[y] > multiset(t[..n])[y] && 0 <= i < n ==> Score(y) <= Score(t[i])
  {
    assert t == t[..n] + t[n..];
    forall y, i | multiset(t)[y] > multiset(t[..n])[y] && 0 <= i < n
      ensures Score(y) <= Score(t[i])
    {
      assert y in multiset(t[n..]);
      var j :| 0 <= j < |t[n..]| && t[n..][j] == y;
      assert t[n + j] == y;
    }
  }

  /** The kept prefix of the sorted list keeps every tie class as a prefix of the catalog's. */
  lemma TopTiesInOrder(avail: seq<Item>, t: seq<Item>, n: nat)
    requires t == SortByRating(avail) && n <= |t|
    ensures forall k :: IsPrefix(RatedAs(t[..n], k), RatedAs(avail, k))
  {
    forall k ensures IsPrefix(RatedAs(t[..n], k), RatedAs(avail, k)) {
      TiePrefix(t, n, k);
      SortIsStable(avail, k);
    }
  }

  /** The tie class of a prefix is a prefix of the tie class. */
  lemma TiePrefix(t: seq<Item>, n: nat, k: int)
    requires n <= |t|
    ensures IsPrefix(RatedAs(t[..n], k), RatedAs(t, k))
  {
    assert t == t[..n] + t[n..];
    RatedAsAppend(t[..n], t[n..], k);
    var a, b := RatedAs(t[..n], k), RatedAs(t[n..], k);
    assert (a + b)[..|a|] == a;
  }

  /**
   The popular list is the first ten of any stable rating sort of the available items: any
   rating-sorted arrangement that keeps every tie class in catalog order gives the same list.
   */
  lemma TopRatedIsPrefixOfStableSort(items: seq<Item>, sorted: seq<Item>)
    requires SortedByRating(sorted)
    requires forall k :: RatedAs(sorted, k) == RatedAs(Available(items), k)
    ensures |sorted| == |Available(items)|
    ensures TopRated(items) == sorted[..Min(PopularLimit, |sorted|)]
  {
    var avail := Available(items);
    forall k ensures RatedAs(sorted, k) == RatedAs(SortByRating(avail), k) {
      SortIsStable(avail, k);
    }
    StableSortUnique(sorted, SortByRating(avail));
  }
}
