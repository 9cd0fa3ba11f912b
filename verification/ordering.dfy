/** The result orders of the search handler. A snippet's rank is a pair
    compared lexicographically, greater first: (text score, 0) for a keyword
    search, (ratingCount, createdAt) otherwise. The store sorts by rank; the
    model breaks remaining ties by natural order (the sort is stable), one of
    the orders the store may produce. */
module Ordering {

  import opened Models

  datatype Rank = Rank(primary: real, secondary: int)

  /** `a` may come before `b` in a descending sort. */
  predicate Precedes(a: Rank, b: Rank) {
    a.primary > b.primary || (a.primary == b.primary && a.secondary >= b.secondary)
  }

  lemma PrecedesTotalPreorder(a: Rank, b: Rank, c: Rank)
    ensures Precedes(a, a)
    ensures Precedes(a, b) || Precedes(b, a)
    ensures Precedes(a, b) && Precedes(b, c) ==> Precedes(a, c)
  {
  }

  predicate SortedBy(xs: seq<Snippet>, rank: Snippet -> Rank) {
    forall i, j :: 0 <= i < j < |xs| ==> Precedes(rank(xs[i]), rank(xs[j]))
  }

  /** `x` placed into the sorted `xs` after every element that ranks
      strictly above it. */
  function Insert(x: Snippet, xs: seq<Snippet>, rank: Snippet -> Rank): (r: seq<Snippet>)
    requires SortedBy(xs, rank)
    ensures multiset(r) == multiset(xs) + multiset{x}
    ensures SortedBy(r, rank)
  {
    if xs == [] then [x]
    else if Precedes(rank(x), rank(xs[0])) then
      [x] + xs
    else
      var tail := Insert(x, xs[1..], rank);
      assert xs == [xs[0]] + xs[1..];
      HeadPrecedesAll(xs[0], x, xs[1..], tail, rank);
      ConsSorted(xs[0], tail, rank);
      [xs[0]] + tail
  }

  /** A head ranked above `x` and above the sorted rest ranks above any
      rearrangement of the two. */
  lemma HeadPrecedesAll(h: Snippet, x: Snippet, rest: seq<Snippet>, tail: seq<Snippet>, rank: Snippet -> Rank)
    requires SortedBy([h] + rest, rank) && Precedes(rank(h), rank(x))
    requires multiset(tail) == multiset(rest) + multiset{x}
    ensures forall k :: 0 <= k < |tail| ==> Precedes(rank(h), rank(tail[k]))
  {
    forall k | 0 <= k < |tail|
      ensures Precedes(rank(h), rank(tail[k]))
    {
      assert tail[k] in multiset(tail);
      if tail[k] != x {
        assert tail[k] in rest;
        var j :| 0 <= j < |rest| && rest[j] == tail[k];
        var all := [h] + rest;
        assert all[0] == h && all[j + 1] == tail[k];
        assert Precedes(rank(all[0]), rank(all[j + 1]));
      }
    }
  }

  lemma ConsSorted(h: Snippet, t: seq<Snippet>, rank: Snippet -> Rank)
    requires SortedBy(t, rank)
    requires forall k :: 0 <= k < |t| ==> Precedes(rank(h), rank(t[k]))
    ensures SortedBy([h] + t, rank)
  {
    var r := [h] + t;
    forall i, j | 0 <= i < j < |r|
      ensures Precedes(rank(r[i]), rank(r[j]))
    {
      assert r[j] == t[j - 1];
      if i > 0 { assert r[i] == t[i - 1]; }
    }
  }

  /** Sorting by rank, greatest first: a permutation of `xs` in rank order. */
  function SortByRank(xs: seq<Snippet>, rank: Snippet -> Rank): (r: seq<Snippet>)
    ensures multiset(r) == multiset(xs)
    ensures |r| == |xs|
    ensures SortedBy(r, rank)
  {
    if xs == [] then []
    else
      assert xs == [xs[0]] + xs[1..];
      Insert(xs[0], SortByRank(xs[1..], rank), rank)
  }
}
