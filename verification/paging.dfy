/** `query.skip((page-1)*limit).limit(limit)` over an ordered result list,
    with the document store's reading of its arguments: a negative or
    non-numeric skip is refused, a limit of 0 means no limit, and a negative
    limit returns at most its absolute value of documents. */
module Paging {

  import opened Wrappers
  import opened Numbers

  /** `(page-1)*limit` in JavaScript arithmetic: NaN spreads. */
  function Skip(page: JsNum, limit: JsNum): (r: JsNum)
    ensures r.NaN? <==> page.NaN? || limit.NaN?
  {
    if page.NaN? || limit.NaN? then NaN else Int((page.value - 1) * limit.value)
  }

  /** How many documents survive `.limit(limit)` out of `available`. */
  function Taken(available: nat, limit: int): nat {
    if limit == 0 then available
    else
      var cap := if limit < 0 then -limit else limit;
      if available < cap then available else cap
  }

  /** How many of `n` documents remain after skipping `start` of them. */
  function Remaining(n: int, start: int): nat {
    if start < n then n - start else 0
  }

  /** The items are the documents of `xs` from position `start` on. */
  predicate ItemsFrom<T(==)>(items: seq<T>, xs: seq<T>, start: int) {
    forall k :: 0 <= k < |items| ==> 0 <= start + k < |xs| && items[k] == xs[start + k]
  }

  /** `items` is what skipping `start` documents of `xs` and then limiting
      to `limit` leaves: the documents from `start` on, as many of them as
      `Taken` lets through. */
  predicate IsWindowOf<T(==)>(items: seq<T>, xs: seq<T>, start: int, limit: int) {
    && start >= 0
    && |items| == Taken(Remaining(|xs|, start), limit)
    && ItemsFrom(items, xs, start)
  }

  /** The documents of `xs` after skipping `skip` and limiting to `limit`;
      None when the store refuses the query. */
  function Window<T>(xs: seq<T>, skip: JsNum, limit: JsNum): (r: Option<seq<T>>)
    ensures r.None? <==> skip.NaN? || limit.NaN? || skip.value < 0
    ensures r.Some? ==>
      var available := if skip.value <= |xs| then |xs| - skip.value else 0;
      && |r.value| == Taken(available, limit.value)
      && forall k :: 0 <= k < |r.value| ==> skip.value + k < |xs| && r.value[k] == xs[skip.value + k]
  {
    if skip.NaN? || limit.NaN? || skip.value < 0 then None
    else
      var start := if skip.value <= |xs| then skip.value else |xs|;
      var n := Taken(|xs| - start, limit.value);
      Some(xs[start..start + n])
  }

  lemma WindowFacts<T>(xs: seq<T>, skip: JsNum, limit: JsNum, items: seq<T>)
    requires Window(xs, skip, limit) == Some(items)
    ensures skip.Int? && limit.Int? && skip.value >= 0
    ensures limit.value > 0 ==> |items| <= limit.value
    ensures IsWindowOf(items, xs, skip.value, limit.value)
    ensures forall k :: 0 <= k < |items| ==> skip.value + k < |xs| && items[k] == xs[skip.value + k]
  {
  }

  /** A request for page `page` (at least 1) of `limit` (at least 1)
      documents is answered with at most `limit` documents, exactly the ones
      at positions `(page-1)*limit` onwards. */
  lemma PageIsSlice<T>(xs: seq<T>, page: int, limit: int)
    requires page >= 1 && limit >= 1
    ensures var r := Window(xs, Skip(Int(page), Int(limit)), Int(limit));
      && r.Some?
      && |r.value| <= limit
      && (|xs| >= page * limit ==> |r.value| == limit)
      && forall k :: 0 <= k < |r.value| ==>
           (page - 1) * limit + k < |xs| && r.value[k] == xs[(page - 1) * limit + k]
  {
    assert (page - 1) * limit >= 0;
    assert page * limit == (page - 1) * limit + limit;
  }

  /** Distinct pages share no document when the list has no repeats. */
  lemma {:induction false} PagesDisjoint<T>(xs: seq<T>, p1: int, p2: int, limit: int, x: T)
    requires forall i, j :: 0 <= i < j < |xs| ==> xs[i] != xs[j]
    requires 1 <= p1 < p2 && limit >= 1
    requires Window(xs, Skip(Int(p1), Int(limit)), Int(limit)).Some?
    requires Window(xs, Skip(Int(p2), Int(limit)), Int(limit)).Some?
    requires x in Window(xs, Skip(Int(p1), Int(limit)), Int(limit)).value
    ensures x !in Window(xs, Skip(Int(p2), Int(limit)), Int(limit)).value
  {
    var a := Window(xs, Skip(Int(p1), Int(limit)), Int(limit)).value;
    var b := Window(xs, Skip(Int(p2), Int(limit)), Int(limit)).value;
    PageIsSlice(xs, p1, limit);
    PageIsSlice(xs, p2, limit);
    var k1 :| 0 <= k1 < |a| && a[k1] == x;
    var i1 := (p1 - 1) * limit + k1;
    LaterPageStartsLater(p1, p2, limit);
    forall k2 | 0 <= k2 < |b|
      ensures b[k2] != x
    {
      var i2 := (p2 - 1) * limit + k2;
      assert i1 < i2;
      assert xs[i1] != xs[i2];
    }
  }

  lemma LaterPageStartsLater(p1: int, p2: int, limit: int)
    requires 1 <= p1 < p2 && limit >= 1
    ensures (p2 - 1) * limit >= (p1 - 1) * limit + limit
  {
    var d := p2 - p1;
    assert (p2 - 1) * limit == (p1 - 1) * limit + d * limit;
    assert d * limit == (d - 1) * limit + limit;
    assert (d - 1) * limit >= 0;
  }

  /** Every document of the list is on some page: the one at position `i`
      is item `i % limit` of page `i / limit + 1`. */
  lemma EveryIndexOnItsPage<T>(xs: seq<T>, i: int, limit: int)
    requires 0 <= i < |xs| && limit >= 1
    ensures var r := Window(xs, Skip(Int(i / limit + 1), Int(limit)), Int(limit));
      r.Some? && i % limit < |r.value| && r.value[i % limit] == xs[i]
  {
    var page := i / limit + 1;
    assert (page - 1) * limit + i % limit == i;
    PageIsSlice(xs, page, limit);
  }
}
