/** `POST /snippets/:id/rate`: validate the body and the id, overwrite or
    create the caller's rating, recompute the snippet's average and count
    from all of its ratings, store them on the snippet, and drop the
    snippet's cache entry. */
module RateRoute {

  import opened Wrappers
  import opened Models
  import opened Http
  import Cache
  import opened CacheKeys
  import opened Server

  /** The `value` field of a request body as the validator sees it: a JSON
      number, a string the validator converts to a number, or anything
      else. */
  datatype BodyValue = Number(x: real) | NumericText(x: real) | NotNumber

  /** A JSON request body: its fields by name. */
  type RateBody = map<string, BodyValue>

  /** The body schema: exactly one field, `value`, an integer from 1 to 5. */
  function ValidateRateBody(body: RateBody): (r: Option<int>)
    ensures r.Some? <==>
      && body.Keys == {"value"}
      && !body["value"].NotNumber?
      && body["value"].x in {1.0, 2.0, 3.0, 4.0, 5.0}
    ensures r.Some? ==> InRatingRange(r.value) && body["value"].x == r.value as real
  {
    if "value" !in body || body.Keys != {"value"} then None
    else
      match body["value"]
      case NotNumber => None
      case Number(x) => IntegerInRange(x)
      case NumericText(x) => IntegerInRange(x)
  }

  function IntegerInRange(x: real): (r: Option<int>)
    ensures r.Some? <==> x in {1.0, 2.0, 3.0, 4.0, 5.0}
    ensures r.Some? ==> r.value as real == x
  {
    if x == x.Floor as real && 1.0 <= x <= 5.0 then Some(x.Floor) else None
  }

  /** Overwrite the value of the pair's record, or append a new record
      created now. */
  function Upsert(rs: seq<Rating>, userId: UserId, snippetId: string, value: int, now: int): (r: seq<Rating>)
    ensures |r| == |rs| || |r| == |rs| + 1
    ensures |r| == |rs| + 1 <==> FindPair(rs, userId, snippetId).None?
    ensures forall x :: x in rs && !IsPair(x, userId, snippetId) ==> x in r
    ensures forall x :: x in r && !IsPair(x, userId, snippetId) ==> x in rs
    ensures FindPair(rs, userId, snippetId).None? ==> r[|rs|] == Rating(userId, snippetId, value, now)
    ensures FindPair(rs, userId, snippetId).Some? ==>
      var i := FindPair(rs, userId, snippetId).value;
      r[i] == rs[i].(value := value)
  {
    match FindPair(rs, userId, snippetId)
    case None => rs + [Rating(userId, snippetId, value, now)]
    case Some(i) =>
      var r := rs[i := rs[i].(value := value)];
      assert forall x :: x in r && !IsPair(x, userId, snippetId) ==> x in rs by {
        forall x | x in r && !IsPair(x, userId, snippetId)
          ensures x in rs
        {
          var k :| 0 <= k < |r| && r[k] == x;
          assert k != i;
        }
      }
      assert forall x :: x in rs && !IsPair(x, userId, snippetId) ==> x in r by {
        forall x | x in rs && !IsPair(x, userId, snippetId)
          ensures x in r
        {
          var k :| 0 <= k < |rs| && rs[k] == x;
          assert r[k] == x;
        }
      }
      r
  }

  /** Re-rating replaces the vote: afterwards the pair has exactly one
      record, holding the new value, and the unique index still holds. */
  lemma UpsertLeavesOneRecord(rs: seq<Rating>, userId: UserId, snippetId: string, value: int, now: int)
    requires RatingPairsUnique(rs)
    ensures var r := Upsert(rs, userId, snippetId, value, now);
      && RatingPairsUnique(r)
      && |PairRecords(r, userId, snippetId)| == 1
      && PairRecords(r, userId, snippetId)[0].value == value
  {
    var r := Upsert(rs, userId, snippetId, value, now);
    var f := FindPair(rs, userId, snippetId);
    var k := if f.Some? then f.value else |rs|;
    assert IsPair(r[k], userId, snippetId) && r[k].value == value;
    forall i, j | 0 <= i < j < |r|
      ensures r[i].userId != r[j].userId || r[i].snippetId != r[j].snippetId
    {
      if i != k && j != k {
        assert r[i] == rs[i] && r[j] == rs[j];
      } else if i == k {
        assert r[j] == rs[j];
      } else {
        assert r[i] == rs[i];
      }
    }
    OnlyRecord(r, userId, snippetId, k);
  }

  lemma {:induction false} OnlyRecord(rs: seq<Rating>, userId: UserId, snippetId: string, k: nat)
    requires RatingPairsUnique(rs) && k < |rs| && IsPair(rs[k], userId, snippetId)
    ensures PairRecords(rs, userId, snippetId) == [rs[k]]
  {
    assert rs == [rs[0]] + rs[1..];
    if k == 0 {
      NoRecord(rs[1..], userId, snippetId);
    } else {
      assert !IsPair(rs[0], userId, snippetId);
      OnlyRecord(rs[1..], userId, snippetId, k - 1);
    }
  }

  lemma {:induction false} NoRecord(rs: seq<Rating>, userId: UserId, snippetId: string)
    requires forall i :: 0 <= i < |rs| ==> !IsPair(rs[i], userId, snippetId)
    ensures PairRecords(rs, userId, snippetId) == []
  {
    if rs != [] {
      NoRecord(rs[1..], userId, snippetId);
    }
  }

  /** The values of all ratings of one snippet, in natural order: what the
      aggregation pipeline's `$match` stage passes on. */
  function ValuesFor(rs: seq<Rating>, snippetId: string): (vs: seq<int>)
    ensures |vs| <= |rs|
    ensures (forall i :: 0 <= i < |rs| ==> InRatingRange(rs[i].value)) ==>
              forall k :: 0 <= k < |vs| ==> InRatingRange(vs[k])
  {
    if rs == [] then []
    else
      var rest := ValuesFor(rs[1..], snippetId);
      if rs[0].snippetId == snippetId then [rs[0].value] + rest else rest
  }

  function Sum(vs: seq<int>): int {
    if vs == [] then 0 else vs[0] + Sum(vs[1..])
  }

  lemma {:induction false} SumBounds(vs: seq<int>)
    requires forall k :: 0 <= k < |vs| ==> InRatingRange(vs[k])
    ensures |vs| <= Sum(vs) <= 5 * |vs|
  {
    if vs != [] {
      SumBounds(vs[1..]);
    }
  }

  /** `avgRating` and `ratingCount` as stored on a snippet. */
  datatype Aggregate = Aggregate(avg: real, count: nat)

  /** The `$group` stage (`$avg` of the values, `$sum: 1`), or 0/0 when the
      snippet has no ratings. */
  function AggregateFor(rs: seq<Rating>, snippetId: string): (a: Aggregate)
    ensures a.count == |ValuesFor(rs, snippetId)|
    ensures IsMean(a.avg, ValuesFor(rs, snippetId))
    ensures (forall i :: 0 <= i < |rs| ==> InRatingRange(rs[i].value)) && a.count > 0 ==>
              1.0 <= a.avg <= 5.0
  {
    AggregateOf(ValuesFor(rs, snippetId))
  }

  /** `avg` is the arithmetic mean of `vs`, and 0 for no values. */
  predicate IsMean(avg: real, vs: seq<int>) {
    avg * |vs| as real == Sum(vs) as real && (vs == [] ==> avg == 0.0)
  }

  /** `$avg` and `$sum: 1` over a list of values. */
  function AggregateOf(vs: seq<int>): (a: Aggregate)
    ensures a.count == |vs|
    ensures IsMean(a.avg, vs)
    ensures (forall k :: 0 <= k < |vs| ==> InRatingRange(vs[k])) && a.count > 0 ==> 1.0 <= a.avg <= 5.0
  {
    if vs == [] then Aggregate(0.0, 0)
    else
      var n := |vs|;
      assert (forall k :: 0 <= k < |vs| ==> InRatingRange(vs[k])) ==> 1.0 <= Mean(Sum(vs), n) <= 5.0 by {
        if forall k :: 0 <= k < |vs| ==> InRatingRange(vs[k]) {
          SumBounds(vs);
          MeanBounds(Sum(vs), n);
        }
      }
      Aggregate(Mean(Sum(vs), n), n)
  }

  /** `s / n` as a real. */
  function Mean(s: int, n: nat): (m: real)
    requires n > 0
    ensures m * n as real == s as real
  {
    s as real / n as real
  }

  lemma MeanBounds(s: int, n: nat)
    requires n > 0 && n <= s <= 5 * n
    ensures 1.0 <= Mean(s, n) <= 5.0
  {
    var m, r := Mean(s, n), n as real;
    assert (m - 1.0) * r == s as real - r;
    assert (5.0 - m) * r == 5.0 * r - s as real;
    NonNegativeFactor(m - 1.0, r);
    NonNegativeFactor(5.0 - m, r);
  }

  lemma NonNegativeFactor(x: real, r: real)
    requires r > 0.0 && x * r >= 0.0
    ensures x >= 0.0
  {
  }

  /** `Snippet.findByIdAndUpdate(id, { avgRating, ratingCount })`: the
      snippet with that id gets the aggregate; no snippet, no change. */
  function SetAggregate(ss: seq<Snippet>, snippetId: string, a: Aggregate): (r: seq<Snippet>)
    ensures |r| == |ss|
    ensures forall i :: 0 <= i < |ss| ==>
      if ss[i].id == snippetId
      then r[i] == ss[i].(avgRating := a.avg, ratingCount := a.count)
      else r[i] == ss[i]
  {
    if ss == [] then []
    else
      var head := if ss[0].id == snippetId then ss[0].(avgRating := a.avg, ratingCount := a.count) else ss[0];
      [head] + SetAggregate(ss[1..], snippetId, a)
  }

  /** Every snippet's stored average and count agree with its ratings. */
  predicate AggregatesConsistent(db: Db) {
    forall i :: 0 <= i < |db.snippets| ==>
      var a := AggregateFor(db.ratings, db.snippets[i].id);
      db.snippets[i].avgRating == a.avg && db.snippets[i].ratingCount == a.count
  }

  /** The handler. The caller is the user the authentication middleware
      found, or none when the request had no usable token. */
  function Rate(st: State, caller: Option<UserId>, id: string, body: RateBody, now: int): (out: Step)
    ensures caller.None? ==> out == Step(st, Unauthorized)
    ensures caller.Some? && (ValidateRateBody(body).None? || !IsValidObjectId(id)) ==>
      out == Step(st, BadRequest)
    ensures out.response.Error? ==> out.state == st
    ensures out.response.Json? <==>
      caller.Some? && ValidateRateBody(body).Some? && IsValidObjectId(id)
    ensures out.response.Json? ==>
      var userId, value, sid := caller.value, ValidateRateBody(body).value, Canonical(id);
      var db := out.state.db;
      var a := AggregateFor(db.ratings, sid);
      && out.response.body == Rated(FindSnippet(db.snippets, sid), value)
      && db.ratings == Upsert(st.db.ratings, userId, sid, value, now)
      && db.favorites == st.db.favorites
      && |db.snippets| == |st.db.snippets|
      && (forall i :: 0 <= i < |db.snippets| ==>
            db.snippets[i].id == st.db.snippets[i].id
            && (db.snippets[i].id != sid ==> db.snippets[i] == st.db.snippets[i])
            && (db.snippets[i].id == sid ==>
                  db.snippets[i] == st.db.snippets[i].(avgRating := a.avg, ratingCount := a.count)))
      && SnippetKey(id) !in out.state.cache
      && (forall k :: k != SnippetKey(id) ==>
            (k in out.state.cache <==> k in st.cache)
            && (k in st.cache ==> out.state.cache[k] == st.cache[k]))
  {
    match caller
    case None => Step(st, Unauthorized)
    case Some(userId) =>
      match ValidateRateBody(body)
      case None => Step(st, BadRequest)
      case Some(value) =>
        if !IsValidObjectId(id) then Step(st, BadRequest)
        else
          var sid := Canonical(id);
          var ratings := Upsert(st.db.ratings, userId, sid, value, now);
          var snippets := SetAggregate(st.db.snippets, sid, AggregateFor(ratings, sid));
          var cache := Cache.Del(st.cache, SnippetKey(id));
          var db := Db(snippets, ratings, st.db.favorites);
          Step(State(db, cache), Json(Rated(FindSnippet(snippets, sid), value)))
  }
}
