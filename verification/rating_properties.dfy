/** What a rate call, and a run of them, does to the store and the cache. */
module RateProperties {

  import opened Wrappers
  import opened Models
  import opened Http
  import Cache
  import opened CacheKeys
  import opened Server
  import opened RateRoute
  import opened SnippetRead

  lemma {:induction false} FindPairAppend(rs: seq<Rating>, x: Rating, userId: UserId, snippetId: string)
    ensures FindPair(rs + [x], userId, snippetId) ==
      if FindPair(rs, userId, snippetId).Some? then FindPair(rs, userId, snippetId)
      else if IsPair(x, userId, snippetId) then Some(|rs|)
      else None
  {
    if rs == [] {
      assert rs + [x] == [x];
    } else {
      assert (rs + [x])[1..] == rs[1..] + [x];
      FindPairAppend(rs[1..], x, userId, snippetId);
    }
  }

  lemma {:induction false} FindPairUpdate(rs: seq<Rating>, i: nat, x: Rating, userId: UserId, snippetId: string)
    requires i < |rs|
    requires IsPair(x, userId, snippetId) <==> IsPair(rs[i], userId, snippetId)
    ensures FindPair(rs[i := x], userId, snippetId) == FindPair(rs, userId, snippetId)
  {
    if i > 0 {
      assert rs[i := x][1..] == rs[1..][i - 1 := x];
      FindPairUpdate(rs[1..], i - 1, x, userId, snippetId);
    }
  }

  /** After a rate call by `userId`, that user's rating of the snippet is the
      new value and every other rating reads as before. */
  lemma RatingOfUpsert(rs: seq<Rating>, userId: UserId, snippetId: string, value: int, now: int,
                       u: UserId, s: string)
    ensures RatingOf(Upsert(rs, userId, snippetId, value, now), u, s) ==
      if u == userId && s == snippetId then Some(value) else RatingOf(rs, u, s)
  {
    var x := Rating(userId, snippetId, value, now);
    match FindPair(rs, userId, snippetId)
    case None =>
      FindPairAppend(rs, x, u, s);
    case Some(i) =>
      FindPairUpdate(rs, i, rs[i].(value := value), u, s);
      if FindPair(rs, u, s).Some? {
        var j := FindPair(rs, u, s).value;
        assert (u == userId && s == snippetId) == (j == i);
      }
  }

  /** The users who have rated a snippet. */
  function RatersOf(rs: seq<Rating>, snippetId: string): set<UserId> {
    if rs == [] then {}
    else if rs[0].snippetId == snippetId then {rs[0].userId} + RatersOf(rs[1..], snippetId)
    else RatersOf(rs[1..], snippetId)
  }

  /** The raters are exactly the users with a rating of the snippet. */
  lemma {:induction false} RaterMeans(rs: seq<Rating>, snippetId: string, u: UserId)
    ensures u in RatersOf(rs, snippetId) <==> RatingOf(rs, u, snippetId).Some?
  {
    if rs != [] {
      RaterMeans(rs[1..], snippetId, u);
      assert RatingOf(rs, u, snippetId).Some? <==> FindPair(rs, u, snippetId).Some?;
      assert RatingOf(rs[1..], u, snippetId).Some? <==> FindPair(rs[1..], u, snippetId).Some?;
    }
  }

  /** With the unique index in place, a snippet has one rating per rater. */
  lemma {:induction false} CountIsRaters(rs: seq<Rating>, snippetId: string)
    requires RatingPairsUnique(rs)
    ensures |ValuesFor(rs, snippetId)| == |RatersOf(rs, snippetId)|
  {
    if rs != [] {
      var t := rs[1..];
      TailPairsUnique(rs);
      CountIsRaters(t, snippetId);
      if rs[0].snippetId == snippetId {
        HeadNotRaterOfTail(rs, snippetId);
      }
    }
  }

  lemma TailPairsUnique(rs: seq<Rating>)
    requires rs != [] && RatingPairsUnique(rs)
    ensures RatingPairsUnique(rs[1..])
  {
    var t := rs[1..];
    forall i, j | 0 <= i < j < |t|
      ensures t[i].userId != t[j].userId || t[i].snippetId != t[j].snippetId
    {
      assert t[i] == rs[i + 1] && t[j] == rs[j + 1];
    }
  }

  lemma HeadNotRaterOfTail(rs: seq<Rating>, snippetId: string)
    requires rs != [] && RatingPairsUnique(rs) && rs[0].snippetId == snippetId
    ensures rs[0].userId !in RatersOf(rs[1..], snippetId)
  {
    var t := rs[1..];
    forall k | 0 <= k < |t|
      ensures !IsPair(t[k], rs[0].userId, snippetId)
    {
      assert t[k] == rs[k + 1];
    }
    RaterMeans(t, snippetId, rs[0].userId);
  }

  lemma {:induction false} ValuesForAppend(rs: seq<Rating>, x: Rating, snippetId: string)
    ensures ValuesFor(rs + [x], snippetId) ==
      ValuesFor(rs, snippetId) + (if x.snippetId == snippetId then [x.value] else [])
  {
    if rs == [] {
      assert rs + [x] == [x];
    } else {
      assert (rs + [x])[1..] == rs[1..] + [x];
      ValuesForAppend(rs[1..], x, snippetId);
    }
  }

  lemma {:induction false} ValuesForUpdate(rs: seq<Rating>, i: nat, x: Rating, snippetId: string)
    requires i < |rs| && rs[i].snippetId != snippetId && x.snippetId != snippetId
    ensures ValuesFor(rs[i := x], snippetId) == ValuesFor(rs, snippetId)
  {
    if i > 0 {
      assert rs[i := x][1..] == rs[1..][i - 1 := x];
      ValuesForUpdate(rs[1..], i - 1, x, snippetId);
    }
  }

  /** Rating one snippet leaves the rating values of every other snippet,
      and so their aggregates, as they were. */
  lemma UpsertOtherSnippet(rs: seq<Rating>, userId: UserId, snippetId: string, value: int, now: int, other: string)
    requires other != snippetId
    ensures ValuesFor(Upsert(rs, userId, snippetId, value, now), other) == ValuesFor(rs, other)
    ensures AggregateFor(Upsert(rs, userId, snippetId, value, now), other) == AggregateFor(rs, other)
  {
    match FindPair(rs, userId, snippetId)
    case None =>
      ValuesForAppend(rs, Rating(userId, snippetId, value, now), other);
    case Some(i) =>
      ValuesForUpdate(rs, i, rs[i].(value := value), other);
  }

  lemma UpsertKeepsRatingsValid(rs: seq<Rating>, userId: UserId, snippetId: string, value: int, now: int)
    requires RatingPairsUnique(rs) && InRatingRange(value) && IsCanonicalId(snippetId)
    requires forall i :: 0 <= i < |rs| ==> InRatingRange(rs[i].value) && IsCanonicalId(rs[i].snippetId)
    ensures var r := Upsert(rs, userId, snippetId, value, now);
      && RatingPairsUnique(r)
      && forall i :: 0 <= i < |r| ==> InRatingRange(r[i].value) && IsCanonicalId(r[i].snippetId)
  {
    var r := Upsert(rs, userId, snippetId, value, now);
    UpsertLeavesOneRecord(rs, userId, snippetId, value, now);
    forall i | 0 <= i < |r|
      ensures InRatingRange(r[i].value) && IsCanonicalId(r[i].snippetId)
    {
      if IsPair(r[i], userId, snippetId) {
        assert r[i] in PairRecords(r, userId, snippetId);
      } else {
        assert r[i] in rs;
      }
    }
  }

  /** A rate call keeps every schema and index constraint of the store. */
  lemma RateKeepsStoreValid(st: State, caller: Option<UserId>, id: string, body: RateBody, now: int)
    requires st.db.Valid()
    ensures Rate(st, caller, id, body, now).state.db.Valid()
  {
    var out := Rate(st, caller, id, body, now);
    if out.response.Json? {
      var sid := Canonical(id);
      UpsertKeepsRatingsValid(st.db.ratings, caller.value, sid, ValidateRateBody(body).value, now);
      var ss := out.state.db.snippets;
      assert forall i :: 0 <= i < |ss| ==> ss[i].id == st.db.snippets[i].id && ss[i].title == st.db.snippets[i].title;
      SnippetsStayValid(st.db.snippets, ss);
    }
  }

  /** Snippets with the same ids and titles in the same places keep the
      snippet constraints of the store. */
  lemma SnippetsStayValid(ss: seq<Snippet>, ss': seq<Snippet>)
    requires SnippetIdsUnique(ss)
    requires forall i :: 0 <= i < |ss| ==> IsCanonicalId(ss[i].id) && ss[i].title != ""
    requires |ss'| == |ss|
    requires forall i :: 0 <= i < |ss'| ==> ss'[i].id == ss[i].id && ss'[i].title == ss[i].title
    ensures SnippetIdsUnique(ss')
    ensures forall i :: 0 <= i < |ss'| ==> IsCanonicalId(ss'[i].id) && ss'[i].title != ""
  {
  }

  /** A rate call keeps every snippet's stored average and count equal to
      the aggregate of its ratings. */
  lemma RateKeepsAggregatesConsistent(st: State, caller: Option<UserId>, id: string, body: RateBody, now: int)
    requires AggregatesConsistent(st.db)
    ensures AggregatesConsistent(Rate(st, caller, id, body, now).state.db)
  {
    var out := Rate(st, caller, id, body, now);
    if out.response.Json? {
      var sid := Canonical(id);
      var db := out.state.db;
      forall i | 0 <= i < |db.snippets|
        ensures db.snippets[i].avgRating == AggregateFor(db.ratings, db.snippets[i].id).avg
        ensures db.snippets[i].ratingCount == AggregateFor(db.ratings, db.snippets[i].id).count
      {
        if db.snippets[i].id != sid {
          UpsertOtherSnippet(st.db.ratings, caller.value, sid, ValidateRateBody(body).value, now, db.snippets[i].id);
        }
      }
    }
  }

  /** After a rate call the caller reads back the value they gave, and
      every other user's rating of every snippet reads as before. */
  lemma RateThenGetRating(st: State, userId: UserId, id: string, body: RateBody, now: int,
                          other: UserId, otherId: string)
    requires ValidateRateBody(body).Some? && IsValidObjectId(id) && IsValidObjectId(otherId)
    ensures var after := Rate(st, Some(userId), id, body, now).state;
      && GetRating(after, Some(userId), id) == Json(UserRating(Some(ValidateRateBody(body).value)))
      && (other != userId || Canonical(otherId) != Canonical(id) ==>
            GetRating(after, Some(other), otherId) == GetRating(st, Some(other), otherId))
  {
    var v := ValidateRateBody(body).value;
    RatingOfUpsert(st.db.ratings, userId, Canonical(id), v, now, userId, Canonical(id));
    RatingOfUpsert(st.db.ratings, userId, Canonical(id), v, now, other, Canonical(otherId));
  }

  /** The rating is recorded even when no snippet has the id: the handler
      never checks, and answers with a null snippet. */
  lemma RateUnknownSnippet(st: State, userId: UserId, id: string, body: RateBody, now: int)
    requires ValidateRateBody(body).Some? && IsValidObjectId(id)
    requires FindSnippet(st.db.snippets, Canonical(id)).None?
    ensures var out := Rate(st, Some(userId), id, body, now);
      && out.response == Json(Rated(None, ValidateRateBody(body).value))
      && out.state.db.snippets == st.db.snippets
      && RatingOf(out.state.db.ratings, userId, Canonical(id)) == Some(ValidateRateBody(body).value)
  {
    var out := Rate(st, Some(userId), id, body, now);
    var ss := out.state.db.snippets;
    assert forall i :: 0 <= i < |ss| ==> ss[i] == st.db.snippets[i];
    assert ss == st.db.snippets;
    RatingOfUpsert(st.db.ratings, userId, Canonical(id), ValidateRateBody(body).value, now, userId, Canonical(id));
  }

  /** The search pages in the cache survive a rate call untouched, even
      though their order may depend on the counts it changed. */
  lemma RateKeepsSearchPages(st: State, caller: Option<UserId>, id: string, body: RateBody, now: int,
                             q: string, lang: string, tag: string, page: Numbers.JsNum, limit: Numbers.JsNum)
    requires SearchKeyAsWritten(q, lang, tag, page, limit) in st.cache
    ensures var c := Rate(st, caller, id, body, now).state.cache;
      var k := SearchKeyAsWritten(q, lang, tag, page, limit);
      k in c && c[k] == st.cache[k]
  {
    KeyspacesDisjoint(q, lang, tag, page, limit, id);
  }

  /** Once a rate call has returned, reading the snippet by the same id text
      goes to the store and shows the new average and count. */
  lemma ReadAfterRate(st: State, userId: UserId, id: string, body: RateBody, now: int, cfg: Config)
    requires ValidateRateBody(body).Some? && IsValidObjectId(id)
    requires FindSnippet(st.db.snippets, Canonical(id)).Some?
    requires cfg.snippetTtl.Int? && cfg.snippetTtl.value > 0
    ensures var after := Rate(st, Some(userId), id, body, now).state;
      var read := GetSnippet(after, id, cfg);
      var a := AggregateFor(after.db.ratings, Canonical(id));
      && read.response.Json? && read.response.body.SnippetDoc?
      && read.response.body.snippet.id == Canonical(id)
      && read.response.body.snippet.avgRating == a.avg
      && read.response.body.snippet.ratingCount == a.count
  {
    var after := Rate(st, Some(userId), id, body, now).state;
    var sid := Canonical(id);
    var s := FindSnippet(after.db.snippets, sid);
    SetAggregateFinds(st.db.snippets, sid, AggregateFor(after.db.ratings, sid));
  }

  lemma {:induction false} SetAggregateFinds(ss: seq<Snippet>, sid: string, a: Aggregate)
    requires FindSnippet(ss, sid).Some?
    ensures FindSnippet(SetAggregate(ss, sid, a), sid).Some?
    ensures FindSnippet(SetAggregate(ss, sid, a), sid).value ==
      FindSnippet(ss, sid).value.(avgRating := a.avg, ratingCount := a.count)
  {
    if ss[0].id != sid {
      SetAggregateFinds(ss[1..], sid, a);
      assert SetAggregate(ss, sid, a)[1..] == SetAggregate(ss[1..], sid, a);
    }
  }

  /** Re-rating: 3 and then 5 from the same user leave one record for the
      pair, holding 5, and the response reports 5. */
  lemma ReRateOverwrites(st: State, userId: UserId, id: string, now1: int, now2: int)
    requires st.db.Valid() && IsValidObjectId(id)
    ensures var first := Rate(st, Some(userId), id, map["value" := Number(3.0)], now1);
      var second := Rate(first.state, Some(userId), id, map["value" := Number(5.0)], now2);
      && second.response.Json? && second.response.body.yourRating == 5
      && |PairRecords(second.state.db.ratings, userId, Canonical(id))| == 1
      && PairRecords(second.state.db.ratings, userId, Canonical(id))[0].value == 5
  {
    var b3: RateBody := map["value" := Number(3.0)];
    var b5: RateBody := map["value" := Number(5.0)];
    assert ValidateRateBody(b3) == Some(3);
    assert ValidateRateBody(b5) == Some(5);
    var first := Rate(st, Some(userId), id, b3, now1);
    RateKeepsStoreValid(st, Some(userId), id, b3, now1);
    UpsertLeavesOneRecord(first.state.db.ratings, userId, Canonical(id), 5, now2);
  }

  /** One rate call of a run: who rates, and with which value. */
  datatype Vote = Vote(userId: UserId, value: int)

  function VoteBody(v: Vote): RateBody {
    map["value" := Number(v.value as real)]
  }

  /** Rate calls on one snippet id, applied in order. */
  function RateAll(st: State, id: string, votes: seq<Vote>, now: int): State
    decreases |votes|
  {
    if votes == [] then st
    else RateAll(Rate(st, Some(votes[0].userId), id, VoteBody(votes[0]), now).state, id, votes[1..], now)
  }

  /** The value of a user's last vote in the run. */
  function Latest(votes: seq<Vote>, u: UserId): Option<int> {
    if votes == [] then None
    else match Latest(votes[1..], u)
      case Some(v) => Some(v)
      case None => if votes[0].userId == u then Some(votes[0].value) else None
  }

  function Voters(votes: seq<Vote>): set<UserId> {
    if votes == [] then {} else {votes[0].userId} + Voters(votes[1..])
  }

  predicate VotesInRange(votes: seq<Vote>) {
    forall k :: 0 <= k < |votes| ==> InRatingRange(votes[k].value)
  }

  lemma VoteBodyAccepted(v: Vote)
    requires InRatingRange(v.value)
    ensures ValidateRateBody(VoteBody(v)) == Some(v.value)
  {
    var body := VoteBody(v);
    assert body.Keys == {"value"};
    assert body["value"].x in {1.0, 2.0, 3.0, 4.0, 5.0};
  }

  lemma RatersOfUpsert(rs: seq<Rating>, userId: UserId, snippetId: string, value: int, now: int)
    ensures RatersOf(Upsert(rs, userId, snippetId, value, now), snippetId) == RatersOf(rs, snippetId) + {userId}
  {
    forall u
      ensures u in RatersOf(Upsert(rs, userId, snippetId, value, now), snippetId) <==> u in RatersOf(rs, snippetId) + {userId}
    {
      RatingOfUpsert(rs, userId, snippetId, value, now, u, snippetId);
      RaterMeans(rs, snippetId, u);
      RaterMeans(Upsert(rs, userId, snippetId, value, now), snippetId, u);
    }
  }

  /** One vote in range is always accepted for a valid id, keeps the store
      valid, and sets exactly the voter's rating. */
  lemma VoteStep(st: State, id: string, v: Vote, now: int)
    requires st.db.Valid() && IsValidObjectId(id) && InRatingRange(v.value)
    ensures var out := Rate(st, Some(v.userId), id, VoteBody(v), now);
      && out.response.Json?
      && out.state.db.Valid()
      && out.state.db.ratings == Upsert(st.db.ratings, v.userId, Canonical(id), v.value, now)
  {
    VoteBodyAccepted(v);
    RateKeepsStoreValid(st, Some(v.userId), id, VoteBody(v), now);
  }

  /** The ratings a run of rate calls leaves, as one upsert per vote. */
  function UpsertAll(rs: seq<Rating>, votes: seq<Vote>, snippetId: string, now: int): seq<Rating>
    decreases |votes|
  {
    if votes == [] then rs
    else UpsertAll(Upsert(rs, votes[0].userId, snippetId, votes[0].value, now), votes[1..], snippetId, now)
  }

  /** A run of accepted votes keeps the store valid and upserts each vote's
      rating in turn. */
  lemma {:induction false} RateAllUpserts(st: State, id: string, votes: seq<Vote>, now: int)
    requires st.db.Valid() && IsValidObjectId(id) && VotesInRange(votes)
    ensures RateAll(st, id, votes, now).db.Valid()
    ensures RateAll(st, id, votes, now).db.ratings == UpsertAll(st.db.ratings, votes, Canonical(id), now)
    decreases |votes|
  {
    if votes != [] {
      VoteStep(st, id, votes[0], now);
      RateAllUpserts(Rate(st, Some(votes[0].userId), id, VoteBody(votes[0]), now).state, id, votes[1..], now);
    }
  }

  lemma {:induction false} UpsertAllRatings(rs: seq<Rating>, votes: seq<Vote>, snippetId: string, now: int, u: UserId)
    ensures RatingOf(UpsertAll(rs, votes, snippetId, now), u, snippetId) ==
      if Latest(votes, u).Some? then Latest(votes, u) else RatingOf(rs, u, snippetId)
    decreases |votes|
  {
    if votes != [] {
      RatingOfUpsert(rs, votes[0].userId, snippetId, votes[0].value, now, u, snippetId);
      UpsertAllRatings(Upsert(rs, votes[0].userId, snippetId, votes[0].value, now), votes[1..], snippetId, now, u);
    }
  }

  lemma {:induction false} UpsertAllRaters(rs: seq<Rating>, votes: seq<Vote>, snippetId: string, now: int)
    ensures RatersOf(UpsertAll(rs, votes, snippetId, now), snippetId) == RatersOf(rs, snippetId) + Voters(votes)
    decreases |votes|
  {
    if votes != [] {
      RatersOfUpsert(rs, votes[0].userId, snippetId, votes[0].value, now);
      UpsertAllRaters(Upsert(rs, votes[0].userId, snippetId, votes[0].value, now), votes[1..], snippetId, now);
    }
  }

  /** After a run of rate calls each user's rating of the snippet is their
      last vote, or what it was before for users who did not vote. */
  lemma RateAllRatings(st: State, id: string, votes: seq<Vote>, now: int, u: UserId)
    requires st.db.Valid() && IsValidObjectId(id) && VotesInRange(votes)
    ensures RatingOf(RateAll(st, id, votes, now).db.ratings, u, Canonical(id)) ==
      if Latest(votes, u).Some? then Latest(votes, u) else RatingOf(st.db.ratings, u, Canonical(id))
  {
    RateAllUpserts(st, id, votes, now);
    UpsertAllRatings(st.db.ratings, votes, Canonical(id), now, u);
  }

  /** The raters after a run are the earlier raters plus the voters. */
  lemma RateAllRaters(st: State, id: string, votes: seq<Vote>, now: int)
    requires st.db.Valid() && IsValidObjectId(id) && VotesInRange(votes)
    ensures RatersOf(RateAll(st, id, votes, now).db.ratings, Canonical(id)) ==
      RatersOf(st.db.ratings, Canonical(id)) + Voters(votes)
  {
    RateAllUpserts(st, id, votes, now);
    UpsertAllRaters(st.db.ratings, votes, Canonical(id), now);
  }

  /** Every snippet stored under `snippetId` carries its ratings' aggregate. */
  predicate StoresAggregate(db: Db, snippetId: string) {
    forall i :: 0 <= i < |db.snippets| && db.snippets[i].id == snippetId ==>
      db.snippets[i].avgRating == AggregateFor(db.ratings, snippetId).avg
      && db.snippets[i].ratingCount == AggregateFor(db.ratings, snippetId).count
  }

  lemma VoteStoresAggregate(st: State, id: string, v: Vote, now: int)
    requires st.db.Valid() && IsValidObjectId(id) && InRatingRange(v.value)
    ensures StoresAggregate(Rate(st, Some(v.userId), id, VoteBody(v), now).state.db, Canonical(id))
  {
    VoteBodyAccepted(v);
  }

  /** After a non-empty run the snippet's stored average and count are the
      aggregate of its ratings. */
  lemma {:induction false} RateAllStoresAggregate(st: State, id: string, votes: seq<Vote>, now: int)
    requires st.db.Valid() && IsValidObjectId(id) && VotesInRange(votes) && votes != []
    ensures StoresAggregate(RateAll(st, id, votes, now).db, Canonical(id))
    decreases |votes|
  {
    VoteStep(st, id, votes[0], now);
    VoteStoresAggregate(st, id, votes[0], now);
    var next := Rate(st, Some(votes[0].userId), id, VoteBody(votes[0]), now).state;
    if |votes| > 1 {
      RateAllStoresAggregate(next, id, votes[1..], now);
    } else {
      assert RateAll(st, id, votes, now) == RateAll(next, id, [], now);
    }
  }

  /** On a snippet that had no ratings, a run of rate calls leaves each
      user with exactly their last vote on record, and none for users who
      did not vote. */
  lemma RunRatings(st: State, id: string, votes: seq<Vote>, now: int)
    requires st.db.Valid() && IsValidObjectId(id) && VotesInRange(votes)
    requires RatersOf(st.db.ratings, Canonical(id)) == {}
    ensures forall u :: RatingOf(RateAll(st, id, votes, now).db.ratings, u, Canonical(id)) == Latest(votes, u)
  {
    forall u
      ensures RatingOf(RateAll(st, id, votes, now).db.ratings, u, Canonical(id)) == Latest(votes, u)
    {
      RateAllRatings(st, id, votes, now, u);
      RaterMeans(st.db.ratings, Canonical(id), u);
    }
  }

  /** The values that stand at the end of a run, one per voter: a vote
      stands when its user does not vote again later in the run. */
  function LastVotes(votes: seq<Vote>): seq<int> {
    if votes == [] then []
    else (if votes[0].userId in Voters(votes[1..]) then [] else [votes[0].value]) + LastVotes(votes[1..])
  }

  /** The user's last vote in the run as a multiset: empty if they did not vote. */
  function StandingVote(votes: seq<Vote>, u: UserId): multiset<int> {
    match Latest(votes, u)
    case None => multiset{}
    case Some(v) => multiset{v}
  }

  lemma {:induction false} LatestVoter(votes: seq<Vote>, u: UserId)
    ensures Latest(votes, u).Some? <==> u in Voters(votes)
  {
    if votes != [] {
      LatestVoter(votes[1..], u);
    }
  }

  lemma {:induction false} StandingVoteCounted(votes: seq<Vote>, u: UserId)
    ensures StandingVote(votes, u) <= multiset(LastVotes(votes))
  {
    if votes != [] {
      StandingVoteCounted(votes[1..], u);
      LatestVoter(votes[1..], u);
    }
  }

  lemma {:induction false} VotersSnoc(votes: seq<Vote>, w: Vote)
    ensures Voters(votes + [w]) == Voters(votes) + {w.userId}
  {
    if votes == [] {
      assert votes + [w] == [w];
    } else {
      assert (votes + [w])[1..] == votes[1..] + [w];
      VotersSnoc(votes[1..], w);
    }
  }

  /** A vote appended to a run stands, and replaces its user's earlier
      standing vote. */
  lemma {:induction false} LastVotesSnoc(votes: seq<Vote>, w: Vote)
    ensures multiset(LastVotes(votes + [w])) ==
      multiset(LastVotes(votes)) - StandingVote(votes, w.userId) + multiset{w.value}
  {
    if votes == [] {
      assert votes + [w] == [w];
    } else {
      LastVotesSnoc(votes[1..], w);
      LastVotesSnocStep(votes, w);
    }
  }

  /** Whether the first vote of a non-empty run stands, as a multiset. */
  function FirstStands(votes: seq<Vote>): multiset<int>
    requires votes != []
  {
    if votes[0].userId in Voters(votes[1..]) then multiset{} else multiset{votes[0].value}
  }

  lemma LastVotesCons(votes: seq<Vote>)
    requires votes != []
    ensures multiset(LastVotes(votes)) == FirstStands(votes) + multiset(LastVotes(votes[1..]))
  {
  }

  lemma MultisetStep(ka: multiset<int>, kb: multiset<int>, a: multiset<int>, s: multiset<int>, sv: multiset<int>, x: multiset<int>)
    requires (ka == kb && sv == s && s <= a) || (ka == multiset{} && kb == sv && s == multiset{})
    ensures ka + (a - s + x) == (kb + a) - sv + x
  {
  }

  /** Appending a vote changes whether the first vote stands only when the
      first vote is the appended user's standing vote. */
  lemma FirstStandsSnoc(votes: seq<Vote>, w: Vote)
    requires votes != []
    ensures (votes + [w])[1..] == votes[1..] + [w]
    ensures || (FirstStands(votes + [w]) == FirstStands(votes)
                && StandingVote(votes, w.userId) == StandingVote(votes[1..], w.userId))
            || (FirstStands(votes + [w]) == multiset{}
                && FirstStands(votes) == StandingVote(votes, w.userId)
                && StandingVote(votes[1..], w.userId) == multiset{})
  {
    assert (votes + [w])[0] == votes[0] && (votes + [w])[1..] == votes[1..] + [w];
    VotersSnoc(votes[1..], w);
    LatestVoter(votes[1..], w.userId);
  }

  /** The inductive step of `LastVotesSnoc`: the first vote of the run
      either is overridden later, is the appended vote's user's standing
      vote, or stands on both sides. */
  lemma LastVotesSnocStep(votes: seq<Vote>, w: Vote)
    requires votes != []
    requires multiset(LastVotes(votes[1..] + [w])) ==
      multiset(LastVotes(votes[1..])) - StandingVote(votes[1..], w.userId) + multiset{w.value}
    ensures multiset(LastVotes(votes + [w])) ==
      multiset(LastVotes(votes)) - StandingVote(votes, w.userId) + multiset{w.value}
  {
    FirstStandsSnoc(votes, w);
    StandingVoteCounted(votes[1..], w.userId);
    LastVotesCons(votes);
    LastVotesCons(votes + [w]);
    MultisetStep(FirstStands(votes + [w]), FirstStands(votes), multiset(LastVotes(votes[1..])),
      StandingVote(votes[1..], w.userId), StandingVote(votes, w.userId), multiset{w.value});
  }

  lemma {:induction false} ValueListed(rs: seq<Rating>, i: nat, snippetId: string)
    requires i < |rs| && rs[i].snippetId == snippetId
    ensures rs[i].value in multiset(ValuesFor(rs, snippetId))
  {
    if i > 0 {
      ValueListed(rs[1..], i - 1, snippetId);
    }
  }

  /** Changing the value of a rating of the snippet swaps one value. */
  lemma {:induction false} ValuesForUpdateSame(rs: seq<Rating>, i: nat, x: Rating, snippetId: string)
    requires i < |rs| && rs[i].snippetId == snippetId && x.snippetId == snippetId
    ensures multiset(ValuesFor(rs[i := x], snippetId)) ==
      multiset(ValuesFor(rs, snippetId)) - multiset{rs[i].value} + multiset{x.value}
  {
    if i == 0 {
      assert rs[i := x][1..] == rs[1..];
    } else {
      assert rs[i := x][1..] == rs[1..][i - 1 := x];
      ValuesForUpdateSame(rs[1..], i - 1, x, snippetId);
      ValueListed(rs[1..], i - 1, snippetId);
    }
  }

  /** The user's current rating of the snippet as a multiset. */
  function StoredValue(rs: seq<Rating>, u: UserId, snippetId: string): multiset<int> {
    match RatingOf(rs, u, snippetId)
    case None => multiset{}
    case Some(v) => multiset{v}
  }

  /** An upsert replaces the user's value of the snippet, or adds one. */
  lemma UpsertValues(rs: seq<Rating>, u: UserId, snippetId: string, value: int, now: int)
    ensures multiset(ValuesFor(Upsert(rs, u, snippetId, value, now), snippetId)) ==
      multiset(ValuesFor(rs, snippetId)) - StoredValue(rs, u, snippetId) + multiset{value}
  {
    match FindPair(rs, u, snippetId)
    case None =>
      ValuesForAppend(rs, Rating(u, snippetId, value, now), snippetId);
    case Some(i) =>
      ValuesForUpdateSame(rs, i, rs[i].(value := value), snippetId);
  }

  lemma {:induction false} UpsertAllSnoc(rs: seq<Rating>, votes: seq<Vote>, w: Vote, snippetId: string, now: int)
    ensures UpsertAll(rs, votes + [w], snippetId, now) ==
      Upsert(UpsertAll(rs, votes, snippetId, now), w.userId, snippetId, w.value, now)
    decreases |votes|
  {
    if votes == [] {
      assert votes + [w] == [w];
    } else {
      assert (votes + [w])[0] == votes[0] && (votes + [w])[1..] == votes[1..] + [w];
      UpsertAllSnoc(Upsert(rs, votes[0].userId, snippetId, votes[0].value, now), votes[1..], w, snippetId, now);
    }
  }

  lemma {:induction false} NoRatersNoValues(rs: seq<Rating>, snippetId: string)
    requires RatersOf(rs, snippetId) == {}
    ensures ValuesFor(rs, snippetId) == []
  {
    if rs != [] {
      NoRatersNoValues(rs[1..], snippetId);
    }
  }

  /** Upserting a run of votes into ratings without the snippet leaves
      exactly the standing votes as the snippet's values. */
  lemma {:induction false} UpsertAllValues(rs: seq<Rating>, votes: seq<Vote>, snippetId: string, now: int)
    requires RatersOf(rs, snippetId) == {}
    ensures multiset(ValuesFor(UpsertAll(rs, votes, snippetId, now), snippetId)) == multiset(LastVotes(votes))
    decreases |votes|
  {
    if votes == [] {
      NoRatersNoValues(rs, snippetId);
    } else {
      var before, w := votes[..|votes| - 1], votes[|votes| - 1];
      assert votes == before + [w];
      var prev := UpsertAll(rs, before, snippetId, now);
      UpsertAllValues(rs, before, snippetId, now);
      UpsertAllSnoc(rs, before, w, snippetId, now);
      UpsertValues(prev, w.userId, snippetId, w.value, now);
      UpsertAllRatings(rs, before, snippetId, now, w.userId);
      RaterMeans(rs, snippetId, w.userId);
      assert StoredValue(prev, w.userId, snippetId) == StandingVote(before, w.userId);
      LastVotesSnoc(before, w);
    }
  }

  lemma {:induction false} SumConcat(a: seq<int>, b: seq<int>)
    ensures Sum(a + b) == Sum(a) + Sum(b)
  {
    if a == [] {
      assert a + b == b;
    } else {
      assert (a + b)[0] == a[0] && (a + b)[1..] == a[1..] + b;
      SumConcat(a[1..], b);
    }
  }

  lemma SumRemove(b: seq<int>, j: nat)
    requires j < |b|
    ensures Sum(b) == b[j] + Sum(b[..j] + b[j + 1..])
  {
    var before, after := b[..j], b[j + 1..];
    var tail := [b[j]] + after;
    assert b == before + tail;
    assert tail[0] == b[j] && tail[1..] == after;
    SumConcat(before, tail);
    SumConcat(before, after);
  }

  lemma PositionOf(b: seq<int>, x: int) returns (j: nat)
    requires x in multiset(b)
    ensures j < |b| && b[j] == x
  {
    assert x in b;
    j :| 0 <= j < |b| && b[j] == x;
  }

  lemma MultisetRemove(b: seq<int>, j: nat)
    requires j < |b|
    ensures multiset(b[..j] + b[j + 1..]) == multiset(b) - multiset{b[j]}
  {
    assert b == b[..j] + [b[j]] + b[j + 1..];
  }

  /** The sum does not depend on the order of the values. */
  lemma {:induction false} SumPermutation(a: seq<int>, b: seq<int>)
    requires multiset(a) == multiset(b)
    ensures Sum(a) == Sum(b)
    decreases |a|
  {
    if a != [] {
      var j := PositionOf(b, a[0]);
      PermutationStep(a, b, j);
      SumPermutation(a[1..], b[..j] + b[j + 1..]);
    }
  }

  /** Taking the first value off `a` and an equal one off `b` leaves two
      permutations of each other. */
  lemma PermutationStep(a: seq<int>, b: seq<int>, j: nat)
    requires multiset(a) == multiset(b) && a != [] && j < |b| && b[j] == a[0]
    ensures multiset(a[1..]) == multiset(b[..j] + b[j + 1..])
    ensures Sum(a) == a[0] + Sum(a[1..])
    ensures Sum(b) == a[0] + Sum(b[..j] + b[j + 1..])
  {
    SumRemove(b, j);
    MultisetRemove(b, j);
    MultisetRemove(a, 0);
    assert a[..0] + a[1..] == a[1..];
  }

  /** A mean of some values is a mean of any reordering of them. */
  lemma MeanOfPermutation(avg: real, a: seq<int>, b: seq<int>)
    requires multiset(a) == multiset(b) && IsMean(avg, a)
    ensures IsMean(avg, b)
  {
    SumPermutation(a, b);
    assert |a| == |multiset(a)|;
  }

  /** On a snippet that had no ratings, the values a run of rate calls
      leaves are exactly the voters' last votes. */
  lemma RunValues(st: State, id: string, votes: seq<Vote>, now: int)
    requires st.db.Valid() && IsValidObjectId(id) && VotesInRange(votes)
    requires RatersOf(st.db.ratings, Canonical(id)) == {}
    ensures multiset(ValuesFor(RateAll(st, id, votes, now).db.ratings, Canonical(id))) == multiset(LastVotes(votes))
  {
    RateAllUpserts(st, id, votes, now);
    UpsertAllValues(st.db.ratings, votes, Canonical(id), now);
  }

  /** Aggregate correctness over a run of rate calls on a snippet that had
      no ratings: the recorded values are the voters' last votes, one per
      voter, the stored count is the number of distinct voters, and the
      stored average is the mean of the last votes. */
  lemma RunAggregate(st: State, id: string, votes: seq<Vote>, now: int)
    requires st.db.Valid() && IsValidObjectId(id) && votes != [] && VotesInRange(votes)
    requires RatersOf(st.db.ratings, Canonical(id)) == {}
    ensures var end := RateAll(st, id, votes, now).db;
      && multiset(ValuesFor(end.ratings, Canonical(id))) == multiset(LastVotes(votes))
      && |LastVotes(votes)| == |Voters(votes)|
      && forall i :: 0 <= i < |end.snippets| && end.snippets[i].id == Canonical(id) ==>
           end.snippets[i].ratingCount == |Voters(votes)|
           && IsMean(end.snippets[i].avgRating, LastVotes(votes))
  {
    var end := RateAll(st, id, votes, now).db;
    var vs := ValuesFor(end.ratings, Canonical(id));
    RateAllUpserts(st, id, votes, now);
    RateAllRaters(st, id, votes, now);
    RateAllStoresAggregate(st, id, votes, now);
    RunValues(st, id, votes, now);
    assert RatersOf(end.ratings, Canonical(id)) == Voters(votes);
    CountIsRaters(end.ratings, Canonical(id));
    StoredAggregateIsMean(end, Canonical(id));
    assert |vs| == |multiset(vs)| == |LastVotes(votes)|;
    forall i | 0 <= i < |end.snippets| && end.snippets[i].id == Canonical(id)
      ensures IsMean(end.snippets[i].avgRating, LastVotes(votes))
    {
      MeanOfPermutation(end.snippets[i].avgRating, vs, LastVotes(votes));
    }
  }


  lemma StoredAggregateIsMean(db: Db, snippetId: string)
    requires StoresAggregate(db, snippetId)
    ensures forall i :: 0 <= i < |db.snippets| && db.snippets[i].id == snippetId ==>
      db.snippets[i].ratingCount == |ValuesFor(db.ratings, snippetId)|
      && IsMean(db.snippets[i].avgRating, ValuesFor(db.ratings, snippetId))
  {
    var a := AggregateFor(db.ratings, snippetId);
    assert IsMean(a.avg, ValuesFor(db.ratings, snippetId));
  }
}
