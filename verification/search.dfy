/** `GET /snippets`: the search handler. It normalises the query, builds the
    cache key, answers anonymous requests from the cache when it can, and
    otherwise asks the store for the matching snippets, counted and ordered
    (text score for a keyword search, otherwise most ratings then newest),
    one page at a time. */
module SearchRoute {

  import opened Wrappers
  import opened Numbers
  import opened Models
  import opened Ordering
  import opened Paging
  import opened Http
  import Cache
  import opened CacheKeys
  import opened Query
  import opened Server

  /** The query string of a search request, and whether the request carries
      an Authorization header (its validity does not matter here). */
  datatype SearchRequest = SearchRequest(
    q: Option<string>,
    lang: Option<string>,
    language: Option<string>,
    tag: Option<string>,
    page: Option<string>,
    limit: Option<string>,
    authorization: bool)

  /** The text index's relevance score of a snippet for a keyword; a snippet
      matches the keyword exactly when its score is positive. */
  type Relevance = (string, Snippet) -> real

  /** What the handler decides before touching any store. */
  datatype Plan = Plan(
    keyword: string,
    lang: string,
    tag: string,
    page: JsNum,
    limit: JsNum,
    key: string,
    useCache: bool)

  const DEFAULT_SEARCH_LIMIT := "10"

  function PlanSearch(r: SearchRequest): (p: Plan)
    ensures p.useCache <==> !r.authorization
    ensures p.key == SearchKeyAsWritten(p.keyword, p.lang, p.tag, p.page, p.limit)
    ensures (r.q.None? || r.q.value == "") ==> p.keyword == ""
    ensures r.q.Some? && r.q.value != "" ==> p.keyword == r.q.value
    ensures r.lang.Some? && r.lang.value != "" ==> p.lang == r.lang.value
    ensures (r.lang.None? || r.lang.value == "") ==> p.lang == OrText(r.language, "")
    ensures (r.tag.None? || r.tag.value == "") ==> p.tag == ""
    ensures r.tag.Some? && r.tag.value != "" ==> p.tag == r.tag.value
    ensures p.page == PageParam(r.page)
    ensures p.limit == LimitParam(r.limit, DEFAULT_SEARCH_LIMIT)
    ensures (r.page.None? || r.page.value == "") ==> p.page == Int(1)
    ensures (r.limit.None? || r.limit.value == "") ==> p.limit == Int(10)
    ensures p.limit.Int? ==> p.limit.value <= MAX_LIMIT
  {
    DefaultLimits();
    var keyword := OrText(r.q, "");
    var lang := OrText(Or(r.lang, r.language), "");
    var tag := OrText(r.tag, "");
    var page := PageParam(r.page);
    var limit := LimitParam(r.limit, DEFAULT_SEARCH_LIMIT);
    Plan(keyword, lang, tag, page, limit, SearchKeyAsWritten(keyword, lang, tag, page, limit), !r.authorization)
  }

  /** The `lang`/`tags` part of the store filter; an empty value adds no
      condition, and a tag matches when any element of `tags` equals it. */
  predicate PassesFilter(s: Snippet, lang: string, tag: string) {
    && (lang == "" || s.lang == Some(lang))
    && (tag == "" || tag in s.tags)
  }

  /** The predicate shared by the page query and the count query. */
  predicate Selected(s: Snippet, p: Plan, relevance: Relevance) {
    && PassesFilter(s, p.lang, p.tag)
    && (p.keyword == "" || relevance(p.keyword, s) > 0.0)
  }

  /** The selected snippets in natural order. */
  function Matching(ss: seq<Snippet>, p: Plan, relevance: Relevance): (r: seq<Snippet>)
    ensures |r| <= |ss|
    ensures forall x :: x in r <==> x in ss && Selected(x, p, relevance)
  {
    if ss == [] then []
    else
      var rest := Matching(ss[1..], p, relevance);
      assert ss == [ss[0]] + ss[1..];
      if Selected(ss[0], p, relevance) then [ss[0]] + rest else rest
  }

  /** The sort order: `{ score: textScore }` with a keyword, otherwise
      `{ ratingCount: -1, createdAt: -1 }`. */
  function RankFor(p: Plan, relevance: Relevance): Snippet -> Rank {
    if p.keyword != "" then
      (s: Snippet) => Rank(relevance(p.keyword, s), 0)
    else
      (s: Snippet) => Rank(s.ratingCount as real, s.createdAt)
  }

  function Ordered(db: Db, p: Plan, relevance: Relevance): seq<Snippet> {
    SortByRank(Matching(db.snippets, p, relevance), RankFor(p, relevance))
  }

  lemma SliceOfSorted(xs: seq<Snippet>, ys: seq<Snippet>, start: int, rank: Snippet -> Rank)
    requires SortedBy(xs, rank)
    requires ItemsFrom(ys, xs, start)
    ensures SortedBy(ys, rank)
  {
    forall i, j | 0 <= i < j < |ys|
      ensures Precedes(rank(ys[i]), rank(ys[j]))
    {
      var a, b := ys[i], ys[j];
      assert a == xs[start + i] && b == xs[start + j];
    }
  }

  /** Every item of a page is a stored snippet the query selects. */
  predicate ItemsSelected(items: seq<Snippet>, db: Db, p: Plan, relevance: Relevance) {
    forall x :: x in items ==> x in db.snippets && Selected(x, p, relevance)
  }

  /** What a page of the ordered matches satisfies. */
  predicate IsPageOf(b: Body, db: Db, p: Plan, relevance: Relevance) {
    && b.PageBody?
    && b.total == |Matching(db.snippets, p, relevance)|
    && p.page == Int(b.page) && p.limit == Int(b.limit)
    && ItemsSelected(b.items, db, p, relevance)
    && SortedBy(b.items, RankFor(p, relevance))
    && (b.limit > 0 ==> |b.items| <= b.limit)
    && IsWindowOf(b.items, Ordered(db, p, relevance), (b.page - 1) * b.limit, b.limit)
  }

  /** The count query and the page query, run against the store; None when
      the store refuses the skip or limit. */
  function RunQuery(db: Db, p: Plan, relevance: Relevance): (r: Option<Body>)
    ensures r.None? <==> p.page.NaN? || p.limit.NaN? || (p.page.value - 1) * p.limit.value < 0
    ensures r.Some? ==> IsPageOf(r.value, db, p, relevance)
  {
    var ordered := Ordered(db, p, relevance);
    var w := Window(ordered, Skip(p.page, p.limit), p.limit);
    if w.None? then None
    else
      var b := PageBody(|Matching(db.snippets, p, relevance)|, p.page.value, p.limit.value, w.value);
      PageFacts(db, p, relevance, w.value);
      Some(b)
  }

  lemma PageFacts(db: Db, p: Plan, relevance: Relevance, items: seq<Snippet>)
    requires Window(Ordered(db, p, relevance), Skip(p.page, p.limit), p.limit) == Some(items)
    ensures IsPageOf(PageBody(|Matching(db.snippets, p, relevance)|, p.page.value, p.limit.value, items), db, p, relevance)
  {
    var ordered := Ordered(db, p, relevance);
    var start := WindowStart(ordered, p, items);
    PageOf(db, p, relevance, items, start);
  }

  lemma PageOf(db: Db, p: Plan, relevance: Relevance, items: seq<Snippet>, start: int)
    requires p.page.Int? && p.limit.Int? && start == (p.page.value - 1) * p.limit.value
    requires p.limit.value > 0 ==> |items| <= p.limit.value
    requires IsWindowOf(items, Ordered(db, p, relevance), start, p.limit.value)
    ensures IsPageOf(PageBody(|Matching(db.snippets, p, relevance)|, p.page.value, p.limit.value, items), db, p, relevance)
  {
    SelectedItems(db, p, relevance, items, start);
    SliceOfSorted(Ordered(db, p, relevance), items, start, RankFor(p, relevance));
  }

  /** The window of a page query starts at `(page-1)*limit`. */
  lemma WindowStart(ordered: seq<Snippet>, p: Plan, items: seq<Snippet>) returns (start: int)
    requires Window(ordered, Skip(p.page, p.limit), p.limit) == Some(items)
    ensures p.page.Int? && p.limit.Int? && start == (p.page.value - 1) * p.limit.value
    ensures p.limit.value > 0 ==> |items| <= p.limit.value
    ensures IsWindowOf(items, ordered, start, p.limit.value)
  {
    var skip := Skip(p.page, p.limit);
    WindowFacts(ordered, skip, p.limit, items);
    start := skip.value;
  }

  lemma SelectedItems(db: Db, p: Plan, relevance: Relevance, items: seq<Snippet>, start: int)
    requires ItemsFrom(items, Ordered(db, p, relevance), start)
    ensures ItemsSelected(items, db, p, relevance)
  {
    var ordered := Ordered(db, p, relevance);
    var matching := Matching(db.snippets, p, relevance);
    assert multiset(ordered) == multiset(matching);
    forall x | x in items
      ensures x in db.snippets && Selected(x, p, relevance)
    {
      var k :| 0 <= k < |items| && items[k] == x;
      assert ordered[start + k] == x;
      assert x in multiset(ordered);
      assert x in multiset(matching);
    }
  }

  /** A store result as a response: the page, or the error middleware's 500. */
  function Answer(r: Option<Body>): (resp: Response)
    ensures r.Some? ==> resp == Json(r.value)
    ensures r.None? ==> resp == Failed
  {
    match r
    case Some(b) => Json(b)
    case None => Failed
  }

  /** The whole handler. */
  function Search(st: State, r: SearchRequest, relevance: Relevance, cfg: Config): (out: Step)
    ensures out.state.db == st.db
    ensures out.response.Error? ==> out.state == st
    ensures r.authorization ==>
      out == Step(st, Answer(RunQuery(st.db, PlanSearch(r), relevance)))
    ensures !r.authorization && PlanSearch(r).key in st.cache ==>
      out == Step(st, Json(st.cache[PlanSearch(r).key].body))
    ensures (r.authorization || PlanSearch(r).key !in st.cache) && RunQuery(st.db, PlanSearch(r), relevance).None? ==>
      out == Step(st, Failed)
    ensures !r.authorization && PlanSearch(r).key !in st.cache && out.response.Json? ==>
      && RunQuery(st.db, PlanSearch(r), relevance) == Some(out.response.body)
      && cfg.searchTtl.Int?
      && out.state.cache == st.cache[PlanSearch(r).key := Cache.Entry(out.response.body, cfg.searchTtl.value)]
    ensures !r.authorization && PlanSearch(r).key !in st.cache && RunQuery(st.db, PlanSearch(r), relevance).Some? ==>
      if cfg.searchTtl.Int? && cfg.searchTtl.value > 0
      then out.response == Json(RunQuery(st.db, PlanSearch(r), relevance).value)
      else out == Step(st, Failed)
  {
    var p := PlanSearch(r);
    var cached := if p.useCache then Cache.Get(st.cache, p.key) else None;
    if cached.Some? then Step(st, Json(cached.value))
    else
      match RunQuery(st.db, p, relevance)
      case None => Step(st, Failed)
      case Some(body) =>
        if !p.useCache then Step(st, Json(body))
        else
          match Cache.Set(st.cache, p.key, body, cfg.searchTtl)
          case None => Step(st, Failed)
          case Some(c) => Step(st.(cache := c), Json(body))
  }
}

module SearchProperties {

  import opened Wrappers
  import opened Numbers
  import opened Models
  import opened Ordering
  import opened Paging
  import opened Http
  import Cache
  import opened CacheKeys
  import opened Query
  import opened Server
  import opened SearchRoute

  /** Without a keyword the items come most-rated first, and among equally
      rated ones newest first. */
  lemma NoKeywordOrder(b: Body, db: Db, p: Plan, relevance: Relevance, i: int, j: int)
    requires IsPageOf(b, db, p, relevance) && p.keyword == ""
    requires 0 <= i < j < |b.items|
    ensures b.items[i].ratingCount > b.items[j].ratingCount
         || (b.items[i].ratingCount == b.items[j].ratingCount && b.items[i].createdAt >= b.items[j].createdAt)
  {
    var rank := RankFor(p, relevance);
    assert Precedes(rank(b.items[i]), rank(b.items[j]));
  }

  /** With a keyword the items come in descending order of text score. */
  lemma KeywordOrder(b: Body, db: Db, p: Plan, relevance: Relevance, i: int, j: int)
    requires IsPageOf(b, db, p, relevance) && p.keyword != ""
    requires 0 <= i < j < |b.items|
    ensures relevance(p.keyword, b.items[i]) >= relevance(p.keyword, b.items[j])
  {
    var rank := RankFor(p, relevance);
    assert Precedes(rank(b.items[i]), rank(b.items[j]));
  }

  /** For a page and page size of at least 1 the store answers, and the
      page holds `limit` items, or what is left after `(page-1)*limit`. */
  lemma PageLength(db: Db, p: Plan, relevance: Relevance)
    requires p.page.Int? && p.limit.Int? && p.page.value >= 1 && p.limit.value >= 1
    ensures RunQuery(db, p, relevance).Some?
    ensures var b := RunQuery(db, p, relevance).value;
      var start := (p.page.value - 1) * p.limit.value;
      |b.items| == (if b.total <= start then 0
                    else if b.total - start < p.limit.value then b.total - start
                    else p.limit.value)
  {
    var start := (p.page.value - 1) * p.limit.value;
    assert start >= 0;
    var ordered := Ordered(db, p, relevance);
    assert |ordered| == |Matching(db.snippets, p, relevance)|;
    assert Skip(p.page, p.limit) == Int(start);
  }

  /** The pagination example: 25 matching snippets, pages of 10: the first
      page is full, the third holds the last 5, and `total` is 25 on both. */
  lemma TwentyFiveMatches(db: Db, p: Plan, relevance: Relevance)
    requires |Matching(db.snippets, p, relevance)| == 25 && p.limit == Int(10)
    requires p.page == Int(1) || p.page == Int(3)
    ensures RunQuery(db, p, relevance).Some?
    ensures RunQuery(db, p, relevance).value.total == 25
    ensures p.page == Int(1) ==> |RunQuery(db, p, relevance).value.items| == 10
    ensures p.page == Int(3) ==> |RunQuery(db, p, relevance).value.items| == 5
  {
    PageLength(db, p, relevance);
  }

  lemma MatchingDistinct(ss: seq<Snippet>, p: Plan, relevance: Relevance)
    requires SnippetIdsUnique(ss)
    ensures Distinct(Matching(ss, p, relevance))
  {
    if ss != [] {
      MatchingDistinct(ss[1..], p, relevance);
      var rest := Matching(ss[1..], p, relevance);
      assert ss[0] !in ss[1..];
      assert ss[0] !in rest;
    }
  }

  predicate Distinct(xs: seq<Snippet>) {
    forall i, j :: 0 <= i < j < |xs| ==> xs[i] != xs[j]
  }

  lemma SortedDistinct(xs: seq<Snippet>, ys: seq<Snippet>)
    requires multiset(xs) == multiset(ys) && Distinct(xs)
    ensures Distinct(ys)
  {
    forall i, j | 0 <= i < j < |ys|
      ensures ys[i] != ys[j]
    {
      var y := ys[j];
      assert y in multiset(xs);
      DistinctCount(xs, y);
      assert ys == ys[..j] + [y] + ys[j + 1..];
      assert multiset(ys) == multiset(ys[..j]) + multiset{y} + multiset(ys[j + 1..]);
      assert ys[i] in ys[..j];
      assert multiset(ys[..j])[ys[i]] >= 1;
    }
  }

  lemma {:induction false} DistinctCount(xs: seq<Snippet>, x: Snippet)
    requires Distinct(xs)
    requires x in xs
    ensures multiset(xs)[x] == 1
  {
    if xs[0] == x {
      assert xs == [x] + xs[1..];
      assert x !in xs[1..];
    } else {
      assert xs == [xs[0]] + xs[1..];
      DistinctCount(xs[1..], x);
    }
  }

  /** Two different pages of the same search share no snippet, in a store
      whose snippet ids are unique. */
  lemma PagesShareNothing(db: Db, p1: Plan, p2: Plan, relevance: Relevance, x: Snippet)
    requires db.Valid()
    requires p1.keyword == p2.keyword && p1.lang == p2.lang && p1.tag == p2.tag && p1.limit == p2.limit
    requires p1.page.Int? && p2.page.Int? && 1 <= p1.page.value < p2.page.value
    requires p1.limit.Int? && p1.limit.value >= 1
    requires RunQuery(db, p1, relevance).Some? && RunQuery(db, p2, relevance).Some?
    requires x in RunQuery(db, p1, relevance).value.items
    ensures x !in RunQuery(db, p2, relevance).value.items
  {
    var ordered := Ordered(db, p1, relevance);
    MatchingSamePredicate(db.snippets, p1, p2, relevance);
    assert Ordered(db, p2, relevance) == ordered;
    OrderedDistinct(db, p1, relevance);
    var l := p1.limit.value;
    var w1 := Window(ordered, Skip(Int(p1.page.value), Int(l)), Int(l));
    var w2 := Window(ordered, Skip(Int(p2.page.value), Int(l)), Int(l));
    assert RunQuery(db, p1, relevance).value.items == w1.value;
    assert RunQuery(db, p2, relevance).value.items == w2.value;
    PagesDisjoint(ordered, p1.page.value, p2.page.value, l, x);
  }

  lemma OrderedDistinct(db: Db, p: Plan, relevance: Relevance)
    requires db.Valid()
    ensures Distinct(Ordered(db, p, relevance))
  {
    assert SnippetIdsUnique(db.snippets);
    MatchingDistinct(db.snippets, p, relevance);
    var m := Matching(db.snippets, p, relevance);
    var o := SortByRank(m, RankFor(p, relevance));
    assert o == Ordered(db, p, relevance);
    assert multiset(o) == multiset(m);
    SortedDistinct(m, o);
  }

  lemma MatchingSamePredicate(ss: seq<Snippet>, p1: Plan, p2: Plan, relevance: Relevance)
    requires p1.keyword == p2.keyword && p1.lang == p2.lang && p1.tag == p2.tag
    ensures Matching(ss, p1, relevance) == Matching(ss, p2, relevance)
    ensures RankFor(p1, relevance) == RankFor(p2, relevance)
  {
    if ss != [] {
      MatchingSamePredicate(ss[1..], p1, p2, relevance);
    }
  }

  /** A request with an Authorization header is answered from the store
      whatever the cache holds, and leaves the cache as it was. */
  lemma AuthenticatedIgnoresCache(st1: State, st2: State, r: SearchRequest, relevance: Relevance, cfg: Config)
    requires r.authorization && st1.db == st2.db
    ensures Search(st1, r, relevance, cfg).response == Search(st2, r, relevance, cfg).response
    ensures Search(st1, r, relevance, cfg).state.cache == st1.cache
  {
  }

  /** An anonymous search that was answered is answered identically when
      repeated at once, this time from the cache and without any change. */
  lemma RepeatedAnonymousSearch(st: State, r: SearchRequest, relevance: Relevance, cfg: Config)
    requires !r.authorization
    requires Search(st, r, relevance, cfg).response.Json?
    ensures var first := Search(st, r, relevance, cfg);
      Search(first.state, r, relevance, cfg) == first
  {
  }

  /** Keyword `a:b` with tag `c`, anonymous, default page and limit. */
  const COLLIDING_FIRST := SearchRequest(Some("a:b"), None, None, Some("c"), None, None, false)

  /** Keyword `a`, language `b` and tag `:c`, anonymous, default page and
      limit: a different search that shares the first one's cache key. */
  const COLLIDING_SECOND := SearchRequest(Some("a"), Some("b"), None, Some(":c"), None, None, false)

  /** Because the cache key joins its fields with `:` unescaped, two
      different anonymous searches share one key, and the second is answered
      with the page the first one cached, whatever the store holds. */
  lemma CollidingSearchServedOtherPage(st: State, relevance: Relevance, cfg: Config)
    ensures PlanSearch(COLLIDING_FIRST).keyword != PlanSearch(COLLIDING_SECOND).keyword
    ensures PlanSearch(COLLIDING_FIRST).lang != PlanSearch(COLLIDING_SECOND).lang
    ensures PlanSearch(COLLIDING_FIRST).key == PlanSearch(COLLIDING_SECOND).key
    ensures var first := Search(st, COLLIDING_FIRST, relevance, cfg);
      first.response.Json? ==>
        Search(first.state, COLLIDING_SECOND, relevance, cfg) == Step(first.state, first.response)
  {
    CollidingPlans();
  }

  /** The two requests' plans: different keywords and languages, one key. */
  lemma CollidingPlans()
    ensures PlanSearch(COLLIDING_FIRST).keyword == "a:b" && PlanSearch(COLLIDING_FIRST).lang == ""
    ensures PlanSearch(COLLIDING_SECOND).keyword == "a" && PlanSearch(COLLIDING_SECOND).lang == "b"
    ensures PlanSearch(COLLIDING_FIRST).key == PlanSearch(COLLIDING_SECOND).key
  {
    var p1, p2 := PlanSearch(COLLIDING_FIRST), PlanSearch(COLLIDING_SECOND);
    DefaultLimits();
    assert p1.page == Int(1) && p1.limit == Int(10) && p2.page == Int(1) && p2.limit == Int(10);
    assert p1.tag == "c" && p2.tag == ":c";
    AsWrittenKeyCollides();
  }

  lemma NegativeTimesPositive(a: int, b: int)
    requires a < 0 < b
    ensures a * b < 0
  {
    assert a * b == -((-a) * b);
  }

  /** `page` is not clamped: a page below 1 with a positive page size makes
      a negative skip, which the store refuses, unless an anonymous request
      finds the key already cached. */
  lemma PageBelowOneFails(st: State, r: SearchRequest, relevance: Relevance, cfg: Config)
    requires PlanSearch(r).page.Int? && PlanSearch(r).page.value < 1
    requires PlanSearch(r).limit.Int? && PlanSearch(r).limit.value >= 1
    requires r.authorization || PlanSearch(r).key !in st.cache
    ensures Search(st, r, relevance, cfg) == Step(st, Failed)
  {
    var p := PlanSearch(r);
    NegativeTimesPositive(p.page.value - 1, p.limit.value);
    assert RunQuery(st.db, p, relevance).None?;
  }
}
