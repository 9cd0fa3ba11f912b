/** `GET /me/favorites` (backend/src/routes/me.js): the caller's favorite
    records, counted, and the snippets they name, paged in the store's
    natural order. */
module MeRoute {

  import opened Wrappers
  import opened Numbers
  import opened Models
  import opened Paging
  import opened Http
  import opened Query
  import opened Server
  import opened FavoriteRoute

  /** The page size when the request gives none. */
  const DEFAULT_FAVORITES_LIMIT := "20"

  /** `Favorite.find({ userId }).map(f => f.snippetId)`: one entry per
      favorite record of the user, in natural order. */
  function FavoriteIds(fs: seq<Favorite>, userId: UserId): (r: seq<string>)
    ensures forall s :: s in r <==> HasFavorite(fs, userId, s)
    ensures |r| <= |fs|
  {
    if fs == [] then []
    else
      var rest := FavoriteIds(fs[1..], userId);
      assert forall s :: HasFavorite(fs, userId, s) <==>
        IsFavoritePair(fs[0], userId, s) || HasFavorite(fs[1..], userId, s) by {
        forall s
          ensures HasFavorite(fs, userId, s) <==> IsFavoritePair(fs[0], userId, s) || HasFavorite(fs[1..], userId, s)
        {
          if HasFavorite(fs, userId, s) && !IsFavoritePair(fs[0], userId, s) {
            var i :| 0 <= i < |fs| && IsFavoritePair(fs[i], userId, s);
            assert fs[1..][i - 1] == fs[i];
          }
          if HasFavorite(fs[1..], userId, s) {
            var i :| 0 <= i < |fs[1..]| && IsFavoritePair(fs[1..][i], userId, s);
            assert fs[i + 1] == fs[1..][i];
          }
        }
      }
      if fs[0].userId == userId then [fs[0].snippetId] + rest else rest
  }

  /** Positions of the user's favorite records. */
  function UserRecords(fs: seq<Favorite>, userId: UserId): set<int> {
    set i | 0 <= i < |fs| && fs[i].userId == userId
  }

  /** Positions of the user's favorite records of one snippet. */
  function PairRecordsAt(fs: seq<Favorite>, userId: UserId, snippetId: string): set<int> {
    set i | 0 <= i < |fs| && IsFavoritePair(fs[i], userId, snippetId)
  }

  /** The listed ids hold one entry per favorite record of the user: as
      many as the user has records, and each snippet id as often as the
      user has a record of it. */
  lemma FavoriteIdsPerRecord(fs: seq<Favorite>, userId: UserId)
    ensures |FavoriteIds(fs, userId)| == |UserRecords(fs, userId)|
    ensures forall s :: multiset(FavoriteIds(fs, userId))[s] == |PairRecordsAt(fs, userId, s)|
  {
    FavoriteIdsLength(fs, userId);
    forall s
      ensures multiset(FavoriteIds(fs, userId))[s] == |PairRecordsAt(fs, userId, s)|
    {
      FavoriteIdsMultiplicity(fs, userId, s);
    }
  }

  lemma {:induction false} FavoriteIdsLength(fs: seq<Favorite>, userId: UserId)
    ensures |FavoriteIds(fs, userId)| == |UserRecords(fs, userId)|
  {
    if fs == [] {
      assert UserRecords(fs, userId) == {};
    } else {
      FavoriteIdsLength(fs[1..], userId);
      UserRecordsCons(fs, userId);
      ShiftCard(UserRecords(fs[1..], userId));
    }
  }

  lemma {:induction false} FavoriteIdsMultiplicity(fs: seq<Favorite>, userId: UserId, s: string)
    ensures multiset(FavoriteIds(fs, userId))[s] == |PairRecordsAt(fs, userId, s)|
  {
    if fs == [] {
      assert PairRecordsAt(fs, userId, s) == {};
    } else {
      FavoriteIdsMultiplicity(fs[1..], userId, s);
      PairRecordsCons(fs, userId, s);
      ShiftCard(PairRecordsAt(fs[1..], userId, s));
    }
  }

  lemma UserRecordsCons(fs: seq<Favorite>, userId: UserId)
    requires fs != []
    ensures UserRecords(fs, userId) ==
      (if fs[0].userId == userId then {0} else {}) + Shift(UserRecords(fs[1..], userId))
    ensures 0 !in Shift(UserRecords(fs[1..], userId))
  {
    var t := fs[1..];
    forall i | i in UserRecords(fs, userId) && i > 0
      ensures i in Shift(UserRecords(t, userId))
    {
      assert t[i - 1] == fs[i];
      assert i - 1 in UserRecords(t, userId);
    }
  }

  lemma PairRecordsCons(fs: seq<Favorite>, userId: UserId, s: string)
    requires fs != []
    ensures PairRecordsAt(fs, userId, s) ==
      (if IsFavoritePair(fs[0], userId, s) then {0} else {}) + Shift(PairRecordsAt(fs[1..], userId, s))
    ensures 0 !in Shift(PairRecordsAt(fs[1..], userId, s))
  {
    var t := fs[1..];
    forall i | i in PairRecordsAt(fs, userId, s) && i > 0
      ensures i in Shift(PairRecordsAt(t, userId, s))
    {
      assert t[i - 1] == fs[i];
      assert i - 1 in PairRecordsAt(t, userId, s);
    }
  }

  lemma PickFrom<T>(a: set<T>) returns (x: T)
    requires a != {}
    ensures x in a
  {
    x :| x in a;
  }

  /** Every position moved one place on. */
  function Shift(a: set<int>): set<int> {
    set i | i in a :: i + 1
  }

  lemma {:induction false} ShiftCard(a: set<int>)
    ensures |Shift(a)| == |a|
    decreases |a|
  {
    if a != {} {
      var x := PickFrom(a);
      ShiftCard(a - {x});
      assert Shift(a) == Shift(a - {x}) + {x + 1} by {
        forall j | j in Shift(a)
          ensures j in Shift(a - {x}) + {x + 1}
        {
          var i :| i in a && j == i + 1;
          if i != x {
            assert i in a - {x};
          }
        }
      }
      assert x + 1 !in Shift(a - {x});
    }
  }

  /** `Snippet.find({ _id: { $in: ids } })`: the snippets whose id is
      listed, in natural order. */
  function WithIds(ss: seq<Snippet>, ids: seq<string>): (r: seq<Snippet>)
    ensures forall x :: x in r <==> x in ss && x.id in ids
    ensures |r| <= |ss|
  {
    if ss == [] then []
    else
      var rest := WithIds(ss[1..], ids);
      assert forall x :: x in ss <==> x == ss[0] || x in ss[1..];
      if ss[0].id in ids then [ss[0]] + rest else rest
  }

  /** What an answer of the handler satisfies: `total` is the number of
      the user's favorite records, and the items are a page of the
      favorited snippets that exist, in natural order. */
  predicate IsFavoritesPage(b: Body, db: Db, userId: UserId, page: JsNum, limit: JsNum) {
    && b.PageBody?
    && b.total == |FavoriteIds(db.favorites, userId)| == |UserRecords(db.favorites, userId)|
    && page == Int(b.page) && limit == Int(b.limit)
    && (b.limit > 0 ==> |b.items| <= b.limit)
    && (forall x :: x in b.items ==> x in db.snippets && HasFavorite(db.favorites, userId, x.id))
    && IsWindowOf(b.items, WithIds(db.snippets, FavoriteIds(db.favorites, userId)), (b.page - 1) * b.limit, b.limit)
  }

  /** The count and the page, run against the store; None when the store
      refuses the skip or limit. */
  function RunList(db: Db, userId: UserId, page: JsNum, limit: JsNum): (r: Option<Body>)
    ensures r.None? <==> page.NaN? || limit.NaN? || (page.value - 1) * limit.value < 0
    ensures r.Some? ==> IsFavoritesPage(r.value, db, userId, page, limit)
  {
    var ids := FavoriteIds(db.favorites, userId);
    var listed := WithIds(db.snippets, ids);
    match Window(listed, Skip(page, limit), limit)
    case None => None
    case Some(items) =>
      ListFacts(db, userId, page, limit, items);
      Some(PageBody(|ids|, page.value, limit.value, items))
  }

  lemma ListFacts(db: Db, userId: UserId, page: JsNum, limit: JsNum, items: seq<Snippet>)
    requires Window(WithIds(db.snippets, FavoriteIds(db.favorites, userId)), Skip(page, limit), limit) == Some(items)
    ensures page.Int? && limit.Int?
    ensures IsFavoritesPage(PageBody(|FavoriteIds(db.favorites, userId)|, page.value, limit.value, items), db, userId, page, limit)
  {
    var listed := WithIds(db.snippets, FavoriteIds(db.favorites, userId));
    WindowFacts(listed, Skip(page, limit), limit, items);
    ListPageOf(db, userId, page, limit, items, Skip(page, limit).value);
  }

  lemma ListPageOf(db: Db, userId: UserId, page: JsNum, limit: JsNum, items: seq<Snippet>, start: int)
    requires page.Int? && limit.Int? && start == (page.value - 1) * limit.value
    requires limit.value > 0 ==> |items| <= limit.value
    requires IsWindowOf(items, WithIds(db.snippets, FavoriteIds(db.favorites, userId)), start, limit.value)
    ensures IsFavoritesPage(PageBody(|FavoriteIds(db.favorites, userId)|, page.value, limit.value, items), db, userId, page, limit)
  {
    var listed := WithIds(db.snippets, FavoriteIds(db.favorites, userId));
    FavoriteIdsLength(db.favorites, userId);
    forall x | x in items
      ensures x in db.snippets && HasFavorite(db.favorites, userId, x.id)
    {
      var k :| 0 <= k < |items| && items[k] == x;
      assert x in listed;
    }
  }

  /** The handler. A favorite whose snippet is gone is counted in `total`
      but never listed. */
  function ListFavorites(st: State, caller: Option<UserId>, pageRaw: Option<string>, limitRaw: Option<string>): (resp: Response)
    ensures caller.None? ==> resp == Unauthorized
    ensures caller.Some? ==>
      var page, limit := PageParam(pageRaw), LimitParam(limitRaw, DEFAULT_FAVORITES_LIMIT);
      && (resp.Json? || resp == Failed)
      && (resp == Failed <==> page.NaN? || limit.NaN? || (page.value - 1) * limit.value < 0)
      && (resp.Json? ==>
            IsFavoritesPage(resp.body, st.db, caller.value, page, limit) && resp.body.limit <= MAX_LIMIT)
  {
    match caller
    case None => Unauthorized
    case Some(userId) =>
      match RunList(st.db, userId, PageParam(pageRaw), LimitParam(limitRaw, DEFAULT_FAVORITES_LIMIT))
      case None => Failed
      case Some(b) => Json(b)
  }
}

module MeProperties {

  import opened Wrappers
  import opened Numbers
  import opened Models
  import opened Paging
  import opened Http
  import opened Query
  import opened Server
  import opened FavoriteRoute
  import opened MeRoute

  /** `total` is the same whichever page is asked for and whatever its size. */
  lemma TotalIgnoresPaging(st: State, userId: UserId, page1: Option<string>, limit1: Option<string>,
                           page2: Option<string>, limit2: Option<string>)
    requires ListFavorites(st, Some(userId), page1, limit1).Json?
    requires ListFavorites(st, Some(userId), page2, limit2).Json?
    ensures ListFavorites(st, Some(userId), page1, limit1).body.total ==
      ListFavorites(st, Some(userId), page2, limit2).body.total
  {
  }

  /** A page size from 1 to 50 given as decimal text is used as given. */
  lemma LimitAsGiven(limit: int)
    requires 1 <= limit <= MAX_LIMIT
    ensures LimitParam(Some(Render(Int(limit))), DEFAULT_FAVORITES_LIMIT) == Int(limit)
  {
    ParseRender(Int(limit));
  }

  lemma PageAsGiven(page: int)
    ensures PageParam(Some(Render(Int(page)))) == Int(page)
  {
    ParseRender(Int(page));
  }

  /** Paging through the list with any page size from 1 to 50 reaches every
      existing snippet the user has favorited. */
  lemma EveryFavoriteOnSomePage(st: State, userId: UserId, x: Snippet, limit: int)
    requires 1 <= limit <= MAX_LIMIT
    requires x in st.db.snippets && HasFavorite(st.db.favorites, userId, x.id)
    ensures exists page: int :: page >= 1 && ListedOnPage(st, userId, x, page, limit)
  {
    var listed := WithIds(st.db.snippets, FavoriteIds(st.db.favorites, userId));
    var i :| 0 <= i < |listed| && listed[i] == x;
    IndexOnPage(st, userId, i, limit);
    var page := i / limit + 1;
    assert ListedOnPage(st, userId, x, page, limit);
  }

  /** Asking for page `page` of size `limit`, as decimal text, shows `x`. */
  predicate ListedOnPage(st: State, userId: UserId, x: Snippet, page: int, limit: int) {
    var resp := ListFavorites(st, Some(userId), Some(Render(Int(page))), Some(Render(Int(limit))));
    resp.Json? && x in resp.body.items
  }

  /** The listed snippet at position `i` is on page `i / limit + 1`, asked
      for as decimal text. */
  lemma IndexOnPage(st: State, userId: UserId, i: int, limit: int)
    requires 1 <= limit <= MAX_LIMIT
    requires 0 <= i < |WithIds(st.db.snippets, FavoriteIds(st.db.favorites, userId))|
    ensures i / limit + 1 >= 1
    ensures ListedOnPage(st, userId, WithIds(st.db.snippets, FavoriteIds(st.db.favorites, userId))[i], i / limit + 1, limit)
  {
    QuotientNonNegative(i, limit);
    var page := i / limit + 1;
    RunListHas(st.db, userId, i, limit);
    var pageRaw, limitRaw := Some(Render(Int(page))), Some(Render(Int(limit)));
    LimitAsGiven(limit);
    PageAsGiven(page);
    ListIsRunList(st, userId, pageRaw, limitRaw);
  }

  lemma QuotientNonNegative(i: int, limit: int)
    requires i >= 0 && limit >= 1
    ensures i / limit >= 0
  {
  }

  lemma ListIsRunList(st: State, userId: UserId, pageRaw: Option<string>, limitRaw: Option<string>)
    requires RunList(st.db, userId, PageParam(pageRaw), LimitParam(limitRaw, DEFAULT_FAVORITES_LIMIT)).Some?
    ensures ListFavorites(st, Some(userId), pageRaw, limitRaw) ==
      Json(RunList(st.db, userId, PageParam(pageRaw), LimitParam(limitRaw, DEFAULT_FAVORITES_LIMIT)).value)
  {
  }

  /** The listed snippet at position `i` is on page `i / limit + 1`. */
  lemma RunListHas(db: Db, userId: UserId, i: int, limit: int)
    requires limit >= 1
    requires 0 <= i < |WithIds(db.snippets, FavoriteIds(db.favorites, userId))|
    ensures var r := RunList(db, userId, Int(i / limit + 1), Int(limit));
      r.Some? && WithIds(db.snippets, FavoriteIds(db.favorites, userId))[i] in r.value.items
  {
    var listed := WithIds(db.snippets, FavoriteIds(db.favorites, userId));
    EveryIndexOnItsPage(listed, i, limit);
  }

  lemma {:induction false} FavoriteIdsConcat(a: seq<Favorite>, b: seq<Favorite>, userId: UserId)
    ensures FavoriteIds(a + b, userId) == FavoriteIds(a, userId) + FavoriteIds(b, userId)
  {
    if a != [] {
      assert (a + b)[1..] == a[1..] + b;
      FavoriteIdsConcat(a[1..], b, userId);
    } else {
      assert a + b == b;
    }
  }

  /** A first favorite of a snippet adds one to the user's total; a repeat
      adds nothing. */
  lemma FavoriteCountsOnce(st: State, userId: UserId, id: string, now: int)
    requires IsValidObjectId(id)
    ensures var after := FavoriteSnippet(st, Some(userId), id, now).state;
      |FavoriteIds(after.db.favorites, userId)| ==
        |FavoriteIds(st.db.favorites, userId)| + (if HasFavorite(st.db.favorites, userId, Canonical(id)) then 0 else 1)
  {
    var fs := st.db.favorites;
    if !HasFavorite(fs, userId, Canonical(id)) {
      var f := Favorite(userId, Canonical(id), now);
      FavoriteIdsConcat(fs, [f], userId);
      assert FavoriteIds([f], userId) == [Canonical(id)];
    }
  }

  /** Removing a favorite the user has takes one off their total. */
  lemma UnfavoriteCountsOnce(st: State, userId: UserId, id: string)
    requires IsValidObjectId(id) && HasFavorite(st.db.favorites, userId, Canonical(id))
    ensures var after := UnfavoriteSnippet(st, Some(userId), id).state;
      |FavoriteIds(after.db.favorites, userId)| == |FavoriteIds(st.db.favorites, userId)| - 1
  {
    var fs := st.db.favorites;
    var i := FindFavorite(fs, userId, Canonical(id)).value;
    assert fs == fs[..i] + ([fs[i]] + fs[i + 1..]);
    FavoriteIdsConcat(fs[..i], [fs[i]] + fs[i + 1..], userId);
    FavoriteIdsConcat([fs[i]], fs[i + 1..], userId);
    FavoriteIdsConcat(fs[..i], fs[i + 1..], userId);
    assert FavoriteIds([fs[i]], userId) == [Canonical(id)];
  }

  /** A favorite whose snippet no longer exists still counts in `total`,
      so `total` exceeds the number of snippets the pages can show. */
  lemma DanglingFavoriteCounted(db: Db, userId: UserId, snippetId: string)
    requires db.Valid()
    requires HasFavorite(db.favorites, userId, snippetId) && FindSnippet(db.snippets, snippetId).None?
    ensures |WithIds(db.snippets, FavoriteIds(db.favorites, userId))| < |FavoriteIds(db.favorites, userId)|
  {
    MissingIdShrinks(db.snippets, FavoriteIds(db.favorites, userId), snippetId);
  }

  /** Listing unique snippets by ids, one of which names none of them,
      yields fewer snippets than ids. */
  lemma MissingIdShrinks(ss: seq<Snippet>, ids: seq<string>, snippetId: string)
    requires SnippetIdsUnique(ss) && snippetId in ids && FindSnippet(ss, snippetId).None?
    ensures |WithIds(ss, ids)| < |ids|
  {
    var listed := WithIds(ss, ids);
    WithIdsUnique(ss, ids);
    var listedIds := seq(|listed|, k requires 0 <= k < |listed| => listed[k].id);
    var shown := set x | x in listedIds;
    var named := set x | x in ids;
    SetOfSeqCard(listedIds);
    SetOfSeqCard(ids);
    assert shown <= named - {snippetId} by {
      forall x | x in shown
        ensures x in named && x != snippetId
      {
        var k :| 0 <= k < |listedIds| && listedIds[k] == x;
        assert listed[k] in ss;
      }
    }
    SubsetCard(shown, named - {snippetId});
  }

  lemma {:induction false} WithIdsUnique(ss: seq<Snippet>, ids: seq<string>)
    requires SnippetIdsUnique(ss)
    ensures SnippetIdsUnique(WithIds(ss, ids))
  {
    if ss != [] {
      var t := ss[1..];
      assert SnippetIdsUnique(t) by {
        forall i, j | 0 <= i < j < |t|
          ensures t[i].id != t[j].id
        {
          assert t[i] == ss[i + 1] && t[j] == ss[j + 1];
        }
      }
      WithIdsUnique(t, ids);
      var rest := WithIds(t, ids);
      forall x | x in rest
        ensures x.id != ss[0].id
      {
        var k :| 0 <= k < |t| && t[k] == x;
        assert ss[k + 1] == x;
      }
    }
  }

  /** A sequence has at most as many distinct elements as positions, and
      exactly as many when it has no repeats. */
  lemma {:induction false} SetOfSeqCard<T>(xs: seq<T>)
    ensures |set x | x in xs| <= |xs|
    ensures (forall i, j :: 0 <= i < j < |xs| ==> xs[i] != xs[j]) ==> |set x | x in xs| == |xs|
  {
    if xs != [] {
      var t := xs[1..];
      SetOfSeqCard(t);
      assert (set x | x in xs) == {xs[0]} + (set x | x in t);
      if forall i, j :: 0 <= i < j < |xs| ==> xs[i] != xs[j] {
        assert forall i, j :: 0 <= i < j < |t| ==> t[i] != t[j] by {
          forall i, j | 0 <= i < j < |t|
            ensures t[i] != t[j]
          {
            assert t[i] == xs[i + 1] && t[j] == xs[j + 1];
          }
        }
        assert xs[0] !in t;
      }
    }
  }

  lemma {:induction false} SubsetCard<T>(a: set<T>, b: set<T>)
    requires a <= b
    ensures |a| <= |b|
    decreases |b|
  {
    if a != {} {
      var x :| x in a;
      SubsetCard(a - {x}, b - {x});
    }
  }
}
