# Snippet hub: search, ratings and favorites

This Dafny project models the core of the snippet hub's backend. That core is the Express routes under `/api/snippets` and the `GET /favorites` route under `/api/me`, together with the three Mongoose schemas they use.

The routes covered are:

- keyword and filter search, with its page and count queries and its Redis cache;
- reading one snippet through the cache;
- reading the caller's own rating;
- rating a snippet: upsert the rating, recompute the snippet's average and count, drop the snippet's cache entry;
- favoriting and unfavoriting;
- the caller's paged list of favorites.

How the model works:

- **The store.** The document store is one sequence per collection (`Models.Db`), each in natural (insertion) order. The schemas and unique indexes become `Db.Valid`.
- **The cache.** Redis is a map from key to body and time-to-live (`Cache.Store`).
- **Handlers.** A route handler that can change the store or the cache is a pure function from the server state and the request to the next state and the response (`Server.Step`). The read-only handlers `SnippetRead.GetRating` and `MeRoute.ListFavorites` return the response alone.
- **Failures.** An exception that reaches the error middleware is the `500` response `Http.Failed`.
- **The caller.** The authentication middleware is reduced to its outcome: `Some(userId)` for a request it lets through, `None` for one it answers with `401`.
- **Numbers.** Query parameters are parsed with a model of JavaScript's `parseInt` (`Numbers.ParseInt`): leading white space, one sign, a `0x` prefix, the longest digit run, and `NaN` when there are no digits. `Math.min` keeps `NaN`. The page and limit in cache keys are rendered as JavaScript renders numbers, `NaN` included.

Modules:

| module | file | models |
|---|---|---|
| `Wrappers` | wrappers.dfy | `Option` and `Result` |
| `Numbers` | numbers.dfy | `parseInt`, `Math.min`, number-to-text |
| `Models` | models.dfy | the Snippet, Rating and Favorite documents, ObjectId text, the store and its invariants |
| `Ordering` | ordering.dfy | the descending sort orders of the search queries |
| `Paging` | paging.dfy | `skip((page-1)*limit).limit(limit)` |
| `Http` | http.dfy | response bodies and error responses |
| `Cache` | cache.dfy | Redis `GET`, `SET … EX`, `DEL` |
| `Query` | query.dfy | query-string defaults and the limit cap of 50 |
| `Server` | server.dfy | server state, the handler step, the cache time-to-live settings |
| `CacheKeys` | cachekeys.dfy | the `snippet:` and `search:` keys |
| `SearchRoute`, `SearchProperties` | search.dfy | `GET /api/snippets` |
| `SnippetRead`, `SnippetReadProperties` | snippet_read.dfy | `GET /:id` and `GET /:id/rating` |
| `RateRoute` | rating.dfy | `POST /:id/rate` |
| `RateProperties` | rating_properties.dfy | rating invariants, and runs of rate calls |
| `FavoriteRoute`, `FavoriteProperties` | favorites.dfy | `POST` and `DELETE /:id/favorite` |
| `MeRoute`, `MeProperties` | me.dfy | `GET /api/me/favorites` |

Behaviour kept as the code has it:

- **The page is not clamped.** With a positive limit, a page of 0 or less gives a negative skip, which the store refuses, so the answer is `500` whenever it does not come from the cache.
- **Rating an unknown snippet.** A valid but unknown id stores the rating anyway and answers `{ snippet: null, yourRating }`.
- **`GET /:id` reads the cache first.** It looks up the cache before validating the id.
- **Rating leaves cached search pages alone.** It deletes only the `snippet:` entry.
- **`DELETE /:id/favorite` with a malformed id fails.** The route does not validate the id, so Mongoose's cast error becomes `500`.
- **The favorites `total` counts dangling favorites.** It counts favorite records, including those whose snippet no longer exists. The page lists only existing snippets.
- **Favoriting swallows duplicates.** It ignores the duplicate-key error and does not check that the snippet exists.

## Model

| member | source | states |
|---|---|---|
| Numbers.ParseRender | backend/src/routes/snippets.js:19-21 | `parseInt` reads the text of every integer back as that integer, so page and limit numbers survive being written into query strings and keys |
| Numbers.RenderInjective | backend/src/routes/snippets.js:21 | two page or limit values, `NaN` included, with the same text in a key are the same value |
| Numbers.ParseDigits | backend/src/routes/snippets.js:19 | a text made only of decimal digits parses to its decimal value |
| Numbers.Min | backend/src/routes/snippets.js:20 | `Math.min(50, x)` is `NaN` exactly when `x` is. Otherwise it is at most 50, is either 50 or `x`, and is `x` whenever `x` is at most 50 |
| Models.NewSnippet | backend/src/models/Snippet.js:4-11 | creating a snippet fails with a required-title error exactly when the title is missing or empty. Otherwise the fields are as given, the average and count start at 0, and `createdAt` is the clock |
| Models.NewRating | backend/src/models/Rating.js:4-7 | creating a rating succeeds exactly when the value lies in 1..5, and otherwise fails on `value` |
| Models.WeightOrder | backend/src/models/Snippet.js:14 | the text index weighs title above tags, tags above description, description above code, and every field above zero |
| Models.Canonical | backend/src/routes/snippets.js:53-54 | a valid 24-hex-digit id casts to a lower-case ObjectId with the same digit values |
| Models.FindPair | backend/src/routes/snippets.js:78 | `Rating.findOne` for a (user, snippet) pair gives the first record of the pair, or nothing exactly when no record has it |
| Models.RatingOf | backend/src/routes/snippets.js:65-66 | the caller's rating is null exactly when no record of the pair exists, and otherwise is the value of such a record |
| Models.FindSnippet | backend/src/routes/snippets.js:54 | `findById` gives a stored snippet with that id, or nothing exactly when no stored snippet has it |
| Ordering.PrecedesTotalPreorder | backend/src/routes/snippets.js:35 | the rank comparison is reflexive, total and transitive |
| Ordering.Insert | backend/src/routes/snippets.js:35 | inserting into a sorted list keeps it sorted, and adds exactly that one element to its multiset |
| Ordering.SortByRank | backend/src/routes/snippets.js:33-35 | the sorted result is a permutation of the input, in descending rank order |
| Paging.Skip | backend/src/routes/snippets.js:39 | `(page-1)*limit` is `NaN` exactly when page or limit is |
| Paging.Window | backend/src/routes/snippets.js:39 | the store refuses a `NaN` or negative skip and a `NaN` limit, and nothing else. Otherwise it returns consecutive documents from the skip on: all the rest for limit 0, and at most the limit's magnitude otherwise |
| Paging.PageIsSlice | backend/src/routes/snippets.js:39 | for page and limit of at least 1, the page is the run of documents starting at `(page-1)*limit`. It holds at most `limit` documents, and exactly `limit` when enough exist |
| Paging.PagesDisjoint | backend/src/routes/snippets.js:39 | two different pages of a list without repeats share no document |
| Paging.EveryIndexOnItsPage | backend/src/routes/snippets.js:39 | document `i` is item `i % limit` of page `i / limit + 1` |
| Cache.Get | backend/src/routes/snippets.js:23-24 | a lookup finds a body exactly when the key is stored, and gives the stored body |
| Cache.Set | backend/src/routes/snippets.js:42 | `SET … EX ttl` succeeds exactly when `ttl` is a positive integer. It then stores the body under the key with that time-to-live and leaves every other entry as it was |
| Cache.Del | backend/src/routes/snippets.js:92 | deleting removes the key and leaves every other entry as it was |
| Query.Or | backend/src/routes/snippets.js:17 | `lang \|\| language`: the first parameter when it is non-empty, the second otherwise |
| Query.OrText | backend/src/routes/snippets.js:16 | `q \|\| ''`: the parameter when it is non-empty, the fallback otherwise |
| Query.PageParam | backend/src/routes/snippets.js:19 | a missing or empty page is 1. Any other page text goes through `parseInt` |
| Query.LimitParam | backend/src/routes/snippets.js:20 | the limit is never above 50 and is `Math.min(50, parseInt(text))` of the given text, or of the default when none is given |
| Query.ParseOne | backend/src/routes/snippets.js:19 | the default page text reads as page 1 |
| Query.DefaultLimits | backend/src/routes/snippets.js:20 | the default search limit is 10, and the favorites list's default is 20 |
| Server.LoadConfig | backend/src/routes/snippets.js:11-12 | the time-to-lives are 90 s for searches and 300 s for snippets when unset, and otherwise `parseInt` of the setting |
| Server.DefaultTtls | backend/src/routes/snippets.js:11-12 | the default texts read as 90 and 300 |
| CacheKeys.SnippetKeyInjective | backend/src/routes/snippets.js:50 | two different id texts never share a `snippet:` cache entry |
| CacheKeys.AsWrittenKeyCollides | backend/src/routes/snippets.js:21 | as written, two different searches get the same key: keyword `a:b` with tag `c`, and keyword `a` with language `b` and tag `:c` |
| CacheKeys.DecodeSearchKeyRoundTrip | backend/src/routes/snippets.js:21 | the corrected search key decodes back to its keyword, language, tag, page and limit |
| CacheKeys.SearchKeyInjective | backend/src/routes/snippets.js:21 | two searches share a corrected key only when all five of their fields agree |
| CacheKeys.KeyspacesDisjoint | backend/src/routes/snippets.js:50 | no search key, as written or corrected, is ever a snippet key |
| SearchRoute.PlanSearch | backend/src/routes/snippets.js:16-22 | the cache is used exactly for requests without an Authorization header. The keyword, language (`lang`, then `language`) and tag get their defaults. The page and limit are the parsed query values, defaulting to 1 and 10, with the limit capped at 50. The key is the one line 21 builds: `search:` and the five fields joined by `:` without escaping |
| SearchRoute.Matching | backend/src/routes/snippets.js:27-38 | a snippet matches exactly when it is stored, passes the language and tag filters, and, when there is a keyword, has a positive text score |
| SearchRoute.RunQuery | backend/src/routes/snippets.js:31-41 | the queries fail exactly when page or limit is `NaN` or the skip is negative. Otherwise `total` counts all matches, and the items are matches in rank order, taken from position `(page-1)*limit` of the ordered matches. There are as many as remain there, at most `limit` of them when the limit is positive |
| SearchRoute.Search | backend/src/routes/snippets.js:14-45 | the handler never changes the store. An anonymous request whose key is cached gets the cached body. Otherwise the handler runs the queries; a refused query answers `500` with nothing cached. An anonymous miss whose query succeeds answers the query's page when the search time-to-live is a positive integer, and is then cached under its key; with a `NaN` or non-positive time-to-live it answers `500` and changes nothing. An authenticated answer touches no cache entry |
| SearchProperties.NoKeywordOrder | backend/src/routes/snippets.js:35 | without a keyword, the items run from most to fewest ratings, and newest first among equal counts |
| SearchProperties.KeywordOrder | backend/src/routes/snippets.js:33 | with a keyword, the items run from highest to lowest text score |
| SearchProperties.PageLength | backend/src/routes/snippets.js:38-39 | for page and limit of at least 1, the page holds `min(limit, total - (page-1)*limit)` items, or none past the end |
| SearchProperties.TwentyFiveMatches | backend/src/routes/snippets.js:38-41 | with 25 matches and limit 10, page 1 holds 10 items and page 3 holds 5, and `total` is 25 |
| SearchProperties.PagesShareNothing | backend/src/routes/snippets.js:39 | two different pages of the same search never show the same snippet, provided both page queries order equal ranks the same way |
| SearchProperties.OrderedDistinct | backend/src/routes/snippets.js:33-35 | the ordered matches never repeat a snippet |
| SearchProperties.MatchingSamePredicate | backend/src/routes/snippets.js:38 | the count query and the page query select the same snippets whatever the page and limit |
| SearchProperties.AuthenticatedIgnoresCache | backend/src/routes/snippets.js:22-25 | an authenticated search answers the same whatever the cache holds, and leaves the cache as it was |
| SearchProperties.RepeatedAnonymousSearch | backend/src/routes/snippets.js:42 | an anonymous search that succeeded, repeated at once, gets the same answer and changes nothing |
| SearchProperties.CollidingSearchServedOtherPage | backend/src/routes/snippets.js:21-31 | an anonymous search for keyword `a:b` with tag `c` and one for keyword `a`, language `b` and tag `:c` share a cache key. Once the first is answered, the second gets the first one's page |
| SearchProperties.PageBelowOneFails | backend/src/routes/snippets.js:19 | a page below 1, with a positive limit, gives a negative skip and so a `500` when not answered from the cache |
| SnippetRead.GetSnippet | backend/src/routes/snippets.js:47-59 | A cached entry is answered from the cache before the id is checked. An invalid id gets `400`, and an unknown snippet gets `404`. A found snippet is answered and cached for the snippet time-to-live, or fails with `500` when that time-to-live is not a positive integer. The store is never changed |
| SnippetRead.GetRating | backend/src/routes/snippets.js:61-68 | a missing caller gets `401` and an invalid id `400`. Otherwise the answer is null exactly when the caller has no rating of the snippet, and is that rating's value otherwise |
| SnippetReadProperties.RepeatedRead | backend/src/routes/snippets.js:51-56 | after a successful read the snippet is cached, and reading it again answers the same body without a change |
| RateRoute.ValidateRateBody | backend/src/routes/snippets.js:73-75 | a body is accepted exactly when its only key is `value` and that value is a number, or numeric text, equal to 1, 2, 3, 4 or 5. The accepted value is that integer |
| RateRoute.Upsert | backend/src/routes/snippets.js:78-84 | Rating a pair without a record appends a new record. Rating a pair with a record updates the value of its first record in place. Records of other pairs are neither added nor lost |
| RateRoute.UpsertLeavesOneRecord | backend/src/routes/snippets.js:78-84 | under the unique index, after a rate call the pair has exactly one record, holding the new value, and the index still holds |
| RateRoute.AggregateFor | backend/src/routes/snippets.js:87-88 | the aggregate's count is the number of the snippet's ratings and its average is their mean (0 with no ratings). With all ratings in range, a rated snippet's average lies in 1..5 |
| RateRoute.AggregateOf | backend/src/routes/snippets.js:87-88 | `$avg` and `$sum: 1` over a list: the count is its length and the average its mean, 0 for an empty list. With values in 1..5 a non-empty average lies in 1..5 |
| RateRoute.MeanBounds | backend/src/routes/snippets.js:87 | the mean of n values whose sum lies in n..5n lies in 1..5 |
| RateRoute.SumBounds | backend/src/models/Rating.js:6 | n values in 1..5 sum to between n and 5n |
| RateRoute.SetAggregate | backend/src/routes/snippets.js:89 | `findByIdAndUpdate` sets the average and count of the snippet with that id and leaves every other snippet as it was |
| RateRoute.Rate | backend/src/routes/snippets.js:70-97 | A missing caller gets `401`, and an invalid body or id gets `400`; neither changes anything. Otherwise the rating is upserted and the snippet's average and count become the aggregate of its ratings. Only that snippet's cache entry is dropped. The answer is the updated snippet, or null, with the new value |
| RateProperties.RatingOfUpsert | backend/src/routes/snippets.js:78-84 | after a rate call the caller's rating of the snippet is the new value, and every other pair's rating reads as before |
| RateProperties.CountIsRaters | backend/src/models/Rating.js:10 | under the unique index, a snippet has exactly one rating per distinct rater |
| RateProperties.UpsertOtherSnippet | backend/src/routes/snippets.js:87-89 | rating one snippet leaves every other snippet's ratings and aggregate unchanged |
| RateProperties.UpsertKeepsRatingsValid | backend/src/models/Rating.js:6-10 | a rate call keeps every stored value in 1..5 and the (user, snippet) index unique |
| RateProperties.RateKeepsStoreValid | backend/src/routes/snippets.js:70-97 | a rate call, accepted or not, keeps every schema and index constraint of the store |
| RateProperties.RateKeepsAggregatesConsistent | backend/src/routes/snippets.js:86-89 | if every snippet's stored average and count equal its ratings' aggregate before a rate call, they do after it |
| RateProperties.RateThenGetRating | backend/src/routes/snippets.js:78-84 | after a rate call, the caller reading their rating gets the new value. Every other user's rating, and the caller's rating of other snippets, read as before |
| RateProperties.RateUnknownSnippet | backend/src/routes/snippets.js:76-95 | rating a valid but unknown id stores the rating anyway, changes no snippet, and answers a null snippet with the value |
| RateProperties.RateKeepsSearchPages | backend/src/routes/snippets.js:92 | a rate call leaves every cached search page in place, stale counts and averages included |
| RateProperties.ReadAfterRate | backend/src/routes/snippets.js:89-92 | after rating an existing snippet, reading it misses the cache and shows the new average and count |
| RateProperties.ReRateOverwrites | backend/src/routes/snippets.js:78-81 | rating 3 and then 5 leaves a single record holding 5 and answers `yourRating` 5 |
| RateProperties.VoteStep | backend/src/routes/snippets.js:73-84 | a rate call with an integer in 1..5 and a valid id is accepted, keeps the store valid, and upserts exactly that rating |
| RateProperties.UpsertAllRatings | backend/src/routes/snippets.js:78-84 | after a run of upserts each user's rating is their last vote, or the earlier rating for users who did not vote |
| RateProperties.UpsertAllRaters | backend/src/routes/snippets.js:78-84 | after a run of upserts the raters are the earlier raters plus the voters |
| RateProperties.RateAllUpserts | backend/src/routes/snippets.js:70-97 | a run of accepted rate calls keeps the store valid and applies one upsert per vote, in order |
| RateProperties.RateAllRatings | backend/src/routes/snippets.js:78-84 | after a run of rate calls each user's rating is their last vote, or what it was before |
| RateProperties.RateAllRaters | backend/src/routes/snippets.js:78-84 | after a run of rate calls the snippet's raters are the earlier raters plus the voters |
| RateProperties.RateAllStoresAggregate | backend/src/routes/snippets.js:86-89 | after a non-empty run the snippet's stored average and count are its ratings' aggregate |
| RateProperties.RunRatings | backend/src/routes/snippets.js:78-84 | on a snippet without ratings, a run leaves each user with exactly their last vote, and none for users who did not vote |
| RateProperties.RunAggregate | backend/src/routes/snippets.js:86-89 | on a snippet without ratings, the values a run leaves are, as a multiset, exactly each voter's last vote. The stored count is the number of distinct voters and the stored average is the mean of those last votes |
| RateProperties.RunValues | backend/src/routes/snippets.js:77-86 | on a snippet without ratings, the values a run of rate calls leaves are, as a multiset, each voter's last vote |
| RateProperties.LastVotesSnoc | backend/src/routes/snippets.js:77-84 | one more vote stands and replaces its user's earlier standing vote, if any |
| RateProperties.UpsertValues | backend/src/routes/snippets.js:77-84 | an upsert replaces the user's value of the snippet, or adds one when the user had none |
| RateProperties.StoredAggregateIsMean | backend/src/routes/snippets.js:87-89 | a stored aggregate's count is the number of ratings and its average their mean |
| FavoriteRoute.AddFavorite | backend/src/routes/snippets.js:103-105 | after `Favorite.create`, with a duplicate ignored, the pair is present. A pair already present leaves the list as it was. No other pair appears or disappears, and the earlier records stay first |
| FavoriteRoute.FindFavorite | backend/src/routes/snippets.js:113 | the position of the pair's first record, or nothing exactly when the pair is absent |
| FavoriteRoute.RemoveFavorite | backend/src/routes/snippets.js:113 | `deleteOne` removes one record when the pair is present and nothing otherwise. Under the unique index the pair is then gone. Other pairs are unaffected and no record is invented |
| FavoriteRoute.FavoriteSnippet | backend/src/routes/snippets.js:99-108 | a missing caller gets `401` and an invalid id `400`. Otherwise the pair is added and the answer is `{ ok: true }`, whether or not the pair existed and whether or not the snippet exists |
| FavoriteRoute.UnfavoriteSnippet | backend/src/routes/snippets.js:110-116 | a missing caller gets `401` and a malformed id `500`, with no change. Otherwise the pair's record is removed and the answer is `{ ok: true }` |
| FavoriteProperties.FavoriteIdempotent | backend/src/routes/snippets.js:103-105 | favoriting twice gives the same state and answer as favoriting once |
| FavoriteProperties.UnfavoriteIdempotent | backend/src/routes/snippets.js:113 | under the unique index, unfavoriting twice gives the same state and answer as unfavoriting once |
| FavoriteProperties.FavoriteThenUnfavorite | backend/src/routes/snippets.js:99-116 | favoriting a snippet the user had not favorited and then unfavoriting it restores the state exactly |
| FavoriteProperties.AddKeepsUnique | backend/src/models/Favorite.js:9 | favoriting keeps the (user, snippet) index unique |
| FavoriteProperties.RemoveKeepsUnique | backend/src/models/Favorite.js:9 | unfavoriting keeps the (user, snippet) index unique |
| FavoriteProperties.FavoriteKeepsValid | backend/src/routes/snippets.js:99-108 | a favorite call keeps every schema and index constraint of the store |
| FavoriteProperties.UnfavoriteKeepsValid | backend/src/routes/snippets.js:110-116 | an unfavorite call keeps every schema and index constraint of the store |
| MeRoute.FavoriteIds | backend/src/routes/me.js:12-13 | the ids listed are exactly the snippets the user has favorited, and there are no more of them than favorite records |
| MeRoute.FavoriteIdsPerRecord | backend/src/routes/me.js:12-13 | the ids hold one entry per favorite record of the user: as many entries as records, and each snippet id as often as the user has a record of it |
| MeRoute.WithIds | backend/src/routes/me.js:16 | `find({ _id: { $in: ids } })` gives exactly the stored snippets whose id is listed, and no more snippets than are stored |
| MeRoute.RunList | backend/src/routes/me.js:12-19 | The list fails exactly when page or limit is `NaN` or the skip is negative. Otherwise `total` is the number of the user's favorite records. The items are favorited, existing snippets, the run from position `(page-1)*limit` of the listed ones. There are as many as remain there, at most `limit` of them when the limit is positive |
| MeRoute.ListFavorites | backend/src/routes/me.js:7-23 | A missing caller gets `401`. Otherwise the page defaults to 1 and the limit to 20 capped at 50. A refused skip gives `500`, and any other request gets a favorites page |
| MeProperties.TotalIgnoresPaging | backend/src/routes/me.js:14 | `total` is the same for every page and limit |
| MeProperties.LimitAsGiven | backend/src/routes/me.js:10 | a limit written out as 1..50 is used as given |
| MeProperties.PageAsGiven | backend/src/routes/me.js:9 | a page written out as any integer is used as given |
| MeProperties.EveryFavoriteOnSomePage | backend/src/routes/me.js:16-19 | every existing favorited snippet appears on some page of at least 1, for every limit in 1..50 |
| MeProperties.IndexOnPage | backend/src/routes/me.js:16-19 | the listed snippet at position `i` is on page `i / limit + 1` |
| MeProperties.RunListHas | backend/src/routes/me.js:16-19 | the store query for page `i / limit + 1` includes the listed snippet at position `i` |
| MeProperties.ListIsRunList | backend/src/routes/me.js:7-21 | an authenticated list the store accepts answers exactly the store's page |
| MeProperties.FavoriteCountsOnce | backend/src/routes/me.js:14 | favoriting raises `total` by one for a new pair, and leaves it unchanged for an existing one |
| MeProperties.UnfavoriteCountsOnce | backend/src/routes/me.js:14 | unfavoriting a present pair lowers `total` by one |
| MeProperties.DanglingFavoriteCounted | backend/src/routes/me.js:13-16 | a favorite whose snippet no longer exists still counts in `total`, so `total` exceeds the number of snippets any page can show |
| MeProperties.MissingIdShrinks | backend/src/routes/me.js:16 | listing unique snippets by ids, one of which names none of them, gives fewer snippets than ids |
| MeProperties.WithIdsUnique | backend/src/routes/me.js:16 | the listed favorites never repeat a snippet |

## Left out

- Express routing, Redis and MongoDB connections, logging, and all I/O: each handler is one atomic step on an explicit state.
- Concurrency: concurrent rate or favorite calls, and the race between `findOne` and `create` in the rate handler, are not modelled. Every request is one atomic step.
- Authentication: JWT verification and the user lookup are reduced to an optional caller. A missing header, a bad token and an unknown user all give `401`. `backend/src/middleware/auth.js` is not part of this model beyond that.
- The text index's scoring: the relevance of a snippet to a keyword is a parameter. A snippet matches exactly when its score is positive. The field weights are modelled as constants only.
- The `score` projection of keyword search: the items carry the stored snippet only.
- Sort ties: the store does not promise any order among equal ranks. The model breaks ties by natural order, one order the store may produce.
- ObjectIds: only the 24-hex-digit text form is modelled. `isValid` also accepts any 12-character string, which is not modelled.
- `parseInt` beyond 2^53, and floating-point averages: integers are unbounded and averages are exact reals.
- Repeated query parameters (arrays in `req.query`) and non-string query values.
- Joi details beyond accept or reject on `{ value }`. Joi's converted value equals the accepted integer; the error messages are not modelled.
- Store behaviour for odd skip and limit values is an assumption. A `NaN` or negative skip is refused, which gives `500`. A limit of 0 means no limit, and a negative limit returns at most its magnitude.
- Redis `SET … EX` with a `NaN` or non-positive time-to-live is an error, which gives `500`. Expiry over time is not modelled: entries live until deleted.
- `createdAt` defaults come from a clock passed in as a parameter.
- SearchProperties.PagesShareNothing: holds only when both page queries put equally ranked snippets in the same order. The store promises no order among equal sort keys, so two separate page queries could show the same snippet on both pages.
- Models.NewRating: the schema's `value` is a Number, so a direct create with 2.5 would pass its 1..5 bounds, but the model's value is an integer. The rate handler only stores integers that Joi accepts (backend/src/routes/snippets.js:72-73) and builds its records without this constructor.
- Models.NewSnippet: snippet creation is not a route of this core. The constructor states the schema's required title and defaults only.

## Findings

| source | as written | input that shows it | evidently intended | confidence | as-written member | corrected member |
|---|---|---|---|---|---|---|
| backend/src/routes/snippets.js:21 | the search cache key joins keyword, language, tag, page and limit with `:` and no escaping | keyword `a:b`, no language, tag `c` versus keyword `a`, language `b`, tag `:c`, both page 1 and limit 10: both give the key `search:a:b::c:1:10` | one cache entry per distinct search, so an anonymous search never receives another search's cached page | not executed | CacheKeys.AsWrittenKeyCollides | CacheKeys.SearchKeyInjective |
