/** `GET /snippets/:id` (cached single snippet) and `GET /snippets/:id/rating`
    (the caller's own rating). */
module SnippetRead {

  import opened Wrappers
  import opened Models
  import opened Http
  import Cache
  import opened CacheKeys
  import opened Server

  /** The single-snippet handler. It consults the cache under the id text as
      given before it checks that the text is an ObjectId at all. */
  function GetSnippet(st: State, id: string, cfg: Config): (out: Step)
    ensures out.state.db == st.db
    ensures out.response.Error? ==> out.state == st
    ensures SnippetKey(id) in st.cache ==> out == Step(st, Json(st.cache[SnippetKey(id)].body))
    ensures SnippetKey(id) !in st.cache && !IsValidObjectId(id) ==> out == Step(st, BadRequest)
    ensures SnippetKey(id) !in st.cache && IsValidObjectId(id) ==>
      match FindSnippet(st.db.snippets, Canonical(id))
      case None => out == Step(st, NotFoundResponse)
      case Some(s) =>
        if cfg.snippetTtl.Int? && cfg.snippetTtl.value > 0 then
          && out.response == Json(SnippetDoc(s))
          && out.state.cache == st.cache[SnippetKey(id) := Cache.Entry(SnippetDoc(s), cfg.snippetTtl.value)]
        else out == Step(st, Failed)
  {
    var key := SnippetKey(id);
    match Cache.Get(st.cache, key)
    case Some(body) => Step(st, Json(body))
    case None =>
      if !IsValidObjectId(id) then Step(st, BadRequest)
      else
        match FindSnippet(st.db.snippets, Canonical(id))
        case None => Step(st, NotFoundResponse)
        case Some(s) =>
          match Cache.Set(st.cache, key, SnippetDoc(s), cfg.snippetTtl)
          case None => Step(st, Failed)
          case Some(c) => Step(st.(cache := c), Json(SnippetDoc(s)))
  }

  /** The caller's rating of a snippet, or null. Reads only. */
  function GetRating(st: State, caller: Option<UserId>, id: string): (resp: Response)
    ensures caller.None? ==> resp == Unauthorized
    ensures caller.Some? && !IsValidObjectId(id) ==> resp == BadRequest
    ensures caller.Some? && IsValidObjectId(id) ==>
      && resp.Json? && resp.body.UserRating?
      && (resp.body.rating.None? <==>
            forall i :: 0 <= i < |st.db.ratings| ==> !IsPair(st.db.ratings[i], caller.value, Canonical(id)))
      && (resp.body.rating.Some? ==>
            exists i :: 0 <= i < |st.db.ratings| && IsPair(st.db.ratings[i], caller.value, Canonical(id))
              && st.db.ratings[i].value == resp.body.rating.value)
  {
    match caller
    case None => Unauthorized
    case Some(userId) =>
      if !IsValidObjectId(id) then BadRequest
      else Json(UserRating(RatingOf(st.db.ratings, userId, Canonical(id))))
  }
}

module SnippetReadProperties {

  import opened Wrappers
  import opened Models
  import opened Http
  import opened CacheKeys
  import opened Server
  import opened SnippetRead

  /** A successful read leaves the snippet in the cache, so reading it again
      answers the same without touching the state. */
  lemma RepeatedRead(st: State, id: string, cfg: Config)
    requires GetSnippet(st, id, cfg).response.Json?
    ensures var first := GetSnippet(st, id, cfg);
      GetSnippet(first.state, id, cfg) == Step(first.state, first.response)
      && SnippetKey(id) in first.state.cache
  {
  }
}
