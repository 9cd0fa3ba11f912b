/** `POST /snippets/:id/favorite` and `DELETE /snippets/:id/favorite`
    (backend/src/routes/snippets.js) over the favorites collection, whose
    unique index on (userId, snippetId) makes a second favorite of the same
    pair a duplicate-key error that the handler swallows. */
module FavoriteRoute {

  import opened Wrappers
  import opened Models
  import opened Http
  import opened Server

  predicate IsFavoritePair(f: Favorite, userId: UserId, snippetId: string) {
    f.userId == userId && f.snippetId == snippetId
  }

  /** The user has favorited the snippet. */
  predicate HasFavorite(fs: seq<Favorite>, userId: UserId, snippetId: string) {
    exists i :: 0 <= i < |fs| && IsFavoritePair(fs[i], userId, snippetId)
  }

  /** `Favorite.create`, its duplicate-key failure ignored: the pair is
      recorded once and no other pair changes. */
  function AddFavorite(fs: seq<Favorite>, userId: UserId, snippetId: string, now: int): (r: seq<Favorite>)
    ensures HasFavorite(r, userId, snippetId)
    ensures forall u, s :: (u != userId || s != snippetId) ==>
      (HasFavorite(r, u, s) <==> HasFavorite(fs, u, s))
    ensures HasFavorite(fs, userId, snippetId) ==> r == fs
    ensures |fs| <= |r| <= |fs| + 1 && r[..|fs|] == fs
  {
    if HasFavorite(fs, userId, snippetId) then fs
    else
      var r := fs + [Favorite(userId, snippetId, now)];
      assert IsFavoritePair(r[|fs|], userId, snippetId);
      assert forall u, s :: (u != userId || s != snippetId) && HasFavorite(r, u, s) ==> HasFavorite(fs, u, s) by {
        forall u, s | (u != userId || s != snippetId) && HasFavorite(r, u, s)
          ensures HasFavorite(fs, u, s)
        {
          var i :| 0 <= i < |r| && IsFavoritePair(r[i], u, s);
          assert i < |fs| && r[i] == fs[i];
        }
      }
      assert forall u, s :: HasFavorite(fs, u, s) ==> HasFavorite(r, u, s) by {
        forall u, s | HasFavorite(fs, u, s)
          ensures HasFavorite(r, u, s)
        {
          var i :| 0 <= i < |fs| && IsFavoritePair(fs[i], u, s);
          assert r[i] == fs[i];
        }
      }
      r
  }

  /** The position of the first record of the pair. */
  function FindFavorite(fs: seq<Favorite>, userId: UserId, snippetId: string): (r: Option<nat>)
    ensures r.None? <==> !HasFavorite(fs, userId, snippetId)
    ensures r.Some? ==>
      && r.value < |fs| && IsFavoritePair(fs[r.value], userId, snippetId)
      && forall k :: 0 <= k < r.value ==> !IsFavoritePair(fs[k], userId, snippetId)
  {
    if fs == [] then None
    else if IsFavoritePair(fs[0], userId, snippetId) then Some(0)
    else
      match FindFavorite(fs[1..], userId, snippetId)
      case None =>
        assert !HasFavorite(fs, userId, snippetId) by {
          forall i | 0 <= i < |fs|
            ensures !IsFavoritePair(fs[i], userId, snippetId)
          {
            if i > 0 { assert fs[i] == fs[1..][i - 1]; }
          }
        }
        None
      case Some(k) =>
        assert fs[k + 1] == fs[1..][k];
        Some(k + 1)
  }

  /** `fs` with the record at `i` taken out, the rest in order. */
  function Without(fs: seq<Favorite>, i: nat): (r: seq<Favorite>)
    requires i < |fs|
    ensures |r| == |fs| - 1
    ensures forall k :: 0 <= k < |r| ==> r[k] == if k < i then fs[k] else fs[k + 1]
  {
    fs[..i] + fs[i + 1..]
  }

  lemma WithoutKeepsOthers(fs: seq<Favorite>, i: nat, userId: UserId, snippetId: string)
    requires i < |fs| && IsFavoritePair(fs[i], userId, snippetId)
    ensures forall u, s :: (u != userId || s != snippetId) ==>
      (HasFavorite(Without(fs, i), u, s) <==> HasFavorite(fs, u, s))
    ensures forall f :: f in Without(fs, i) ==> f in fs
  {
    var r := Without(fs, i);
    forall u, s | u != userId || s != snippetId
      ensures HasFavorite(r, u, s) <==> HasFavorite(fs, u, s)
    {
      if HasFavorite(fs, u, s) {
        var j :| 0 <= j < |fs| && IsFavoritePair(fs[j], u, s);
        assert IsFavoritePair(r[if j < i then j else j - 1], u, s);
      }
    }
    forall f | f in r
      ensures f in fs
    {
      var k :| 0 <= k < |r| && r[k] == f;
      assert fs[if k < i then k else k + 1] == f;
    }
  }

  lemma WithoutDropsUniquePair(fs: seq<Favorite>, i: nat, userId: UserId, snippetId: string)
    requires i < |fs| && IsFavoritePair(fs[i], userId, snippetId)
    requires forall k :: 0 <= k < i ==> !IsFavoritePair(fs[k], userId, snippetId)
    requires FavoritePairsUnique(fs)
    ensures !HasFavorite(Without(fs, i), userId, snippetId)
  {
    var r := Without(fs, i);
    forall k | 0 <= k < |r|
      ensures !IsFavoritePair(r[k], userId, snippetId)
    {
      if k >= i {
        assert r[k] == fs[k + 1];
      }
    }
  }

  /** `Favorite.deleteOne`: the first record of the pair goes, the rest stay
      in order. With the unique index the pair is gone afterwards. */
  function RemoveFavorite(fs: seq<Favorite>, userId: UserId, snippetId: string): (r: seq<Favorite>)
    ensures !HasFavorite(fs, userId, snippetId) ==> r == fs
    ensures HasFavorite(fs, userId, snippetId) ==> |r| == |fs| - 1
    ensures FavoritePairsUnique(fs) ==> !HasFavorite(r, userId, snippetId)
    ensures forall u, s :: (u != userId || s != snippetId) ==>
      (HasFavorite(r, u, s) <==> HasFavorite(fs, u, s))
    ensures forall f :: f in r ==> f in fs
  {
    match FindFavorite(fs, userId, snippetId)
    case None => fs
    case Some(i) =>
      WithoutKeepsOthers(fs, i, userId, snippetId);
      if FavoritePairsUnique(fs) then
        WithoutDropsUniquePair(fs, i, userId, snippetId);
        Without(fs, i)
      else
        Without(fs, i)
  }

  /** `POST /:id/favorite`: 401 without a user, 400 for a malformed id,
      otherwise `{ ok: true }` whether or not the pair was already there
      and whether or not the snippet exists. */
  function FavoriteSnippet(st: State, caller: Option<UserId>, id: string, now: int): (out: Step)
    ensures caller.None? ==> out == Step(st, Unauthorized)
    ensures caller.Some? && !IsValidObjectId(id) ==> out == Step(st, BadRequest)
    ensures caller.Some? && IsValidObjectId(id) ==>
      && out.response == Json(Ok)
      && out.state == st.(db := st.db.(favorites := AddFavorite(st.db.favorites, caller.value, Canonical(id), now)))
  {
    match caller
    case None => Step(st, Unauthorized)
    case Some(userId) =>
      if !IsValidObjectId(id) then Step(st, BadRequest)
      else
        var favorites := AddFavorite(st.db.favorites, userId, Canonical(id), now);
        Step(st.(db := st.db.(favorites := favorites)), Json(Ok))
  }

  /** `DELETE /:id/favorite`: the id is not validated, so a malformed one
      fails the cast of the filter and reaches the error middleware as a
      500; otherwise `{ ok: true }`, whether or not there was a favorite. */
  function UnfavoriteSnippet(st: State, caller: Option<UserId>, id: string): (out: Step)
    ensures caller.None? ==> out == Step(st, Unauthorized)
    ensures caller.Some? && !IsValidObjectId(id) ==> out == Step(st, Failed)
    ensures caller.Some? && IsValidObjectId(id) ==>
      && out.response == Json(Ok)
      && out.state == st.(db := st.db.(favorites := RemoveFavorite(st.db.favorites, caller.value, Canonical(id))))
  {
    match caller
    case None => Step(st, Unauthorized)
    case Some(userId) =>
      if !IsValidObjectId(id) then Step(st, Failed)
      else
        var favorites := RemoveFavorite(st.db.favorites, userId, Canonical(id));
        Step(st.(db := st.db.(favorites := favorites)), Json(Ok))
  }
}

module FavoriteProperties {

  import opened Wrappers
  import opened Models
  import opened Http
  import opened Server
  import opened FavoriteRoute

  /** Favoriting twice is favoriting once: the second call answers ok and
      changes nothing. */
  lemma FavoriteIdempotent(st: State, caller: Option<UserId>, id: string, now1: int, now2: int)
    ensures var once := FavoriteSnippet(st, caller, id, now1);
      FavoriteSnippet(once.state, caller, id, now2) == once
  {
  }

  /** With the unique index, unfavoriting twice is unfavoriting once. */
  lemma UnfavoriteIdempotent(st: State, caller: Option<UserId>, id: string)
    requires FavoritePairsUnique(st.db.favorites)
    ensures var once := UnfavoriteSnippet(st, caller, id);
      UnfavoriteSnippet(once.state, caller, id) == once
  {
  }

  /** Favoriting a snippet the user had not favorited and then removing the
      favorite gives back the store as it was. */
  lemma FavoriteThenUnfavorite(st: State, userId: UserId, id: string, now: int)
    requires IsValidObjectId(id) && !HasFavorite(st.db.favorites, userId, Canonical(id))
    ensures UnfavoriteSnippet(FavoriteSnippet(st, Some(userId), id, now).state, Some(userId), id) ==
      Step(st, Json(Ok))
  {
    var sid := Canonical(id);
    var fs := st.db.favorites;
    var added := AddFavorite(fs, userId, sid, now);
    assert added == fs + [Favorite(userId, sid, now)];
    assert FindFavorite(added, userId, sid) == Some(|fs|) by {
      assert forall k :: 0 <= k < |fs| ==> added[k] == fs[k] && !IsFavoritePair(fs[k], userId, sid);
    }
    assert RemoveFavorite(added, userId, sid) == Without(added, |fs|);
    assert Without(added, |fs|) == fs;
  }

  lemma AddKeepsUnique(fs: seq<Favorite>, userId: UserId, snippetId: string, now: int)
    requires FavoritePairsUnique(fs)
    ensures FavoritePairsUnique(AddFavorite(fs, userId, snippetId, now))
  {
    var r := AddFavorite(fs, userId, snippetId, now);
    if !HasFavorite(fs, userId, snippetId) {
      forall i, j | 0 <= i < j < |r|
        ensures r[i].userId != r[j].userId || r[i].snippetId != r[j].snippetId
      {
        if j == |fs| {
          assert !IsFavoritePair(fs[i], userId, snippetId);
        }
      }
    }
  }

  lemma RemoveKeepsUnique(fs: seq<Favorite>, userId: UserId, snippetId: string)
    requires FavoritePairsUnique(fs)
    ensures FavoritePairsUnique(RemoveFavorite(fs, userId, snippetId))
  {
    match FindFavorite(fs, userId, snippetId)
    case None =>
    case Some(i) =>
      var r := Without(fs, i);
      forall a, b | 0 <= a < b < |r|
        ensures r[a].userId != r[b].userId || r[a].snippetId != r[b].snippetId
      {
        var a', b' := if a < i then a else a + 1, if b < i then b else b + 1;
        assert r[a] == fs[a'] && r[b] == fs[b'] && a' < b';
      }
  }

  /** Both handlers keep the store valid: the unique index on (userId,
      snippetId) holds and every favorite names a well-formed snippet id. */
  lemma FavoriteKeepsValid(st: State, caller: Option<UserId>, id: string, now: int)
    requires st.db.Valid()
    ensures FavoriteSnippet(st, caller, id, now).state.db.Valid()
  {
    if caller.Some? && IsValidObjectId(id) {
      var fs := st.db.favorites;
      var r := AddFavorite(fs, caller.value, Canonical(id), now);
      AddKeepsUnique(fs, caller.value, Canonical(id), now);
      forall i | 0 <= i < |r|
        ensures IsCanonicalId(r[i].snippetId)
      {
        if i < |fs| { assert r[i] == fs[i]; }
      }
    }
  }

  lemma UnfavoriteKeepsValid(st: State, caller: Option<UserId>, id: string)
    requires st.db.Valid()
    ensures UnfavoriteSnippet(st, caller, id).state.db.Valid()
  {
    if caller.Some? && IsValidObjectId(id) {
      var fs := st.db.favorites;
      var r := RemoveFavorite(fs, caller.value, Canonical(id));
      RemoveKeepsUnique(fs, caller.value, Canonical(id));
      forall i | 0 <= i < |r|
        ensures IsCanonicalId(r[i].snippetId)
      {
        assert r[i] in fs;
      }
    }
  }
}
