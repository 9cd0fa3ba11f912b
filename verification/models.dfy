/** The three document collections of the catalogue and the constraints their
    schemas declare: Snippet, Rating and Favorite records, ObjectId text, the
    text-index field weights, and the uniqueness indexes on (user, snippet). */
module Models {

  import opened Wrappers
  import opened Numbers

  /** A user id, as the authentication layer hands it over (already an
      ObjectId in canonical form). */
  type UserId = string

  /** The text form of an ObjectId the handlers accept: 24 hexadecimal
      digits, in either letter case. */
  predicate IsValidObjectId(id: string) {
    |id| == 24 && forall i :: 0 <= i < |id| ==> IsHexDigit(id[i])
  }

  function LowerHex(c: char): (r: char)
    ensures IsHexDigit(c) ==> IsHexDigit(r) && DigitValue(r) == DigitValue(c)
    ensures !('A' <= r <= 'F')
  {
    if 'A' <= c <= 'F' then (c - 'A' + 'a') as char else c
  }

  /** The ObjectId a valid id text denotes, written as the store writes it
      back: lower-case hexadecimal. Two texts denote the same document
      exactly when their canonical forms are equal. */
  function Canonical(id: string): (r: string)
    requires IsValidObjectId(id)
    ensures IsCanonicalId(r)
    ensures forall i :: 0 <= i < 24 ==> DigitValue(r[i]) == DigitValue(id[i])
  {
    seq(24, i requires 0 <= i < 24 => LowerHex(id[i]))
  }

  predicate IsCanonicalId(id: string) {
    IsValidObjectId(id) && forall i :: 0 <= i < |id| ==> !('A' <= id[i] <= 'F')
  }

  /** A stored snippet. `avgRating` and `ratingCount` are derived from the
      Rating collection; `createdAt` is a clock reading. */
  datatype Snippet = Snippet(
    id: string,
    title: string,
    description: Option<string>,
    lang: Option<string>,
    tags: seq<string>,
    code: Option<string>,
    avgRating: real,
    ratingCount: int,
    createdAt: int)

  datatype Rating = Rating(userId: UserId, snippetId: string, value: int, createdAt: int)

  datatype Favorite = Favorite(userId: UserId, snippetId: string, createdAt: int)

  /** A schema validation failure: the named path is missing or out of range. */
  datatype ValidationError = Required(path: string) | OutOfRange(path: string)

  /** The fields of the weighted text index over snippets. */
  datatype TextField = Title | Tags | Description | Code

  /** The weight the text index gives to a match in each field. */
  function Weight(f: TextField): nat {
    match f
    case Title => 5
    case Description => 2
    case Tags => 3
    case Code => 1
  }

  /** Title outweighs tags, tags outweigh description, description outweighs
      code; every field counts for something. */
  lemma WeightOrder()
    ensures Weight(Title) > Weight(Tags) > Weight(Description) > Weight(Code) > 0
  {
  }

  /** Creating a snippet: a missing or empty title is refused; the rating
      aggregate starts at 0/0 and `createdAt` defaults to the clock. */
  function NewSnippet(id: string, title: Option<string>, description: Option<string>,
                      lang: Option<string>, tags: seq<string>, code: Option<string>,
                      now: int): (r: Result<Snippet, ValidationError>)
    ensures r.Failure? <==> title.None? || title.value == ""
    ensures r.Failure? ==> r.error == Required("title")
    ensures r.Success? ==>
      && r.value.id == id && Some(r.value.title) == title && r.value.title != ""
      && r.value.description == description && r.value.lang == lang
      && r.value.tags == tags && r.value.code == code
      && r.value.avgRating == 0.0 && r.value.ratingCount == 0
      && r.value.createdAt == now
  {
    match title
    case None => Failure(Required("title"))
    case Some(t) =>
      if t == "" then Failure(Required("title"))
      else Success(Snippet(id, t, description, lang, tags, code, 0.0, 0, now))
  }

  predicate InRatingRange(v: int) {
    1 <= v <= 5
  }

  /** Creating a rating: the value must lie in [1,5]; `createdAt` defaults to
      the clock. */
  function NewRating(userId: UserId, snippetId: string, value: int, now: int): (r: Result<Rating, ValidationError>)
    ensures r.Success? <==> InRatingRange(value)
    ensures r.Failure? ==> r.error == OutOfRange("value")
    ensures r.Success? ==> r.value == Rating(userId, snippetId, value, now)
  {
    if value < 1 || value > 5 then Failure(OutOfRange("value"))
    else Success(Rating(userId, snippetId, value, now))
  }

  /** At most one rating per (user, snippet) pair: the unique index. */
  predicate RatingPairsUnique(rs: seq<Rating>) {
    forall i, j :: 0 <= i < j < |rs| ==>
      rs[i].userId != rs[j].userId || rs[i].snippetId != rs[j].snippetId
  }

  predicate IsPair(r: Rating, userId: UserId, snippetId: string) {
    r.userId == userId && r.snippetId == snippetId
  }

  /** `Rating.findOne({ userId, snippetId })`: the position of the first
      record for the pair. */
  function FindPair(rs: seq<Rating>, userId: UserId, snippetId: string): (r: Option<nat>)
    ensures r.Some? ==> r.value < |rs| && IsPair(rs[r.value], userId, snippetId)
    ensures r.Some? ==> forall i :: 0 <= i < r.value ==> !IsPair(rs[i], userId, snippetId)
    ensures r.None? ==> forall i :: 0 <= i < |rs| ==> !IsPair(rs[i], userId, snippetId)
  {
    if rs == [] then None
    else if IsPair(rs[0], userId, snippetId) then Some(0)
    else
      match FindPair(rs[1..], userId, snippetId)
      case None => None
      case Some(i) => Some(i + 1)
  }

  /** The records of one (user, snippet) pair. */
  function PairRecords(rs: seq<Rating>, userId: UserId, snippetId: string): (r: seq<Rating>)
    ensures forall x :: x in r <==> x in rs && IsPair(x, userId, snippetId)
  {
    if rs == [] then []
    else
      var rest := PairRecords(rs[1..], userId, snippetId);
      assert rs == [rs[0]] + rs[1..];
      if IsPair(rs[0], userId, snippetId) then [rs[0]] + rest else rest
  }

  /** The value of the user's rating of the snippet, if there is one. */
  function RatingOf(rs: seq<Rating>, userId: UserId, snippetId: string): (r: Option<int>)
    ensures r.None? <==> forall i :: 0 <= i < |rs| ==> !IsPair(rs[i], userId, snippetId)
    ensures r.Some? ==> exists i :: 0 <= i < |rs| && IsPair(rs[i], userId, snippetId) && rs[i].value == r.value
  {
    match FindPair(rs, userId, snippetId)
    case None => None
    case Some(i) => Some(rs[i].value)
  }

  /** At most one favorite per (user, snippet) pair: the unique index. */
  predicate FavoritePairsUnique(fs: seq<Favorite>) {
    forall i, j :: 0 <= i < j < |fs| ==>
      fs[i].userId != fs[j].userId || fs[i].snippetId != fs[j].snippetId
  }

  predicate SnippetIdsUnique(ss: seq<Snippet>) {
    forall i, j :: 0 <= i < j < |ss| ==> ss[i].id != ss[j].id
  }

  /** The document store: each collection in its natural (insertion) order. */
  datatype Db = Db(snippets: seq<Snippet>, ratings: seq<Rating>, favorites: seq<Favorite>) {

    /** What the schemas and indexes guarantee of every stored document. */
    predicate Valid() {
      && SnippetIdsUnique(snippets)
      && (forall i :: 0 <= i < |snippets| ==> IsCanonicalId(snippets[i].id) && snippets[i].title != "")
      && (forall i :: 0 <= i < |ratings| ==> InRatingRange(ratings[i].value) && IsCanonicalId(ratings[i].snippetId))
      && RatingPairsUnique(ratings)
      && (forall i :: 0 <= i < |favorites| ==> IsCanonicalId(favorites[i].snippetId))
      && FavoritePairsUnique(favorites)
    }
  }

  /** `Snippet.findById`: the snippet with that id, if any. */
  function FindSnippet(ss: seq<Snippet>, id: string): (r: Option<Snippet>)
    ensures r.Some? ==> r.value in ss && r.value.id == id
    ensures r.None? ==> forall i :: 0 <= i < |ss| ==> ss[i].id != id
  {
    if ss == [] then None
    else if ss[0].id == id then Some(ss[0])
    else FindSnippet(ss[1..], id)
  }
}
