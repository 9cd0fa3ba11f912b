/** Cache keys. Single snippets are cached under `snippet:<id>`; search
    pages under a key built from the normalised query. The key the search
    handler writes joins its text segments with `:` without escaping them,
    so two different searches can share one key; `SearchKey` escapes `:`
    and `\` inside the text segments, which makes the key determine the
    query. */
module CacheKeys {

  import opened Wrappers
  import opened Numbers

  const SEARCH_PREFIX := "search:"
  const SNIPPET_PREFIX := "snippet:"

  /** `snippet:${id}`, with the id text exactly as the request spelled it. */
  function SnippetKey(id: string): (k: string)
    ensures |k| == |SNIPPET_PREFIX| + |id|
  {
    SNIPPET_PREFIX + id
  }

  lemma SnippetKeyInjective(id1: string, id2: string)
    requires SnippetKey(id1) == SnippetKey(id2)
    ensures id1 == id2
  {
    assert id1 == SnippetKey(id1)[|SNIPPET_PREFIX|..];
  }

  /** The search key exactly as the handler builds it:
      `search:${q}:${lang||''}:${tag||''}:${page}:${limit}`. */
  function SearchKeyAsWritten(q: string, lang: string, tag: string, page: JsNum, limit: JsNum): string {
    SEARCH_PREFIX + q + ":" + lang + ":" + tag + ":" + Render(page) + ":" + Render(limit)
  }

  /** Two searches with different keywords and different filters get the
      same key as written: keyword `a:b` with tag `c`, and keyword `a` with
      language `b` and tag `:c`. */
  lemma AsWrittenKeyCollides()
    ensures SearchKeyAsWritten("a:b", "", "c", Int(1), Int(10))
         == SearchKeyAsWritten("a", "b", ":c", Int(1), Int(10))
  {
  }

  function EscapeChar(c: char): (e: string)
    ensures e != [] && e[0] != ':'
    ensures e[0] == '\\' <==> (c == ':' || c == '\\')
    ensures e[0] == '\\' ==> |e| == 2 && e[1] == c
    ensures e[0] != '\\' ==> e == [c]
  {
    if c == ':' || c == '\\' then ['\\', c] else [c]
  }

  /** A text segment with `:` and `\` preceded by `\`. */
  function Escape(s: string): string {
    if s == [] then [] else EscapeChar(s[0]) + Escape(s[1..])
  }

  /** One escaped segment followed by the separator and the rest of the key. */
  function Segment(s: string, rest: string): string {
    Escape(s) + ":" + rest
  }

  /** The search key with escaped text segments. */
  function SearchKey(q: string, lang: string, tag: string, page: JsNum, limit: JsNum): string {
    SEARCH_PREFIX + Segment(q, Segment(lang, Segment(tag, Render(page) + ":" + Render(limit))))
  }

  /** Reads one escaped segment off the front of a key: the text up to
      the first `:` not preceded by `\`, unescaped, and what follows it. */
  function SplitSegment(k: string): (string, string)
    decreases |k|
  {
    if k == [] then ([], [])
    else if k[0] == ':' then ([], k[1..])
    else if k[0] == '\\' && |k| >= 2 then
      var (s, r) := SplitSegment(k[2..]);
      ([k[1]] + s, r)
    else
      var (s, r) := SplitSegment(k[1..]);
      ([k[0]] + s, r)
  }

  /** Reading a segment back recovers the text and the rest of the key. */
  lemma {:induction false} SplitSegmentOfSegment(s: string, r: string)
    ensures SplitSegment(Segment(s, r)) == (s, r)
    decreases |s|
  {
    if s == [] {
      assert Segment(s, r) == [':'] + r;
    } else {
      var e := EscapeChar(s[0]);
      var t := Segment(s[1..], r);
      assert Segment(s, r) == e + t;
      SplitSegmentOfSegment(s[1..], r);
      if e[0] == '\\' {
        assert (e + t)[2..] == t;
      } else {
        assert (e + t)[1..] == t;
      }
      assert s == [s[0]] + s[1..];
    }
  }

  /** The text before the first `:` and the text after it. */
  function SplitAtColon(k: string): (string, string) {
    if k == [] then ([], [])
    else if k[0] == ':' then ([], k[1..])
    else
      var (a, b) := SplitAtColon(k[1..]);
      ([k[0]] + a, b)
  }

  lemma {:induction false} SplitAtColonOf(a: string, b: string)
    requires forall i :: 0 <= i < |a| ==> a[i] != ':'
    ensures SplitAtColon(a + ":" + b) == (a, b)
  {
    if a != [] {
      assert (a + ":" + b)[1..] == a[1..] + ":" + b;
      SplitAtColonOf(a[1..], b);
      assert a == [a[0]] + a[1..];
    }
  }

  /** The query a search key was built from. */
  datatype KeyFields = KeyFields(q: string, lang: string, tag: string, page: JsNum, limit: JsNum)

  /** Reads a search key back into its query: the inverse of `SearchKey`. */
  function DecodeSearchKey(k: string): Option<KeyFields> {
    if |k| < |SEARCH_PREFIX| || k[..|SEARCH_PREFIX|] != SEARCH_PREFIX then None
    else
      var (q, r1) := SplitSegment(k[|SEARCH_PREFIX|..]);
      var (lang, r2) := SplitSegment(r1);
      var (tag, r3) := SplitSegment(r2);
      var (page, limit) := SplitAtColon(r3);
      Some(KeyFields(q, lang, tag, ParseInt(page), ParseInt(limit)))
  }

  lemma ParseNaNText()
    ensures ParseInt("NaN") == NaN
  {
    var t := "NaN";
    assert !IsJsSpace(t[0]);
    TrimStartNoSpace(t);
  }

  lemma ParseRendered(x: JsNum)
    ensures ParseInt(Render(x)) == x
  {
    if x.Int? {
      ParseRender(x);
    } else {
      ParseNaNText();
    }
  }

  /** Every search key decodes to the query it was built from. */
  lemma DecodeSearchKeyRoundTrip(q: string, lang: string, tag: string, page: JsNum, limit: JsNum)
    ensures DecodeSearchKey(SearchKey(q, lang, tag, page, limit)) == Some(KeyFields(q, lang, tag, page, limit))
  {
    var n := Render(page) + ":" + Render(limit);
    var k := SearchKey(q, lang, tag, page, limit);
    assert k[..|SEARCH_PREFIX|] == SEARCH_PREFIX;
    assert k[|SEARCH_PREFIX|..] == Segment(q, Segment(lang, Segment(tag, n)));
    SplitSegmentOfSegment(q, Segment(lang, Segment(tag, n)));
    SplitSegmentOfSegment(lang, Segment(tag, n));
    SplitSegmentOfSegment(tag, n);
    SplitAtColonOf(Render(page), Render(limit));
    ParseRendered(page);
    ParseRendered(limit);
  }

  /** Equal escaped keys come from equal queries: a cached search page is
      only ever served for the query that produced it. */
  lemma SearchKeyInjective(q1: string, lang1: string, tag1: string, page1: JsNum, limit1: JsNum,
                           q2: string, lang2: string, tag2: string, page2: JsNum, limit2: JsNum)
    requires SearchKey(q1, lang1, tag1, page1, limit1) == SearchKey(q2, lang2, tag2, page2, limit2)
    ensures q1 == q2 && lang1 == lang2 && tag1 == tag2 && page1 == page2 && limit1 == limit2
  {
    DecodeSearchKeyRoundTrip(q1, lang1, tag1, page1, limit1);
    DecodeSearchKeyRoundTrip(q2, lang2, tag2, page2, limit2);
  }

  /** A search key is never a single-snippet key, so the two uses of the
      cache cannot overwrite each other. */
  lemma KeyspacesDisjoint(q: string, lang: string, tag: string, page: JsNum, limit: JsNum, id: string)
    ensures SearchKey(q, lang, tag, page, limit) != SnippetKey(id)
    ensures SearchKeyAsWritten(q, lang, tag, page, limit) != SnippetKey(id)
  {
    assert SearchKey(q, lang, tag, page, limit)[1] == 'e';
    assert SearchKeyAsWritten(q, lang, tag, page, limit)[1] == 'e';
    assert SnippetKey(id)[1] == 'n';
  }
}
