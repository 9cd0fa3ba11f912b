/** Reading query-string and environment parameters the way the handlers do:
    `raw || fallback` treats an absent or empty value as missing, and numeric
    parameters go through `parseInt` and, for page sizes, `Math.min(50, …)`. */
module Query {

  import opened Wrappers
  import opened Numbers

  /** The largest page size a handler asks the store for. */
  const MAX_LIMIT := 50

  /** `a || b` on optional strings. */
  function Or(a: Option<string>, b: Option<string>): (r: Option<string>)
    ensures a.Some? && a.value != "" ==> r == a
    ensures (a.None? || a.value == "") ==> r == b
  {
    if a.Some? && a.value != "" then a else b
  }

  /** `raw || fallback` when the fallback is a string. */
  function OrText(raw: Option<string>, fallback: string): (r: string)
    ensures raw.Some? && raw.value != "" ==> r == raw.value
    ensures (raw.None? || raw.value == "") ==> r == fallback
  {
    Or(raw, Some(fallback)).value
  }

  /** `parseInt(req.query.page || '1')`: neither clamped to 1 nor checked. */
  function PageParam(raw: Option<string>): (r: JsNum)
    ensures (raw.None? || raw.value == "") ==> r == Int(1)
    ensures raw.Some? && raw.value != "" ==> r == ParseInt(raw.value)
  {
    ParseOne();
    ParseInt(OrText(raw, "1"))
  }

  /** `Math.min(50, parseInt(req.query.limit || fallback))`. */
  function LimitParam(raw: Option<string>, fallback: string): (r: JsNum)
    ensures r.Int? ==> r.value <= MAX_LIMIT
    ensures (raw.None? || raw.value == "") ==> r == Min(MAX_LIMIT, ParseInt(fallback))
    ensures raw.Some? && raw.value != "" ==> r == Min(MAX_LIMIT, ParseInt(raw.value))
  {
    Min(MAX_LIMIT, ParseInt(OrText(raw, fallback)))
  }

  lemma ParseOne()
    ensures ParseInt("1") == Int(1)
  {
    ParseText("1", 1);
  }

  /** The default page size of the search handler is 10, of the favorites
      list 20, both under the cap. */
  lemma DefaultLimits()
    ensures LimitParam(None, "10") == Int(10)
    ensures LimitParam(None, "20") == Int(20)
  {
    TenText();
    TwentyText();
  }

  lemma TenText()
    ensures ParseInt("10") == Int(10)
  {
    TwoDigitText("10", 10);
    ParseText("10", 10);
  }

  lemma TwentyText()
    ensures ParseInt("20") == Int(20)
  {
    TwoDigitText("20", 20);
    ParseText("20", 20);
  }
}
