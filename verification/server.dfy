/** The state every route handler reads and writes: the document store and
    the cache, plus the TTL configuration read from the environment. A
    handler is one atomic step from a state to a state and a response. */
module Server {

  import opened Wrappers
  import opened Numbers
  import opened Models
  import opened Http
  import Cache
  import opened Query

  datatype State = State(db: Db, cache: Cache.Store)

  datatype Step = Step(state: State, response: Response)

  /** `SEARCH_TTL` and `SNIPPET_TTL`, in seconds. */
  datatype Config = Config(searchTtl: JsNum, snippetTtl: JsNum)

  /** `parseInt(process.env.CACHE_TTL_SEARCH || '90')` and
      `parseInt(process.env.CACHE_TTL_SNIPPET || '300')`. */
  function LoadConfig(searchEnv: Option<string>, snippetEnv: Option<string>): (cfg: Config)
    ensures (searchEnv.None? || searchEnv.value == "") ==> cfg.searchTtl == Int(90)
    ensures (snippetEnv.None? || snippetEnv.value == "") ==> cfg.snippetTtl == Int(300)
    ensures searchEnv.Some? && searchEnv.value != "" ==> cfg.searchTtl == ParseInt(searchEnv.value)
    ensures snippetEnv.Some? && snippetEnv.value != "" ==> cfg.snippetTtl == ParseInt(snippetEnv.value)
  {
    DefaultTtls();
    Config(ParseInt(OrText(searchEnv, "90")), ParseInt(OrText(snippetEnv, "300")))
  }

  lemma DefaultTtls()
    ensures ParseInt("90") == Int(90)
    ensures ParseInt("300") == Int(300)
  {
    HundredsText();
    NinetyText();
  }

  lemma NinetyText()
    ensures ParseInt("90") == Int(90)
  {
    TwoDigitText("90", 90);
    ParseText("90", 90);
  }

  lemma HundredsText()
    ensures ParseInt("300") == Int(300)
  {
    TwoDigitText("30", 30);
    DecimalDigits(30, 0);
    assert "300" == "30" + [DecimalChar(0)];
    ParseText("300", 300);
  }
}
