/** `FunctionConfig` and the defaults the constructor spreads under it. */
module Config {
  import opened Wrappers
  import opened Entries

  /** The request configuration; `None` is an absent property. */
  datatype FunctionConfig = FunctionConfig(
    httpMethod: Option<string>,
    url: Option<string>,
    headers: Option<seq<(string, string)>>,
    payload: Option<Entries>,
    successFeedback: Option<string>,
    errorFeedback: Option<string>,
    isMainLoop: Option<bool>,
    isReaction: Option<bool>,
    headersString: Option<string>,
    payloadString: Option<string>,
    platform: Option<string>)

  /** `{ method: 'get', headers: {}, payload: {}, headersString: '{}',
      payloadString: '{}', ...config }`: every property the caller supplied
      wins, and only the five defaulted properties are filled in. */
  function WithDefaults(c: FunctionConfig): (r: FunctionConfig)
    ensures r.httpMethod == (if c.httpMethod.Some? then c.httpMethod else Some("get"))
    ensures r.headers == (if c.headers.Some? then c.headers else Some([]))
    ensures r.payload == (if c.payload.Some? then c.payload else Some([]))
    ensures r.headersString == (if c.headersString.Some? then c.headersString else Some("{}"))
    ensures r.payloadString == (if c.payloadString.Some? then c.payloadString else Some("{}"))
    ensures r.url == c.url && r.successFeedback == c.successFeedback
    ensures r.errorFeedback == c.errorFeedback && r.isMainLoop == c.isMainLoop
    ensures r.isReaction == c.isReaction && r.platform == c.platform
  {
    c.(
      httpMethod := Some(c.httpMethod.GetOr("get")),
      headers := Some(c.headers.GetOr([])),
      payload := Some(c.payload.GetOr([])),
      headersString := Some(c.headersString.GetOr("{}")),
      payloadString := Some(c.payloadString.GetOr("{}")))
  }

  /** A stored configuration already carries its defaults, so reconstructing a
      function from its serialised configuration changes nothing. */
  lemma WithDefaultsIdempotent(c: FunctionConfig)
    ensures WithDefaults(WithDefaults(c)) == WithDefaults(c)
  {
  }
}
