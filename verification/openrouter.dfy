/** The OpenRouter credits fetcher (openrouter_fetcher.rs): which API key
    is used, how the credit fields of the decoded response are read, and
    the remaining credits. The app does not declare this module (lib.rs),
    so it is modelled on its own. f64 is `real`; parsing a number out of
    text is an abstract function passed in. The request is a function from
    the Authorization header to how the exchange ended. */
module OpenRouter {
  import opened Wrappers
  import opened Text
  import opened Fetch
  import Keychain

  const ENV_VAR := "OPENROUTER_API_KEY"

  /** A JSON value as far as the credit fields tell them apart: a number
      (with its value, when it has one as an f64), a string, or anything
      else. */
  datatype JsonValue = Number(as_f64: Option<real>) | Str(text: string) | Other

  datatype CreditsPayload = CreditsPayload(total_credits: Option<JsonValue>, total_usage: Option<JsonValue>)
  datatype CreditsResponse = CreditsResponse(data: Option<CreditsPayload>)

  datatype CreditsData = CreditsData(
    total_credits: real,
    total_usage: real,
    remaining_credits: real,
    fetched_at: string)

  /** `value_to_f64`: a number's value, a string's parse, or 0 for
      anything that yields no value. */
  function ValueToF64(v: Option<JsonValue>, parse_f64: string -> Option<real>): (x: real)
    ensures v.Some? && v.value.Number? && v.value.as_f64.Some? ==> x == v.value.as_f64.value
    ensures v.Some? && v.value.Str? && parse_f64(v.value.text).Some? ==> x == parse_f64(v.value.text).value
    ensures x != 0.0 ==>
      v.Some? && ((v.value.Number? && v.value.as_f64.Some?) || (v.value.Str? && parse_f64(v.value.text).Some?))
  {
    match v
    case Some(Number(n)) => if n.Some? then n.value else 0.0
    case Some(Str(s)) => if parse_f64(s).Some? then parse_f64(s).value else 0.0
    case _ => 0.0
  }

  /** `read_openrouter_key`: a key from the Keychain wins and a Keychain
      error is passed on; only when the Keychain has no key is the
      environment variable read, and its trimmed value must not be empty. */
  function ReadKey(keychain: Result<Option<string>, string>, env: Option<string>): (r: Result<string, string>)
    ensures keychain.Err? ==> r == Err(keychain.error)
    ensures keychain.Ok? && keychain.value.Some? ==> r == Ok(keychain.value.value)
    ensures keychain == Ok(None) ==> (r.Ok? <==> env.Some? && Trim(env.value) != "")
    ensures keychain == Ok(None) && r.Ok? ==> r.value == Trim(env.value)
    ensures keychain == Ok(None) && env.None? ==> r == Err(ENV_VAR + " is not set")
    ensures keychain == Ok(None) && env.Some? && Trim(env.value) == "" ==> r == Err(ENV_VAR + " is empty")
  {
    match keychain
    case Err(e) => Err(e)
    case Ok(Some(key)) => Ok(key)
    case Ok(None) =>
      match env
      case None => Err(ENV_VAR + " is not set")
      case Some(value) =>
        var trimmed := Trim(value);
        if trimmed == "" then Err(ENV_VAR + " is empty") else Ok(trimmed)
  }

  /** Whatever the source, the key sent is never blank and carries no
      surrounding whitespace. */
  lemma KeyIsTrimmed(run: Result<Keychain.CommandOutput, string>, env: Option<string>)
    ensures var r := ReadKey(Keychain.ReadKey(run), env);
      r.Ok? ==> r.value != "" && Trim(r.value) == r.value
  {
    if Keychain.ReadKey(run) == Ok(None) && env.Some? {
      TrimIdempotent(env.value);
    }
  }

  /** `(total - usage).max(0.0)`: the least amount that is not negative
      and covers what the usage leaves of the total. */
  function Remaining(total: real, usage: real): (r: real)
    ensures r >= 0.0 && r >= total - usage
    ensures r == 0.0 || r == total - usage
  {
    if total - usage > 0.0 then total - usage else 0.0
  }

  /** The data built from a decoded response: a missing `data` object or
      field counts as 0. */
  function ToCredits(response: CreditsResponse, fetched_at: string, parse_f64: string -> Option<real>): (d: CreditsData)
    ensures d.remaining_credits == Remaining(d.total_credits, d.total_usage)
    ensures d.remaining_credits >= 0.0
    ensures d.remaining_credits + d.total_usage >= d.total_credits
    ensures d.total_usage > d.total_credits ==> d.remaining_credits == 0.0
    ensures d.total_usage <= d.total_credits ==> d.remaining_credits == d.total_credits - d.total_usage
    ensures response.data.None? ==> d.total_credits == 0.0 && d.total_usage == 0.0 && d.remaining_credits == 0.0
    ensures response.data.Some? ==>
      d.total_credits == ValueToF64(response.data.value.total_credits, parse_f64) &&
      d.total_usage == ValueToF64(response.data.value.total_usage, parse_f64)
    ensures d.fetched_at == fetched_at
  {
    var data := if response.data.Some? then response.data.value else CreditsPayload(None, None);
    var total := ValueToF64(data.total_credits, parse_f64);
    var usage := ValueToF64(data.total_usage, parse_f64);
    CreditsData(total, usage, Remaining(total, usage), fetched_at)
  }

  const BEARER := "Bearer "

  /** The `Authorization` header value: a bearer token carrying the key
      unchanged. */
  function Authorization(key: string): (r: string)
    ensures BEARER <= r && r[|BEARER|..] == key
  {
    BEARER + key
  }

  /** `fetch_openrouter_credits`: no request without a key; credits exactly
      when the response decodes; a failed status quotes the body's
      excerpt. */
  function FetchCredits(
    key: Result<string, string>,
    send: string -> Exchange<CreditsResponse>,
    fetched_at: string,
    parse_f64: string -> Option<real>): (r: Result<CreditsData, string>)
    ensures key.Err? ==> r == Err(key.error)
    ensures r.Ok? <==> key.Ok? && send(Authorization(key.value)).Decoded?
    ensures r.Ok? ==> r.value == ToCredits(send(Authorization(key.value)).payload, fetched_at, parse_f64)
    ensures key.Ok? && send(Authorization(key.value)).HttpError? ==>
      var e := send(Authorization(key.value));
      r == Err("OpenRouter API returned " + e.status + ": " + Excerpt(e.body))
  {
    match key
    case Err(e) => Err(e)
    case Ok(k) =>
      match send(Authorization(k))
      case SendFailed(e) => Err("OpenRouter request failed: " + e)
      case HttpError(status, body) => Err(StatusError("OpenRouter API returned ", status, body))
      case Unparsable(e) => Err("Failed to parse OpenRouter response: " + e)
      case Decoded(response) => Ok(ToCredits(response, fetched_at, parse_f64))
  }
}
