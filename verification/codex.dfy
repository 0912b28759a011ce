/** The mapping of the Codex usage endpoint's decoded response onto the
    shared usage snapshot (codex_fetcher.rs): `format_seconds`,
    `window_label` and `convert_payload`.

    Reading the access token, the HTTP request and the JSON decoding are not
    modelled. The fetch time is an input, and parsing the credit balance
    text as a float is an abstract function passed in. */
module Codex {
  import opened Wrappers
  import opened Text
  import opened RustInt
  import opened Usage

  // ----- decoded response -----

  datatype WindowSnapshot = WindowSnapshot(
    used_percent: real,
    limit_window_seconds: I64,
    reset_after_seconds: I64)

  datatype RateLimitDetails = RateLimitDetails(
    limit_reached: bool,
    primary_window: Option<WindowSnapshot>,
    secondary_window: Option<WindowSnapshot>)

  datatype AdditionalRateLimit = AdditionalRateLimit(limit_name: string, rate_limit: Option<RateLimitDetails>)

  datatype Credits = Credits(has_credits: bool, unlimited: bool, balance: Option<string>)

  datatype WhamUsageResponse = WhamUsageResponse(
    plan_type: Option<string>,
    rate_limit: Option<RateLimitDetails>,
    additional_rate_limits: Option<seq<AdditionalRateLimit>>,
    credits: Option<Credits>)

  // ----- formatting -----

  /** `format_seconds`: "Resets soon" for no time left, else whole hours
      and minutes, or minutes alone (possibly "0m") under an hour. */
  function FormatSeconds(secs: I64): (r: string)
    ensures secs <= 0 ==> r == RESETS_SOON
  {
    if secs <= 0 then RESETS_SOON
    else
      var hours := TruncDiv(secs, 3600);
      var mins := TruncDiv(TruncRem(secs, 3600), 60);
      if hours > 0 then ResetsInHours(hours, mins) else ResetsInMinutes(mins)
  }

  /** Every non-negative count of seconds reads as some whole hours and
      left-over whole minutes. */
  lemma HoursMinutesExist(secs: int) returns (h: nat, m: nat)
    requires secs >= 0
    ensures HoursMinutes(secs, h, m)
  {
    DivBracket(secs, 3600);
    h := secs / 3600;
    var r := secs - h * 3600;
    DivBracket(r, 60);
    m := r / 60;
    assert m * 60 <= r < 3600;
    MulMonotone(60, m, 60);
  }

  /** For `secs` seconds that read as `h` hours and `m` minutes, the
      descriptor shows the hours only when there is a whole one, and always
      the minutes. */
  lemma FormatSecondsShowsTimeLeft(secs: I64, h: nat, m: nat)
    requires secs > 0 && HoursMinutes(secs, h, m)
    ensures FormatSeconds(secs) == if h > 0 then ResetsInHours(h, m) else ResetsInMinutes(m)
  {
    HoursMinutesArithmetic(secs, h, m);
  }

  /** The Codex and the Claude descriptors agree from one minute on; below
      a minute the Codex one says "Resets in 0m" where the Claude one says
      "Resets soon". */
  lemma FormatSecondsMatchesFormatReset(secs: I64, raw: string)
    ensures secs >= 60 ==> FormatSeconds(secs) == FormatReset(Some(ResetStamp(raw, Some(secs))))
    ensures 0 < secs < 60 ==> FormatSeconds(secs) == ResetsInMinutes(0)
    ensures 0 < secs < 60 ==> FormatReset(Some(ResetStamp(raw, Some(secs)))) == RESETS_SOON
  {
    if secs > 0 {
      var h, m := HoursMinutesExist(secs);
      FormatSecondsShowsTimeLeft(secs, h, m);
      FormatResetShowsTimeLeft(raw, secs, h, m);
      if secs >= 60 {
        assert h > 0 || m > 0;
      } else {
        assert h == 0 && m == 0;
      }
    }
  }

  const DAY_WINDOW := "-day window"
  const HOUR_WINDOW := "-hour window"

  /** `window_label`: the window length in whole hours, or in whole days
      (of whole hours) once it reaches 24 hours. A window is labelled in
      days exactly when it lasts at least a day. */
  function WindowLabel(secs: I64): (r: string)
    ensures |r| > |DAY_WINDOW|
    ensures secs >= 86400 <==> r[|r| - |DAY_WINDOW|..] == DAY_WINDOW
    ensures secs < 86400 ==> |r| > |HOUR_WINDOW| && r[|r| - |HOUR_WINDOW|..] == HOUR_WINDOW
  {
    var hours := TruncDiv(secs, 3600);
    assert hours >= 24 <==> secs >= 86400;
    if hours >= 24 then
      var r := IntToString(TruncDiv(hours, 24)) + DAY_WINDOW;
      assert r[|r| - |DAY_WINDOW|..] == DAY_WINDOW;
      r
    else
      var r := IntToString(hours) + HOUR_WINDOW;
      assert r[|r| - |HOUR_WINDOW|..] == HOUR_WINDOW;
      assert r[|r| - |DAY_WINDOW|..] == HOUR_WINDOW[1..];
      r
  }

  /** A window of `h` whole hours is labelled in hours below a day and in
      whole days from a day on. */
  lemma WindowLabelShowsLength(secs: I64, h: nat)
    requires h * 3600 <= secs < h * 3600 + 3600
    ensures WindowLabel(secs) ==
      if h >= 24 then NatToString(h / 24) + "-day window" else NatToString(h) + "-hour window"
  {
    DivUnique(secs, 3600, h);
  }

  /** A window shorter than an hour, or of a negative length, is labelled
      in hours: "0-hour window" or a negative count. */
  lemma WindowLabelBelowOneHour(secs: I64)
    requires secs < 3600
    ensures WindowLabel(secs) == IntToString(TruncDiv(secs, 3600)) + "-hour window"
    ensures TruncDiv(secs, 3600) <= 0
  {
  }

  lemma WindowLabelExamples()
    ensures WindowLabel(18000) == "5-hour window"
    ensures WindowLabel(604800) == "7-day window"
  {
    FiveHourLabel();
    SevenDayLabel();
  }

  lemma FiveHourLabel()
    ensures WindowLabel(18000) == "5-hour window"
  {
    WindowLabelShowsLength(18000, 5);
    assert NatToString(5) == "5";
  }

  lemma SevenDayLabel()
    ensures WindowLabel(604800) == "7-day window"
  {
    WindowLabelShowsLength(604800, 168);
    assert NatToString(168 / 24) == "7";
  }

  // ----- the payload mapping -----

  const SESSION_FALLBACK := "Session"
  const WEEKLY_FALLBACK := "Weekly"
  const LIMIT_REACHED_PREFIX := "LIMIT REACHED - "
  const UNLIMITED := "Unlimited"

  /** A present window's metric: its length label, its percentage and the
      time left until its reset, read as whole hours and minutes. */
  function SnapshotMetric(w: WindowSnapshot): (m: UsageMetric)
    ensures m.name == WindowLabel(w.limit_window_seconds)
    ensures m.percent_used == w.used_percent
    ensures m.reset_info == FormatSeconds(w.reset_after_seconds)
    ensures w.reset_after_seconds <= 0 ==> m.reset_info == RESETS_SOON
    ensures forall h: nat, mm: nat :: HoursMinutes(w.reset_after_seconds, h, mm) ==>
      m.reset_info == TimeLeftText(w.reset_after_seconds, h, mm)
  {
    TimeLeftAll(w.reset_after_seconds);
    UsageMetric(WindowLabel(w.limit_window_seconds), w.used_percent, FormatSeconds(w.reset_after_seconds))
  }

  /** A window's metric, or the fallback for a missing window. */
  function WindowOrFallback(w: Option<WindowSnapshot>, fallback: string): (m: UsageMetric)
    ensures w.Some? ==> m == SnapshotMetric(w.value)
    ensures w.None? ==> m == UsageMetric(fallback, 0.0, NO_DATA)
  {
    match w
    case Some(snapshot) => SnapshotMetric(snapshot)
    case None => UsageMetric(fallback, 0.0, NO_DATA)
  }

  /** The model-specific metric: taken from the first additional limit only,
      and only when it has a rate limit with a primary window. */
  function ModelMetric(limits: Option<seq<AdditionalRateLimit>>, plan: string): (m: UsageMetric)
    ensures
      var first := if limits.Some? && |limits.value| > 0 then Some(limits.value[0]) else None;
      if first.Some? && first.value.rate_limit.Some? && first.value.rate_limit.value.primary_window.Some? then
        var pw := first.value.rate_limit.value.primary_window.value;
        m == UsageMetric(first.value.limit_name, pw.used_percent, FormatSeconds(pw.reset_after_seconds))
      else
        m == UsageMetric("Plan: " + plan, 0.0, NOT_AVAILABLE)
  {
    var fallback := UsageMetric("Plan: " + plan, 0.0, NOT_AVAILABLE);
    match limits
    case None => fallback
    case Some(ls) =>
      if |ls| == 0 then fallback
      else
        match ls[0].rate_limit
        case None => fallback
        case Some(rl) =>
          match rl.primary_window
          case None => fallback
          case Some(pw) => UsageMetric(ls[0].limit_name, pw.used_percent, FormatSeconds(pw.reset_after_seconds))
  }

  /** The credits: never a percentage, enabled with credits or when
      unlimited, and labelled "Unlimited" exactly when unlimited. */
  function CreditsExtra(credits: Option<Credits>, parse_f64: string -> Option<real>): (e: ExtraUsage)
    ensures e.percent_used == 0.0
    ensures credits.None? ==> e == ExtraUsage(0.0, 0.0, NOT_AVAILABLE, false)
    ensures credits.Some? ==> e.enabled == (credits.value.has_credits || credits.value.unlimited)
    ensures credits.Some? ==> (e.reset_date == UNLIMITED <==> credits.value.unlimited)
    ensures credits.Some? && !credits.value.unlimited ==> e.reset_date == NOT_AVAILABLE
    ensures credits.Some? ==> e.dollars_spent == parse_f64(credits.value.balance.GetOr("0")).GetOr(0.0)
  {
    match credits
    case Some(c) =>
      var balance := parse_f64(c.balance.GetOr("0")).GetOr(0.0);
      ExtraUsage(balance, 0.0, if c.unlimited then UNLIMITED else NOT_AVAILABLE, c.has_credits || c.unlimited)
    case None => ExtraUsage(0.0, 0.0, NOT_AVAILABLE, false)
  }

  /** `convert_payload`. */
  function ConvertPayload(payload: WhamUsageResponse, fetched_at: string, parse_f64: string -> Option<real>): (d: UsageData)
    ensures
      var primary := if payload.rate_limit.Some? then payload.rate_limit.value.primary_window else None;
      var reached := payload.rate_limit.Some? && payload.rate_limit.value.limit_reached;
      var base := WindowOrFallback(primary, SESSION_FALLBACK);
      d.session == base.(reset_info := if reached then LIMIT_REACHED_PREFIX + base.reset_info else base.reset_info)
    ensures
      var secondary := if payload.rate_limit.Some? then payload.rate_limit.value.secondary_window else None;
      d.weekly_all == WindowOrFallback(secondary, WEEKLY_FALLBACK)
    ensures d.weekly_sonnet == ModelMetric(payload.additional_rate_limits, payload.plan_type.GetOr("unknown"))
    ensures d.extra == CreditsExtra(payload.credits, parse_f64)
    ensures d.fetched_at == fetched_at
  {
    var plan := payload.plan_type.GetOr("unknown");
    var primary := match payload.rate_limit
      case Some(rl) => rl.primary_window
      case None => None;
    var session := WindowOrFallback(primary, SESSION_FALLBACK);
    var reached := match payload.rate_limit
      case Some(rl) => rl.limit_reached
      case None => false;
    var session := if reached then session.(reset_info := LIMIT_REACHED_PREFIX + session.reset_info) else session;
    var secondary := match payload.rate_limit
      case Some(rl) => rl.secondary_window
      case None => None;
    UsageData(
      session,
      WindowOrFallback(secondary, WEEKLY_FALLBACK),
      ModelMetric(payload.additional_rate_limits, plan),
      CreditsExtra(payload.credits, parse_f64),
      fetched_at)
  }

  /** Only the session descriptor is ever marked with the limit prefix; the
      weekly one is left alone, and a missing session window still gets the
      prefix in front of "No data". */
  lemma LimitReachedMarksSessionOnly(payload: WhamUsageResponse, fetched_at: string, parse_f64: string -> Option<real>)
    requires payload.rate_limit.Some? && payload.rate_limit.value.limit_reached
    ensures var d := ConvertPayload(payload, fetched_at, parse_f64);
      && LIMIT_REACHED_PREFIX <= d.session.reset_info
      && d.weekly_all == WindowOrFallback(payload.rate_limit.value.secondary_window, WEEKLY_FALLBACK)
      && (payload.rate_limit.value.primary_window.None? ==> d.session.reset_info == LIMIT_REACHED_PREFIX + NO_DATA)
  {
  }

  /** The descriptor of a reset `secs` seconds away that reads as `h` hours
      and `m` minutes (`HoursMinutes`), by that reference reading. */
  ghost function TimeLeftText(secs: int, h: nat, m: nat): string {
    if secs <= 0 then RESETS_SOON else if h > 0 then ResetsInHours(h, m) else ResetsInMinutes(m)
  }

  /** Every reading of `secs` as whole hours and minutes gives the
      descriptor `format_seconds` produces. */
  lemma TimeLeftAll(secs: I64)
    ensures forall h: nat, m: nat :: HoursMinutes(secs, h, m) ==> FormatSeconds(secs) == TimeLeftText(secs, h, m)
  {
    forall h: nat, m: nat | HoursMinutes(secs, h, m) ensures FormatSeconds(secs) == TimeLeftText(secs, h, m) {
      if secs > 0 {
        FormatSecondsShowsTimeLeft(secs, h, m);
      }
    }
  }

  /** The session metric of a payload with a primary window shows the
      window's length and percentage and the time left until its reset,
      behind the limit prefix exactly when the limit is reached. */
  lemma ConvertPayloadSession(payload: WhamUsageResponse, fetched_at: string, parse_f64: string -> Option<real>, h: nat, m: nat)
    requires payload.rate_limit.Some? && payload.rate_limit.value.primary_window.Some?
    requires var w := payload.rate_limit.value.primary_window.value;
      w.reset_after_seconds <= 0 || HoursMinutes(w.reset_after_seconds, h, m)
    ensures var w := payload.rate_limit.value.primary_window.value;
      var d := ConvertPayload(payload, fetched_at, parse_f64);
      var text := TimeLeftText(w.reset_after_seconds, h, m);
      && d.session.name == WindowLabel(w.limit_window_seconds)
      && d.session.percent_used == w.used_percent
      && d.session.reset_info == if payload.rate_limit.value.limit_reached then LIMIT_REACHED_PREFIX + text else text
  {
    var w := payload.rate_limit.value.primary_window.value;
    if w.reset_after_seconds > 0 {
      FormatSecondsShowsTimeLeft(w.reset_after_seconds, h, m);
    }
  }

  /** The weekly metric of a payload with a secondary window shows that
      window's length, percentage and time left, never behind the prefix. */
  lemma ConvertPayloadWeekly(payload: WhamUsageResponse, fetched_at: string, parse_f64: string -> Option<real>, h: nat, m: nat)
    requires payload.rate_limit.Some? && payload.rate_limit.value.secondary_window.Some?
    requires var w := payload.rate_limit.value.secondary_window.value;
      w.reset_after_seconds <= 0 || HoursMinutes(w.reset_after_seconds, h, m)
    ensures var w := payload.rate_limit.value.secondary_window.value;
      var d := ConvertPayload(payload, fetched_at, parse_f64);
      d.weekly_all == UsageMetric(WindowLabel(w.limit_window_seconds), w.used_percent, TimeLeftText(w.reset_after_seconds, h, m))
  {
    var w := payload.rate_limit.value.secondary_window.value;
    if w.reset_after_seconds > 0 {
      FormatSecondsShowsTimeLeft(w.reset_after_seconds, h, m);
    }
  }
}
