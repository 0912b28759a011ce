/** The usage snapshot shared by every provider and the mapping of the
    Claude usage endpoint's decoded response onto it (usage_fetcher.rs).

    The HTTP request, its status handling and the JSON decoding are not
    modelled: the mapping starts from the decoded response. The fetch time
    is an input, and so is the signed number of whole seconds from "now" to
    each reset time, precomputed from its RFC 3339 text (absent when the
    text does not parse). Floating-point values are Dafny `real`s. */
module Usage {
  import opened Wrappers
  import opened Text
  import opened RustInt

  // ----- the snapshot handed to the front end and the crossing tracker -----

  /** One metric; `name` is the source's `label` field (`label` is a Dafny
      keyword). */
  datatype UsageMetric = UsageMetric(name: string, percent_used: real, reset_info: string)

  datatype ExtraUsage = ExtraUsage(
    dollars_spent: real,
    percent_used: real,
    reset_date: string,
    enabled: bool)

  datatype UsageData = UsageData(
    session: UsageMetric,
    weekly_all: UsageMetric,
    weekly_sonnet: UsageMetric,
    extra: ExtraUsage,
    fetched_at: string)

  // ----- reset descriptors, shared with the Codex mapping -----

  const RESETS_SOON := "Resets soon"
  const NO_DATA := "No data"
  const NOT_AVAILABLE := "---"

  /** "Resets in {h}h {m}m". */
  function ResetsInHours(h: int, m: int): string {
    "Resets in " + IntToString(h) + "h " + IntToString(m) + "m"
  }

  /** "Resets in {m}m". */
  function ResetsInMinutes(m: int): string {
    "Resets in " + IntToString(m) + "m"
  }

  /** The reading of a non-negative number of seconds as whole hours `h`
      and left-over whole minutes `m`. */
  ghost predicate HoursMinutes(secs: int, h: nat, m: nat) {
    m < 60 && h * 3600 + m * 60 <= secs < h * 3600 + m * 60 + 60
  }

  /** The number of whole hours and minutes in a non-negative count of
      seconds, computed the way Rust's `/` and `%` do. */
  lemma HoursMinutesArithmetic(secs: int, h: nat, m: nat)
    requires HoursMinutes(secs, h, m)
    ensures TruncDiv(secs, 3600) == h
    ensures TruncDiv(secs, 60) == h * 60 + m
    ensures TruncRem(TruncDiv(secs, 60), 60) == m
    ensures TruncRem(secs, 3600) / 60 == m
  {
    DivUnique(secs, 3600, h);
    DivUnique(secs, 60, h * 60 + m);
    DivUnique(h * 60 + m, 60, h);
    DivUnique(secs - h * 3600, 60, m);
  }

  // ----- the Claude response -----

  /** A reset time: its raw text and, when that text is a valid RFC 3339
      timestamp, the signed whole seconds from now until it. */
  datatype ResetStamp = ResetStamp(raw: string, seconds_until: Option<int>)

  datatype WindowUsage = WindowUsage(utilization: Option<real>, resets_at: Option<ResetStamp>)

  datatype ApiExtraUsage = ApiExtraUsage(
    is_enabled: Option<bool>,
    monthly_limit: Option<real>,
    used_credits: Option<real>,
    utilization: Option<real>)

  datatype ApiResponse = ApiResponse(
    five_hour: Option<WindowUsage>,
    seven_day: Option<WindowUsage>,
    seven_day_sonnet: Option<WindowUsage>,
    extra_usage: Option<ApiExtraUsage>)

  /** `format_reset`: "---" without a reset time, the raw text when it does
      not parse, and otherwise the whole hours and minutes left (chrono's
      `num_hours` and `num_minutes` round toward zero). */
  function FormatReset(resets_at: Option<ResetStamp>): (r: string)
    ensures resets_at.None? ==> r == NOT_AVAILABLE
    ensures resets_at.Some? && resets_at.value.seconds_until.None? ==> r == resets_at.value.raw
  {
    match resets_at
    case None => NOT_AVAILABLE
    case Some(stamp) =>
      match stamp.seconds_until
      case None => stamp.raw
      case Some(diff) =>
        var hours := TruncDiv(diff, 3600);
        var mins := TruncRem(TruncDiv(diff, 60), 60);
        if hours > 0 then ResetsInHours(hours, mins)
        else if mins > 0 then ResetsInMinutes(mins)
        else RESETS_SOON
  }

  /** For a parsed reset time `secs` seconds away that reads as `h` hours
      and `m` minutes, the descriptor shows both when there is a whole
      hour, only the minutes when there is a whole minute, and otherwise
      says "Resets soon". */
  lemma FormatResetShowsTimeLeft(raw: string, secs: int, h: nat, m: nat)
    requires HoursMinutes(secs, h, m)
    ensures FormatReset(Some(ResetStamp(raw, Some(secs)))) ==
      if h > 0 then ResetsInHours(h, m)
      else if m > 0 then ResetsInMinutes(m)
      else RESETS_SOON
  {
    HoursMinutesArithmetic(secs, h, m);
  }

  /** A reset time less than a minute ahead, or already past, reads
      "Resets soon". */
  lemma FormatResetPastIsSoon(raw: string, secs: int)
    requires secs < 60
    ensures FormatReset(Some(ResetStamp(raw, Some(secs)))) == RESETS_SOON
  {
    if secs >= 0 {
      FormatResetShowsTimeLeft(raw, secs, 0, 0);
    } else {
      assert TruncDiv(secs, 3600) <= 0;
      assert TruncRem(TruncDiv(secs, 60), 60) <= 0;
    }
  }

  /** One window's metric: an absent window reads as 0% with "No data". */
  function WindowMetric(name: string, w: Option<WindowUsage>): (m: UsageMetric)
    ensures m.name == name
    ensures w.None? ==> m.percent_used == 0.0 && m.reset_info == NO_DATA
    ensures w.Some? ==> m.percent_used == w.value.utilization.GetOr(0.0)
    ensures w.Some? ==> m.reset_info == FormatReset(w.value.resets_at)
  {
    match w
    case Some(window) => UsageMetric(name, window.utilization.GetOr(0.0), FormatReset(window.resets_at))
    case None => UsageMetric(name, 0.0, NO_DATA)
  }

  /** The extra-usage percentage: the reported utilization if there is one,
      otherwise credits used as a share of the monthly limit, or 0 without
      a positive limit. */
  function ExtraPercent(eu: ApiExtraUsage): (p: real)
    ensures eu.utilization.Some? ==> p == eu.utilization.value
    ensures eu.utilization.None? && eu.monthly_limit.GetOr(0.0) > 0.0 ==>
      p * eu.monthly_limit.GetOr(0.0) == eu.used_credits.GetOr(0.0) * 100.0
    ensures eu.utilization.None? && eu.monthly_limit.GetOr(0.0) <= 0.0 ==> p == 0.0
  {
    var used := eu.used_credits.GetOr(0.0);
    var limit := eu.monthly_limit.GetOr(0.0);
    eu.utilization.GetOr(if limit > 0.0 then (used / limit) * 100.0 else 0.0)
  }

  const SESSION_LABEL := "Current session"
  const WEEKLY_LABEL := "All models"
  const SONNET_LABEL := "Sonnet only"

  /** The response mapping inside `fetch_usage`. */
  function FromApiResponse(api: ApiResponse, fetched_at: string): (d: UsageData)
    ensures d.session.name == SESSION_LABEL
    ensures d.weekly_all.name == WEEKLY_LABEL
    ensures d.weekly_sonnet.name == SONNET_LABEL
    ensures api.five_hour.None? ==> d.session.percent_used == 0.0 && d.session.reset_info == NO_DATA
    ensures api.seven_day.None? ==> d.weekly_all.percent_used == 0.0 && d.weekly_all.reset_info == NO_DATA
    ensures api.seven_day_sonnet.None? ==> d.weekly_sonnet.percent_used == 0.0 && d.weekly_sonnet.reset_info == NO_DATA
    ensures api.five_hour.Some? ==>
      && d.session.percent_used == api.five_hour.value.utilization.GetOr(0.0)
      && d.session.reset_info == FormatReset(api.five_hour.value.resets_at)
    ensures api.seven_day.Some? ==>
      && d.weekly_all.percent_used == api.seven_day.value.utilization.GetOr(0.0)
      && d.weekly_all.reset_info == FormatReset(api.seven_day.value.resets_at)
    ensures api.seven_day_sonnet.Some? ==>
      && d.weekly_sonnet.percent_used == api.seven_day_sonnet.value.utilization.GetOr(0.0)
      && d.weekly_sonnet.reset_info == FormatReset(api.seven_day_sonnet.value.resets_at)
    ensures api.extra_usage.None? ==> d.extra == ExtraUsage(0.0, 0.0, NOT_AVAILABLE, false)
    ensures api.extra_usage.Some? ==>
      && d.extra.reset_date == "Monthly"
      && d.extra.enabled == api.extra_usage.value.is_enabled.GetOr(false)
      && d.extra.dollars_spent == api.extra_usage.value.used_credits.GetOr(0.0)
      && d.extra.percent_used == ExtraPercent(api.extra_usage.value)
    ensures d.fetched_at == fetched_at
  {
    var extra := match api.extra_usage
      case Some(eu) => ExtraUsage(eu.used_credits.GetOr(0.0), ExtraPercent(eu), "Monthly", eu.is_enabled.GetOr(false))
      case None => ExtraUsage(0.0, 0.0, NOT_AVAILABLE, false);
    UsageData(
      WindowMetric(SESSION_LABEL, api.five_hour),
      WindowMetric(WEEKLY_LABEL, api.seven_day),
      WindowMetric(SONNET_LABEL, api.seven_day_sonnet),
      extra,
      fetched_at)
  }
}
