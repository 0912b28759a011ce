/** The threshold-crossing tracker (notifications.rs): a per-metric
    "already notified" flag decides whether a metric that is at or above the
    threshold fires a notification now. A metric fires when it reaches the
    threshold with its flag unset, which sets the flag; dropping back below
    the threshold clears it. Delivery of the notification is not modelled:
    the tracker returns what it decided to fire. */
module Notifications {
  import opened Usage
  import opened RustInt

  /** The `notified` map: metric key to "already notified for this
      excursion". A key that is absent counts as not notified. */
  type Notified = map<string, bool>

  predicate Armed(n: Notified, key: string) {
    key in n && n[key]
  }

  /** `NotificationState::new`. */
  function NewState(): (n: Notified)
    ensures forall key :: !Armed(n, key)
  {
    map[]
  }

  /** The four tracked metrics of a provider, in the order they are judged. */
  datatype Kind = Session | Weekly | Sonnet | Extra

  const KINDS: seq<Kind> := [Session, Weekly, Sonnet, Extra]

  function Suffix(k: Kind): string {
    match k
    case Session => "_session"
    case Weekly => "_weekly"
    case Sonnet => "_sonnet"
    case Extra => "_extra"
  }

  /** The metric key: "{provider}_session" and so on. */
  function Key(provider: string, k: Kind): string {
    provider + Suffix(k)
  }

  function KeysOf(provider: string): set<string> {
    {Key(provider, Session), Key(provider, Weekly), Key(provider, Sonnet), Key(provider, Extra)}
  }

  /** The four keys of one provider are distinct. */
  lemma KeysDistinct(provider: string, a: Kind, b: Kind)
    ensures Key(provider, a) == Key(provider, b) ==> a == b
  {
    if Key(provider, a) == Key(provider, b) {
      assert Key(provider, a)[|provider|..] == Suffix(a);
      assert Key(provider, b)[|provider|..] == Suffix(b);
    }
  }

  /** A metric as the tracker sees it. `name` is the source's `label`. */
  datatype Metric = Metric(key: string, name: string, percent: real, reset_info: string)

  /** The metric of kind `k`: the extra-usage metric is judged on its
      `percent_used` and reports its `reset_date`; the others report their
      `reset_info`. */
  function MetricOf(provider: string, data: UsageData, k: Kind): (m: Metric)
    ensures m.key == Key(provider, k)
    ensures k == Session ==> m.percent == data.session.percent_used && m.reset_info == data.session.reset_info
    ensures k == Weekly ==> m.percent == data.weekly_all.percent_used && m.reset_info == data.weekly_all.reset_info
    ensures k == Sonnet ==> m.percent == data.weekly_sonnet.percent_used && m.reset_info == data.weekly_sonnet.reset_info
    ensures k == Extra ==> m.percent == data.extra.percent_used && m.reset_info == data.extra.reset_date
  {
    match k
    case Session => Metric(Key(provider, k), provider + " session", data.session.percent_used, data.session.reset_info)
    case Weekly => Metric(Key(provider, k), provider + " weekly", data.weekly_all.percent_used, data.weekly_all.reset_info)
    case Sonnet => Metric(Key(provider, k), data.weekly_sonnet.name, data.weekly_sonnet.percent_used, data.weekly_sonnet.reset_info)
    case Extra => Metric(Key(provider, k), provider + " extra usage", data.extra.percent_used, data.extra.reset_date)
  }

  /** The provider's four metrics, one per kind, under pairwise distinct
      keys. */
  /** The four kinds' keys are pairwise distinct. */
  lemma KindsDistinct(provider: string)
    ensures forall i, j :: 0 <= i < j < 4 ==> Key(provider, KINDS[i]) != Key(provider, KINDS[j])
  {
    forall i, j | 0 <= i < j < 4 ensures Key(provider, KINDS[i]) != Key(provider, KINDS[j]) {
      KeysDistinct(provider, KINDS[i], KINDS[j]);
    }
  }

  function Metrics(provider: string, data: UsageData): (ms: seq<Metric>)
    ensures |ms| == 4
    ensures forall i :: 0 <= i < 4 ==> ms[i] == MetricOf(provider, data, KINDS[i])
    ensures forall i :: 0 <= i < 4 ==> ms[i].key == Key(provider, KINDS[i])
    ensures DistinctKeys(ms)
  {
    KindsDistinct(provider);
    [MetricOf(provider, data, Session), MetricOf(provider, data, Weekly),
     MetricOf(provider, data, Sonnet), MetricOf(provider, data, Extra)]
  }

  /** A decision to notify: the notification's title is made from `name`
      and `percent`, its body is `body`. */
  datatype Fire = Fire(key: string, name: string, percent: real, body: string)

  datatype Outcome = Outcome(notified: Notified, fired: seq<Fire>)

  /** How many of `fired` are for `key`. */
  function CountKey(fired: seq<Fire>, key: string): nat
    decreases |fired|
  {
    if |fired| == 0 then 0
    else (if fired[0].key == key then 1 else 0) + CountKey(fired[1..], key)
  }

  lemma {:induction false} CountKeyAppend(a: seq<Fire>, b: seq<Fire>, key: string)
    ensures CountKey(a + b, key) == CountKey(a, key) + CountKey(b, key)
    decreases |a|
  {
    if |a| > 0 {
      assert (a + b)[1..] == a[1..] + b;
      CountKeyAppend(a[1..], b, key);
    } else {
      assert a + b == b;
    }
  }

  /** Entries other than `key` are the same in both maps. */
  ghost predicate SameExcept(n: Notified, n': Notified, key: string) {
    forall other :: other != key ==> (other in n' <==> other in n) && (other in n ==> n'[other] == n[other])
  }

  /** One metric against the threshold: fire exactly when it is at or above
      the threshold and not yet notified; afterwards its flag says whether
      it is at or above the threshold; nothing else changes. */
  function Judge(m: Metric, threshold: real, n: Notified): (o: Outcome)
    ensures o.fired == if m.percent >= threshold && !Armed(n, m.key)
                       then [Fire(m.key, m.name, m.percent, m.reset_info)] else []
    ensures Armed(o.notified, m.key) <==> m.percent >= threshold
    ensures m.percent >= threshold && Armed(n, m.key) ==> o.notified == n
    ensures m.percent < threshold && !Armed(n, m.key) ==> o.notified == n
    ensures SameExcept(n, o.notified, m.key)
  {
    var was_notified := Armed(n, m.key);
    if m.percent >= threshold && !was_notified then
      Outcome(n[m.key := true], [Fire(m.key, m.name, m.percent, m.reset_info)])
    else if m.percent < threshold && was_notified then
      Outcome(n[m.key := false], [])
    else
      Outcome(n, [])
  }

  /** The metrics judged one after another, as the loop over `metrics` does. */
  function JudgeAll(ms: seq<Metric>, threshold: real, n: Notified): (o: Outcome)
    ensures |o.fired| <= |ms|
    ensures forall j :: 0 <= j < |o.fired| ==> o.fired[j].percent >= threshold
    decreases |ms|
  {
    if |ms| == 0 then Outcome(n, [])
    else
      var first := Judge(ms[0], threshold, n);
      var rest := JudgeAll(ms[1..], threshold, first.notified);
      Outcome(rest.notified, first.fired + rest.fired)
  }

  ghost predicate DistinctKeys(ms: seq<Metric>) {
    forall i, j :: 0 <= i < j < |ms| ==> ms[i].key != ms[j].key
  }

  /** With distinct keys, a metric's key ends up flagged exactly when that
      metric is at or above the threshold and fires at most once; a key no
      metric has is left alone and never fires. */
  lemma {:induction false} JudgeAllKey(ms: seq<Metric>, threshold: real, n: Notified, key: string)
    requires DistinctKeys(ms)
    ensures var o := JudgeAll(ms, threshold, n);
      forall i :: 0 <= i < |ms| && ms[i].key == key ==>
        && (Armed(o.notified, key) <==> ms[i].percent >= threshold)
        && CountKey(o.fired, key) == if ms[i].percent >= threshold && !Armed(n, key) then 1 else 0
    ensures var o := JudgeAll(ms, threshold, n);
      (forall i :: 0 <= i < |ms| ==> ms[i].key != key) ==>
        && (key in o.notified <==> key in n)
        && (key in n ==> o.notified[key] == n[key])
        && CountKey(o.fired, key) == 0
    decreases |ms|
  {
    if |ms| > 0 {
      var first := Judge(ms[0], threshold, n);
      var rest := JudgeAll(ms[1..], threshold, first.notified);
      assert DistinctKeys(ms[1..]);
      JudgeAllKey(ms[1..], threshold, first.notified, key);
      CountKeyAppend(first.fired, rest.fired, key);
      if ms[0].key == key {
        assert forall i :: 0 <= i < |ms[1..]| ==> ms[1..][i].key != key;
      } else {
        forall i | 0 <= i < |ms| && ms[i].key == key
          ensures ms[1..][i - 1] == ms[i]
        {
        }
        if forall i :: 0 <= i < |ms| ==> ms[i].key != key {
          assert forall i :: 0 <= i < |ms[1..]| ==> ms[1..][i].key != key;
        }
      }
    }
  }

  /** `check_and_notify`: when notifications are disabled or the threshold
      is 0 nothing fires and the map is left exactly as it was; otherwise
      each of the provider's four metrics is judged against the threshold. */
  function CheckAndNotify(provider: string, data: UsageData, threshold: U32, enabled: bool, n: Notified): (o: Outcome)
    ensures !enabled || threshold == 0 ==> o == Outcome(n, [])
    ensures forall key :: key !in KeysOf(provider) ==>
      (key in o.notified <==> key in n) && (key in n ==> o.notified[key] == n[key])
    ensures forall key :: key !in KeysOf(provider) ==> CountKey(o.fired, key) == 0
    ensures |o.fired| <= 4
    ensures forall j :: 0 <= j < |o.fired| ==> o.fired[j].percent >= threshold as real
  {
    if !enabled || threshold == 0 then Outcome(n, [])
    else
      var ms := Metrics(provider, data);
      assert DistinctKeys(ms) by {
        forall i, j | 0 <= i < j < 4 ensures ms[i].key != ms[j].key {
          KeysDistinct(provider, KINDS[i], KINDS[j]);
        }
      }
      var o := JudgeAll(ms, threshold as real, n);
      forall key | key !in KeysOf(provider)
        ensures (key in o.notified <==> key in n) && (key in n ==> o.notified[key] == n[key])
        ensures CountKey(o.fired, key) == 0
      {
        JudgeAllKey(ms, threshold as real, n, key);
      }
      o
  }

  /** The percentage the tracker judges for metric kind `k`. */
  function PercentOf(data: UsageData, k: Kind): real {
    MetricOf("", data, k).percent
  }

  /** With notifications on, each of the provider's metrics fires at most
      once per call (exactly when it is at or above the threshold and was not
      yet notified), and afterwards its flag says whether it is at or above
      the threshold. */
  lemma CheckAndNotifyMetric(provider: string, data: UsageData, threshold: U32, n: Notified, k: Kind)
    requires threshold > 0
    ensures var o := CheckAndNotify(provider, data, threshold, true, n);
      && (Armed(o.notified, Key(provider, k)) <==> PercentOf(data, k) >= threshold as real)
      && CountKey(o.fired, Key(provider, k)) ==
           if PercentOf(data, k) >= threshold as real && !Armed(n, Key(provider, k)) then 1 else 0
  {
    var ms := Metrics(provider, data);
    assert DistinctKeys(ms) by {
      forall i, j | 0 <= i < j < 4 ensures ms[i].key != ms[j].key {
        KeysDistinct(provider, KINDS[i], KINDS[j]);
      }
    }
    JudgeAllKey(ms, threshold as real, n, Key(provider, k));
    var i := match k case Session => 0 case Weekly => 1 case Sonnet => 2 case Extra => 3;
    assert ms[i].key == Key(provider, k);
  }

  // ----- over successive fetches -----

  /** `check_and_notify` after each of a series of fetches of one provider,
      with fixed settings. */
  function Run(provider: string, datas: seq<UsageData>, threshold: U32, enabled: bool, n: Notified): (o: Outcome)
    ensures |o.fired| <= 4 * |datas|
    ensures forall j :: 0 <= j < |o.fired| ==> o.fired[j].percent >= threshold as real
    ensures !enabled || threshold == 0 ==> o.fired == []
    decreases |datas|
  {
    if |datas| == 0 then Outcome(n, [])
    else
      var first := CheckAndNotify(provider, datas[0], threshold, enabled, n);
      var rest := Run(provider, datas[1..], threshold, enabled, first.notified);
      Outcome(rest.notified, first.fired + rest.fired)
  }

  /** The reference count: how many times a series of percentages goes from
      below the threshold to at or above it, where `above` says whether the
      value before the first one counts as at or above. */
  function Crossings(ps: seq<real>, threshold: real, above: bool): nat
    decreases |ps|
  {
    if |ps| == 0 then 0
    else (if ps[0] >= threshold && !above then 1 else 0) + Crossings(ps[1..], threshold, ps[0] >= threshold)
  }

  function Percents(datas: seq<UsageData>, k: Kind): (ps: seq<real>)
    ensures |ps| == |datas|
    ensures forall i :: 0 <= i < |datas| ==> ps[i] == PercentOf(datas[i], k)
  {
    seq(|datas|, i requires 0 <= i < |datas| => PercentOf(datas[i], k))
  }

  /** One notification per excursion: over any series of fetches, a metric
      fires exactly as many times as its percentage crosses from below the
      threshold to at or above it, a metric whose key starts unflagged
      counting as below. */
  lemma {:induction false} FiresOncePerCrossing(provider: string, datas: seq<UsageData>, threshold: U32, n: Notified, k: Kind)
    requires threshold > 0
    ensures CountKey(Run(provider, datas, threshold, true, n).fired, Key(provider, k))
            == Crossings(Percents(datas, k), threshold as real, Armed(n, Key(provider, k)))
    decreases |datas|
  {
    if |datas| > 0 {
      var key := Key(provider, k);
      var first := CheckAndNotify(provider, datas[0], threshold, true, n);
      var rest := Run(provider, datas[1..], threshold, true, first.notified);
      CheckAndNotifyMetric(provider, datas[0], threshold, n, k);
      FiresOncePerCrossing(provider, datas[1..], threshold, first.notified, k);
      CountKeyAppend(first.fired, rest.fired, key);
      assert Percents(datas, k)[1..] == Percents(datas[1..], k);
    }
  }

  /** The series [60, 75, 82, 91, 70, 85] against 80 crosses twice: at 82
      and at 85, not at 91 (already notified) nor at 70 (clears the flag). */
  lemma CrossingsExample(provider: string, datas: seq<UsageData>, k: Kind)
    requires Percents(datas, k) == [60.0, 75.0, 82.0, 91.0, 70.0, 85.0]
    ensures CountKey(Run(provider, datas, 80, true, map[]).fired, Key(provider, k)) == 2
  {
    FiresOncePerCrossing(provider, datas, 80, map[], k);
    assert !Armed(map[], Key(provider, k));
    assert Crossings([60.0, 75.0, 82.0, 91.0, 70.0, 85.0], 80.0, false) == 2;
  }

  /** With notifications off, or a threshold of 0, no series of fetches
      fires anything and the map stays exactly as it was. */
  lemma {:induction false} DisabledFreezes(provider: string, datas: seq<UsageData>, threshold: U32, enabled: bool, n: Notified)
    requires !enabled || threshold == 0
    ensures Run(provider, datas, threshold, enabled, n) == Outcome(n, [])
    decreases |datas|
  {
    if |datas| > 0 {
      DisabledFreezes(provider, datas[1..], threshold, enabled, n);
    }
  }

  /** A Claude window the response lacks reads as 0%, so its metric can
      never fire, whatever the threshold. */
  lemma MissingClaudeWindowNeverFires(api: ApiResponse, fetched_at: string, threshold: U32, enabled: bool, n: Notified)
    requires api.five_hour.None?
    ensures CountKey(CheckAndNotify("Claude", FromApiResponse(api, fetched_at), threshold, enabled, n).fired,
                     Key("Claude", Session)) == 0
  {
    if enabled && threshold > 0 {
      CheckAndNotifyMetric("Claude", FromApiResponse(api, fetched_at), threshold, n, Session);
    }
  }
}
