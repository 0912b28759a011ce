/** The tray's context menu (lib.rs): the item ids, the check states of
    the check items as the setup builds them from the settings and as each
    click puts them right again, and the decoding of a clicked id into the
    action the menu handler takes.

    The menu is modelled by the check state of its check items, keyed by
    item id. Labels, separators and the native menu objects are not
    modelled. Whether looking an item up by id finds the items inside the
    two submenus is a parameter (`Lookup`). */
module Menu {
  import opened Wrappers
  import opened Text
  import opened RustInt
  import opened SettingsStore

  const SHOW_HIDE := "show_hide"
  const REFRESH_NOW := "refresh_now"
  const QUIT := "quit"
  const START_LOGIN := "start_login"
  const INTERVAL_PREFIX := "interval_"
  const NOTIFY_PREFIX := "notify_"

  /** The refresh intervals offered, in seconds. */
  const INTERVALS: seq<nat> := [60, 120, 300, 600, 900]
  /** The notification thresholds offered, in percent; 0 is "Off". */
  const THRESHOLDS: seq<nat> := [70, 80, 90, 95, 0]

  function IntervalId(secs: nat): string {
    INTERVAL_PREFIX + NatToString(secs)
  }

  function NotifyId(pct: nat): string {
    NOTIFY_PREFIX + NatToString(pct)
  }

  /** Different values give different ids. */
  lemma IdsInjective(prefix: string, a: nat, b: nat)
    ensures prefix + NatToString(a) == prefix + NatToString(b) ==> a == b
  {
    if prefix + NatToString(a) == prefix + NatToString(b) {
      assert NatToString(a) == (prefix + NatToString(a))[|prefix|..];
      assert NatToString(b) == (prefix + NatToString(b))[|prefix|..];
      NatToStringInjective(a, b);
    }
  }

  /** No threshold id or the start-at-login id starts with the interval
      prefix, and no interval id or the start-at-login id starts with the
      threshold prefix. */
  lemma FamiliesApart(a: nat, b: nat)
    ensures !(INTERVAL_PREFIX <= NotifyId(b)) && !(INTERVAL_PREFIX <= START_LOGIN)
    ensures !(NOTIFY_PREFIX <= IntervalId(a)) && !(NOTIFY_PREFIX <= START_LOGIN)
  {
    assert NotifyId(b)[0] != INTERVAL_PREFIX[0];
    assert START_LOGIN[0] != INTERVAL_PREFIX[0];
    assert IntervalId(a)[0] != NOTIFY_PREFIX[0];
    assert START_LOGIN[0] != NOTIFY_PREFIX[0];
  }

  // ----- check items -----

  /** The two radio groups: the refresh interval and the notification
      threshold submenus. */
  datatype Group = IntervalGroup | NotifyGroup

  /** A check item: a radio item of a group for a value, or the
      start-at-login toggle. */
  datatype CheckItem = Radio(group: Group, value: nat) | StartLoginItem

  /** The id the item is created with and looked up by. */
  function ItemId(item: CheckItem): string {
    match item
    case Radio(IntervalGroup, v) => IntervalId(v)
    case Radio(NotifyGroup, v) => NotifyId(v)
    case StartLoginItem => START_LOGIN
  }

  /** Looking an item up by its id finds that item and no other. */
  lemma ItemIdInjective(a: CheckItem, b: CheckItem)
    ensures ItemId(a) == ItemId(b) ==> a == b
  {
    var x := if a.Radio? then a.value else 0;
    var y := if b.Radio? then b.value else 0;
    FamiliesApart(x, y);
    FamiliesApart(y, x);
    assert INTERVAL_PREFIX <= IntervalId(x) && INTERVAL_PREFIX <= IntervalId(y);
    assert NOTIFY_PREFIX <= NotifyId(x) && NOTIFY_PREFIX <= NotifyId(y);
    IdsInjective(INTERVAL_PREFIX, x, y);
    IdsInjective(NOTIFY_PREFIX, x, y);
  }

  /** The values offered in a group. */
  function Offered(g: Group): seq<nat> {
    match g
    case IntervalGroup => INTERVALS
    case NotifyGroup => THRESHOLDS
  }

  /** The check state of the menu's check items. */
  type Checks = map<CheckItem, bool>

  /** Whether the threshold item for `pct` shows as checked: "Off" exactly
      when notifications are disabled, any other exactly when notifications
      are enabled at that threshold. */
  predicate ThresholdChecked(s: Settings, pct: nat) {
    if pct == 0 then !s.notifications_enabled else s.notifications_enabled && pct == s.notify_threshold
  }

  /** Whether `item` shows as checked for settings `s`. */
  predicate Expected(s: Settings, item: CheckItem) {
    match item
    case Radio(IntervalGroup, v) => v == s.refresh_interval_secs
    case Radio(NotifyGroup, v) => ThresholdChecked(s, v)
    case StartLoginItem => s.start_at_login
  }

  /** The menu's check items. */
  predicate IsMenuItem(item: CheckItem) {
    item.Radio? ==> item.value in Offered(item.group)
  }

  /** The check items show `s`: exactly the menu's items, the interval
      checked exactly when it is the refresh interval, the threshold items
      as `ThresholdChecked` says, and the start-at-login item exactly when
      starting at login is on. */
  ghost predicate Reflects(m: Checks, s: Settings) {
    && (forall item :: item in m <==> IsMenuItem(item))
    && (forall item :: item in m ==> m[item] == Expected(s, item))
  }

  /** `set_checked(expected(v))` on the item of group `g` for each `v` in
      turn; the loops that build and that reconcile the radio groups. */
  function Mark(m: Checks, g: Group, vs: seq<nat>, expected: nat -> bool): (r: Checks)
    ensures forall item :: item in r <==> item in m || (item.Radio? && item.group == g && item.value in vs)
    ensures forall item :: item in m && !(item.Radio? && item.group == g && item.value in vs) ==> r[item] == m[item]
    decreases |vs|
  {
    if |vs| == 0 then m
    else Mark(m[Radio(g, vs[0]) := expected(vs[0])], g, vs[1..], expected)
  }

  /** Marking leaves the item for each listed value in its expected state. */
  lemma {:induction false} MarkValue(m: Checks, g: Group, vs: seq<nat>, expected: nat -> bool, v: nat)
    requires v in vs
    ensures Mark(m, g, vs, expected)[Radio(g, v)] == expected(v)
    decreases |vs|
  {
    if v in vs[1..] {
      MarkValue(m[Radio(g, vs[0]) := expected(vs[0])], g, vs[1..], expected, v);
    }
  }

  /** The initial check of an interval item: whether it is the stored
      interval. */
  function ByInterval(secs: nat): nat -> bool {
    (v: nat) => v == secs
  }

  /** The initial check of a threshold item. */
  function BySettings(s: Settings): nat -> bool {
    (v: nat) => ThresholdChecked(s, v)
  }

  /** The check items as the setup builds them from the loaded settings. */
  function Initial(s: Settings): (r: Checks)
    ensures forall item :: item in r <==> IsMenuItem(item)
    ensures StartLoginItem in r && r[StartLoginItem] == s.start_at_login
  {
    BuiltItems(s);
    Build(s)
  }

  /** The loops that build the check items, in the order the setup runs
      them. */
  function Build(s: Settings): Checks {
    var logins := map[StartLoginItem := s.start_at_login];
    var intervals := Mark(logins, IntervalGroup, INTERVALS, ByInterval(s.refresh_interval_secs));
    Mark(intervals, NotifyGroup, THRESHOLDS, BySettings(s))
  }

  lemma BuiltItems(s: Settings)
    ensures forall item :: item in Build(s) <==> IsMenuItem(item)
    ensures StartLoginItem in Build(s) && Build(s)[StartLoginItem] == s.start_at_login
  {
    var logins := map[StartLoginItem := s.start_at_login];
    var intervals := Mark(logins, IntervalGroup, INTERVALS, ByInterval(s.refresh_interval_secs));
    forall item ensures item in Build(s) <==> IsMenuItem(item) {
      assert item in intervals <==> item == StartLoginItem || (item.Radio? && item.group == IntervalGroup && item.value in INTERVALS);
    }
    BuiltLogin(s, intervals);
  }

  lemma BuiltLogin(s: Settings, intervals: Checks)
    requires intervals == Mark(map[StartLoginItem := s.start_at_login], IntervalGroup, INTERVALS, ByInterval(s.refresh_interval_secs))
    ensures StartLoginItem in Build(s) && Build(s)[StartLoginItem] == s.start_at_login
  {
    assert StartLoginItem in intervals && intervals[StartLoginItem] == s.start_at_login;
  }

  lemma InitialChecks(s: Settings, item: CheckItem)
    requires item in Initial(s)
    ensures Initial(s)[item] == Expected(s, item)
  {
    var logins := map[StartLoginItem := s.start_at_login];
    var intervals := Mark(logins, IntervalGroup, INTERVALS, ByInterval(s.refresh_interval_secs));
    if item.Radio? && item.group == IntervalGroup {
      MarkValue(logins, IntervalGroup, INTERVALS, ByInterval(s.refresh_interval_secs), item.value);
    } else if item.Radio? {
      MarkValue(intervals, NotifyGroup, THRESHOLDS, BySettings(s), item.value);
    }
  }

  /** The menu the setup builds shows the loaded settings. */
  lemma InitialReflects(s: Settings)
    ensures Reflects(Initial(s), s)
  {
    forall item | item in Initial(s) ensures Initial(s)[item] == Expected(s, item) {
      InitialChecks(s, item);
    }
  }

  /** Two menus that both show the same settings are the same menu. */
  lemma ReflectsUnique(m: Checks, m': Checks, s: Settings)
    requires Reflects(m, s) && Reflects(m', s)
    ensures m == m'
  {
  }

  /** In each radio group at most one item is checked. */
  lemma RadioGroups(m: Checks, s: Settings, g: Group, a: nat, b: nat)
    requires Reflects(m, s)
    requires Radio(g, a) in m && Radio(g, b) in m
    ensures m[Radio(g, a)] && m[Radio(g, b)] ==> a == b
  {
  }

  // ----- reconciling after a click -----

  /** Every listed item of the group holds its expected check. */
  lemma MarkAll(m: Checks, g: Group, vs: seq<nat>, expected: nat -> bool)
    ensures forall v :: v in vs ==> Radio(g, v) in Mark(m, g, vs, expected) && Mark(m, g, vs, expected)[Radio(g, v)] == expected(v)
  {
    forall v | v in vs ensures Radio(g, v) in Mark(m, g, vs, expected) && Mark(m, g, vs, expected)[Radio(g, v)] == expected(v) {
      MarkValue(m, g, vs, expected, v);
    }
  }

  /** Which items `Menu::get` finds by id: every item, those of the two
      submenus included, or only the menu's own items (the start-at-login
      checkbox but no radio item). */
  datatype Lookup = ThroughSubmenus | TopLevelOnly

  /** A check item's own reaction to a click: its mark flips. */
  function NativeToggle(m: Checks, item: CheckItem): (r: Checks)
    ensures r.Keys == m.Keys
    ensures item in m ==> r[item] == !m[item]
    ensures forall other :: other in m && other != item ==> r[other] == m[other]
  {
    if item in m then m[item := !m[item]] else m
  }

  /** The interval group after choosing `secs`: the chosen interval
      checked, every other offered interval unchecked, every item outside
      the group as it was. */
  function AfterInterval(m: Checks, secs: nat): (r: Checks)
    ensures forall v :: v in INTERVALS ==> Radio(IntervalGroup, v) in r && r[Radio(IntervalGroup, v)] == (v == secs)
    ensures forall item :: item in r <==> item in m || (item.Radio? && item.group == IntervalGroup && item.value in INTERVALS)
    ensures forall item :: item in m && !(item.Radio? && item.group == IntervalGroup) ==> r[item] == m[item]
  {
    MarkAll(m, IntervalGroup, INTERVALS, ByInterval(secs));
    Mark(m, IntervalGroup, INTERVALS, ByInterval(secs))
  }

  /** The check of a threshold item after choosing `pct` (0 for "Off"). */
  function ByChoice(pct: nat): nat -> bool {
    (v: nat) => if v == 0 then pct == 0 else pct != 0 && v == pct
  }

  /** The threshold group after choosing `pct`: "Off" checked exactly
      when `pct` is 0, any other offered threshold exactly when it is
      `pct`, every item outside the group as it was. */
  function AfterThreshold(m: Checks, pct: nat): (r: Checks)
    ensures forall v :: v in THRESHOLDS ==>
      && Radio(NotifyGroup, v) in r
      && r[Radio(NotifyGroup, v)] == (if v == 0 then pct == 0 else pct != 0 && v == pct)
    ensures forall item :: item in r <==> item in m || (item.Radio? && item.group == NotifyGroup && item.value in THRESHOLDS)
    ensures forall item :: item in m && !(item.Radio? && item.group == NotifyGroup) ==> r[item] == m[item]
  {
    MarkAll(m, NotifyGroup, THRESHOLDS, ByChoice(pct));
    Mark(m, NotifyGroup, THRESHOLDS, ByChoice(pct))
  }

  /** The start-at-login item after it was set to `on`; no other item
      changes. */
  function AfterStartLogin(m: Checks, on: bool): (r: Checks)
    ensures StartLoginItem in r && r[StartLoginItem] == on
    ensures r.Keys == m.Keys + {StartLoginItem}
    ensures forall item :: item in m && item != StartLoginItem ==> r[item] == m[item]
  {
    m[StartLoginItem := on]
  }

  /** Reconciling the interval group after storing the chosen interval
      keeps the menu showing the settings. */
  lemma AfterIntervalReflects(m: Checks, s: Settings, secs: U64)
    requires Reflects(m, s)
    ensures Reflects(AfterInterval(m, secs), s.(refresh_interval_secs := secs))
  {
    var r := AfterInterval(m, secs);
    var s' := s.(refresh_interval_secs := secs);
    MarkKeepsItems(m, IntervalGroup, ByInterval(secs));
    forall item | item in r ensures r[item] == Expected(s', item) {
      if item.Radio? && item.group == IntervalGroup {
        MarkValue(m, IntervalGroup, INTERVALS, ByInterval(secs), item.value);
      } else {
        assert r[item] == m[item];
      }
    }
  }

  /** Re-marking a group of a menu keeps exactly the menu's items. */
  lemma MarkKeepsItems(m: Checks, g: Group, expected: nat -> bool)
    requires forall item :: item in m <==> IsMenuItem(item)
    ensures forall item :: item in Mark(m, g, Offered(g), expected) <==> IsMenuItem(item)
  {
  }

  /** The settings after choosing threshold `pct`: "Off" disables
      notifications and keeps the stored threshold; any other value enables
      them at that threshold. */
  function ChooseThreshold(s: Settings, pct: U32): (s': Settings)
    ensures s'.refresh_interval_secs == s.refresh_interval_secs && s'.start_at_login == s.start_at_login
    ensures s'.notifications_enabled <==> pct != 0
    ensures s'.notify_threshold == if pct == 0 then s.notify_threshold else pct
  {
    if pct == 0 then s.(notifications_enabled := false)
    else s.(notifications_enabled := true, notify_threshold := pct)
  }

  lemma AfterThresholdReflects(m: Checks, s: Settings, pct: U32)
    requires Reflects(m, s)
    ensures Reflects(AfterThreshold(m, pct), ChooseThreshold(s, pct))
  {
    var r := AfterThreshold(m, pct);
    var s' := ChooseThreshold(s, pct);
    MarkKeepsItems(m, NotifyGroup, ByChoice(pct));
    forall item | item in r ensures r[item] == Expected(s', item) {
      if item.Radio? && item.group == NotifyGroup {
        MarkValue(m, NotifyGroup, THRESHOLDS, ByChoice(pct), item.value);
        ByChoiceAgrees(s, pct, item.value);
      } else {
        assert r[item] == m[item];
      }
    }
  }

  /** The check a threshold click gives an item is the one the settings
      after that click expect. */
  lemma ByChoiceAgrees(s: Settings, pct: U32, v: nat)
    ensures ByChoice(pct)(v) == ThresholdChecked(ChooseThreshold(s, pct), v)
  {
  }

  lemma AfterStartLoginReflects(m: Checks, s: Settings, on: bool)
    requires Reflects(m, s)
    ensures Reflects(AfterStartLogin(m, on), s.(start_at_login := on))
  {
  }

  // ----- decoding a click -----

  datatype Action =
    | ShowHide
    | RefreshNow
    | Quit
    | SelectInterval(secs: U64)
    | SelectThreshold(pct: U32)
    | ToggleStartLogin
    | Ignore

  /** The id the menu handler matches for `a`; `Ignore` has none and is
      given the empty id, which nothing matches. */
  function IdOf(a: Action): string {
    match a
    case ShowHide => SHOW_HIDE
    case RefreshNow => REFRESH_NOW
    case Quit => QUIT
    case SelectInterval(secs) => IntervalId(secs)
    case SelectThreshold(pct) => NotifyId(pct)
    case ToggleStartLogin => START_LOGIN
    case Ignore => ""
  }

  /** The menu handler's dispatch on a clicked id: the three plain ids, then
      the "interval_" and the "notify_" prefix followed by a number of the
      setting's width (anything else after a prefix is ignored), then
      "start_login". */
  function Dispatch(id: string): (a: Action)
    ensures a.SelectInterval? ==>
      INTERVAL_PREFIX <= id && ParseUnsigned(id[|INTERVAL_PREFIX|..], U64_LIMIT) == Some(a.secs as nat)
    ensures a.SelectThreshold? ==>
      NOTIFY_PREFIX <= id && ParseUnsigned(id[|NOTIFY_PREFIX|..], U32_LIMIT) == Some(a.pct as nat)
    ensures INTERVAL_PREFIX <= id && ParseUnsigned(id[|INTERVAL_PREFIX|..], U64_LIMIT).Some? ==>
      a == SelectInterval(ParseUnsigned(id[|INTERVAL_PREFIX|..], U64_LIMIT).value)
    ensures NOTIFY_PREFIX <= id && ParseUnsigned(id[|NOTIFY_PREFIX|..], U32_LIMIT).Some? ==>
      a == SelectThreshold(ParseUnsigned(id[|NOTIFY_PREFIX|..], U32_LIMIT).value)
    ensures a.ShowHide? || a.RefreshNow? || a.Quit? || a.ToggleStartLogin? ==> id == IdOf(a)
    ensures id == "" ==> a == Ignore
  {
    if id == SHOW_HIDE then ShowHide
    else if id == REFRESH_NOW then RefreshNow
    else if id == QUIT then Quit
    else if INTERVAL_PREFIX <= id then
      match ParseUnsigned(id[|INTERVAL_PREFIX|..], U64_LIMIT)
      case Some(secs) => SelectInterval(secs)
      case None => Ignore
    else if NOTIFY_PREFIX <= id then
      match ParseUnsigned(id[|NOTIFY_PREFIX|..], U32_LIMIT)
      case Some(pct) => SelectThreshold(pct)
      case None => Ignore
    else if id == START_LOGIN then ToggleStartLogin
    else Ignore
  }

  /** Every action is decoded from its own id. */
  lemma DispatchIdOf(a: Action)
    ensures Dispatch(IdOf(a)) == a
  {
    match a
    case SelectInterval(secs) =>
      var id := IdOf(a);
      assert id[0] == 'i';
      assert id != SHOW_HIDE && id != REFRESH_NOW && id != QUIT;
      assert INTERVAL_PREFIX <= id;
      assert id[|INTERVAL_PREFIX|..] == NatToString(secs);
      ParseNatToString(secs, U64_LIMIT);
    case SelectThreshold(pct) =>
      var id := IdOf(a);
      assert id[0] == 'n';
      assert id != SHOW_HIDE && id != REFRESH_NOW && id != QUIT;
      FamiliesApart(0, pct);
      assert NOTIFY_PREFIX <= id;
      assert id[|NOTIFY_PREFIX|..] == NatToString(pct);
      ParseNatToString(pct, U32_LIMIT);
    case ToggleStartLogin =>
      FamiliesApart(0, 0);
    case _ =>
  }

  /** An id after a prefix that is not a number of the right width, such as
      one past the type's range, is ignored. */
  lemma NotifyOutOfRange(n: nat)
    requires n >= U32_LIMIT
    ensures Dispatch(NotifyId(n)) == Ignore
  {
    var id := NotifyId(n);
    assert id[|NOTIFY_PREFIX|..] == NatToString(n);
    ParseNatToString(n, U32_LIMIT);
    FamiliesApart(0, n);
  }

  /** An "interval_" id whose suffix is not a number of the type, such as
      an empty or non-numeric one, changes nothing. */
  lemma IntervalSuffixNotNumber(suffix: string)
    requires ParseUnsigned(suffix, U64_LIMIT).None?
    ensures Dispatch(INTERVAL_PREFIX + suffix) == Ignore
  {
    var id := INTERVAL_PREFIX + suffix;
    assert id[0] == 'i';
    assert INTERVAL_PREFIX <= id;
    assert id[|INTERVAL_PREFIX|..] == suffix;
  }

  /** The same for a "notify_" id. */
  lemma NotifySuffixNotNumber(suffix: string)
    requires ParseUnsigned(suffix, U32_LIMIT).None?
    ensures Dispatch(NOTIFY_PREFIX + suffix) == Ignore
  {
    var id := NOTIFY_PREFIX + suffix;
    assert id[0] == 'n';
    assert id[0] != INTERVAL_PREFIX[0];
    assert NOTIFY_PREFIX <= id;
    assert id[|NOTIFY_PREFIX|..] == suffix;
  }

  lemma NotNumberExamples()
    ensures Dispatch("interval_") == Ignore
    ensures Dispatch("interval_abc") == Ignore
    ensures Dispatch("notify_-5") == Ignore
  {
    IntervalSuffixNotNumber("");
    assert "interval_" == INTERVAL_PREFIX + "";
    IntervalSuffixNotNumber("abc");
    assert !IsDigit("abc"[0]);
    NotifySuffixNotNumber("-5");
    assert !IsDigit("-5"[0]);
  }

  lemma IntervalOutOfRange(n: nat)
    requires n >= U64_LIMIT
    ensures Dispatch(IntervalId(n)) == Ignore
  {
    var id := IntervalId(n);
    assert id[|INTERVAL_PREFIX|..] == NatToString(n);
    ParseNatToString(n, U64_LIMIT);
  }

  /** The ids of the menu's own check items decode to choosing their
      value. */
  lemma MenuIdsDecode()
    ensures forall v :: v in INTERVALS ==> Dispatch(IntervalId(v)) == SelectInterval(v)
    ensures forall v :: v in THRESHOLDS ==> Dispatch(NotifyId(v)) == SelectThreshold(v)
    ensures Dispatch(START_LOGIN) == ToggleStartLogin
  {
    forall v | v in INTERVALS ensures Dispatch(IntervalId(v)) == SelectInterval(v) {
      DispatchIdOf(SelectInterval(v));
    }
    forall v | v in THRESHOLDS ensures Dispatch(NotifyId(v)) == SelectThreshold(v) {
      DispatchIdOf(SelectThreshold(v));
    }
    FamiliesApart(0, 0);
  }
}
