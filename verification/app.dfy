/** The application's state and its reaction to each thing that can happen
    to it (lib.rs): the setup, a click in the tray menu, the auto-refresh
    timer waking, and the commands the front end invokes.

    Everything the outside world does is an input: the outcome of writing
    the settings file, the result of a fetch (reading cookies or the access
    token and the HTTP request are not modelled), the menu id clicked.
    Everything the application does to the outside world is an effect:
    showing or hiding the window, emitting an event to the front end,
    exiting, enabling or disabling the login item, posting a notification,
    setting the tray title. */
module App {
  import opened Wrappers
  import opened RustInt
  import opened SettingsStore
  import opened Usage
  import opened Notifications
  import opened TrayTitle
  import opened Menu

  /** The events emitted to the front end. */
  datatype Event = UsageRefreshTick | RefreshIntervalChanged(secs: U64)

  datatype Effect =
    | ToggleWindow
    | Emit(event: Event)
    | Exit(code: int)
    | SetAutostart(enable: bool)
    | Notify(fire: Fire)
    | SetTitle(title: string)

  /** The state: the settings store, the menu's check items, which items
      looking up by id finds (a property of the menu library, fixed for the
      run), the length of the auto-refresh timer's current sleep, the
      crossing tracker's flags, the last data fetched for each provider,
      and the tray title. */
  datatype App = App(
    store: Store,
    checks: Checks,
    lookup: Lookup,
    sleeping: U64,
    notified: Notified,
    claude: Option<UsageData>,
    codex: Option<UsageData>,
    title: string)

  /** The tray title before the front end first sets it. */
  const INITIAL_TITLE := "C:--% X:--%"

  const CLAUDE := "Claude"
  const CODEX := "Codex"

  /** What a command hands back to the front end. */
  datatype Reply =
    | NoReply
    | UsageReply(usage: Result<UsageData, string>)
    | CachedReply(cached: Option<UsageData>)
    | UnitReply(unit: Result<(), string>)
    | SettingsReply(settings: Settings)
    | IntervalReply(secs: U64)

  datatype Step = Step(app: App, effects: seq<Effect>, reply: Reply)

  /** The state is consistent: the menu shows the stored settings. */
  ghost predicate Valid(app: App) {
    Reflects(app.checks, app.store.settings)
  }

  /** The setup: load the settings, bring the login item in line with
      them, build the menu from them and start the timer's first sleep on
      the loaded interval. */
  function Setup(file: SettingsFile, lookup: Lookup): (st: Step)
    ensures Valid(st.app)
    ensures st.app.lookup == lookup
    ensures st.app.store == New(file)
    ensures st.app.sleeping == st.app.store.settings.refresh_interval_secs
    ensures st.effects == [SetAutostart(st.app.store.settings.start_at_login)]
    ensures forall key :: !Armed(st.app.notified, key)
    ensures st.app.claude.None? && st.app.codex.None?
  {
    var store := New(file);
    var s := Get(store);
    InitialReflects(s);
    Step(App(store, Initial(s), lookup, s.refresh_interval_secs, NewState(), None, None, INITIAL_TITLE),
         [SetAutostart(s.start_at_login)], NoReply)
  }

  // ----- the tray menu -----

  /** The menu handler for a click on the item with id `id`, the settings
      file write (if there is one) ending with `w`. Every settings update's
      result is discarded, and the check items are set from the value
      clicked rather than from what was stored. A radio item is set only
      when the lookup finds the submenus' items; otherwise only the clicked
      item's own mark flips. */
  function Click(app: App, id: string, w: WriteOutcome): (st: Step)
    ensures st.reply == NoReply
    ensures st.app.lookup == app.lookup
    ensures && st.app.sleeping == app.sleeping && st.app.notified == app.notified
            && st.app.claude == app.claude && st.app.codex == app.codex && st.app.title == app.title
    ensures Dispatch(id) in {ShowHide, RefreshNow, Quit, Ignore} ==> st.app == app
    ensures Dispatch(id).SelectInterval? ==> Get(st.app.store) == Get(app.store).(refresh_interval_secs := Dispatch(id).secs)
    ensures Dispatch(id).SelectThreshold? ==> Get(st.app.store) == ChooseThreshold(Get(app.store), Dispatch(id).pct)
    ensures Dispatch(id).ToggleStartLogin? ==>
      Get(st.app.store) == Get(app.store).(start_at_login := !Get(app.store).start_at_login)
  {
    match Dispatch(id)
    case ShowHide => Step(app, [ToggleWindow], NoReply)
    case RefreshNow => Step(app, [Emit(UsageRefreshTick)], NoReply)
    case Quit => Step(app, [Exit(0)], NoReply)
    case SelectInterval(secs) =>
      var u := Update(app.store, (s: Settings) => s.(refresh_interval_secs := secs), w);
      var checks := match app.lookup
        case ThroughSubmenus => AfterInterval(app.checks, secs)
        case TopLevelOnly => NativeToggle(app.checks, Radio(IntervalGroup, secs));
      Step(app.(store := u.store, checks := checks),
           [Emit(RefreshIntervalChanged(secs))], NoReply)
    case SelectThreshold(pct) =>
      var u := Update(app.store, (s: Settings) => ChooseThreshold(s, pct), w);
      var checks := match app.lookup
        case ThroughSubmenus => AfterThreshold(app.checks, pct)
        case TopLevelOnly => NativeToggle(app.checks, Radio(NotifyGroup, pct));
      Step(app.(store := u.store, checks := checks), [], NoReply)
    case ToggleStartLogin =>
      var on := !Get(app.store).start_at_login;
      var u := Update(app.store, (s: Settings) => s.(start_at_login := on), w);
      Step(app.(store := u.store, checks := AfterStartLogin(app.checks, on)), [SetAutostart(on)], NoReply)
    case Ignore => Step(app, [], NoReply)
  }

  /** When the lookup finds the submenus' items, a click keeps the menu
      showing the settings, whichever item it was on and whether or not the
      settings file could be written. */
  lemma ClickKeepsMenu(app: App, id: string, w: WriteOutcome)
    requires Valid(app) && app.lookup == ThroughSubmenus
    ensures Valid(Click(app, id, w).app)
  {
    match Dispatch(id)
    case SelectInterval(secs) =>
      AfterIntervalReflects(app.checks, app.store.settings, secs);
    case SelectThreshold(pct) =>
      AfterThresholdReflects(app.checks, app.store.settings, pct);
    case ToggleStartLogin =>
      AfterStartLoginReflects(app.checks, app.store.settings, !app.store.settings.start_at_login);
    case _ =>
  }

  /** Choosing an interval stores it (in memory even when the file cannot be
      written) and tells the front end; the timer's current sleep is not
      cut short. */
  lemma ChooseIntervalStores(app: App, secs: U64, w: WriteOutcome)
    ensures var st := Click(app, IntervalId(secs), w);
      && Get(st.app.store) == Get(app.store).(refresh_interval_secs := secs)
      && st.app.sleeping == app.sleeping
      && st.effects == [Emit(RefreshIntervalChanged(secs))]
      && (w.Written? ==> LoadFrom(st.app.store.file) == Some(Get(st.app.store)))
  {
    DispatchIdOf(SelectInterval(secs));
  }

  /** Choosing a threshold enables notifications at it, and choosing "Off"
      disables them and keeps the threshold. */
  lemma ChooseThresholdStores(app: App, pct: U32, w: WriteOutcome)
    ensures var st := Click(app, NotifyId(pct), w);
      && Get(st.app.store).notifications_enabled == (pct != 0)
      && Get(st.app.store).notify_threshold == (if pct == 0 then Get(app.store).notify_threshold else pct)
      && Get(st.app.store).refresh_interval_secs == Get(app.store).refresh_interval_secs
      && st.effects == []
  {
    DispatchIdOf(SelectThreshold(pct));
  }

  /** The start-at-login item flips the stored setting and the login item
      together; two clicks restore the setting. */
  lemma StartLoginToggles(app: App, w1: WriteOutcome, w2: WriteOutcome)
    ensures var st := Click(app, START_LOGIN, w1);
      && Get(st.app.store).start_at_login == !Get(app.store).start_at_login
      && st.effects == [SetAutostart(!Get(app.store).start_at_login)]
      && Get(Click(st.app, START_LOGIN, w2).app.store) == Get(app.store)
  {
    DispatchIdOf(ToggleStartLogin);
  }

  /** Clicks that are not on a setting change neither the settings nor the
      menu nor the timer. */
  lemma InertClicks(app: App, id: string, w: WriteOutcome)
    requires Dispatch(id) in {ShowHide, RefreshNow, Quit, Ignore}
    ensures Click(app, id, w).app == app
    ensures Dispatch(id) == Ignore ==> Click(app, id, w).effects == []
    ensures Dispatch(id) == Quit ==> Click(app, id, w).effects == [Exit(0)]
  {
  }

  // ----- the auto-refresh timer -----

  /** The timer's current sleep ends: it emits a refresh tick and starts
      its next sleep on the interval stored now. */
  function TimerWakes(app: App): (st: Step)
    ensures st.app.sleeping == Get(app.store).refresh_interval_secs
    ensures st.app.(sleeping := app.sleeping) == app
    ensures st.effects == [Emit(UsageRefreshTick)]
  {
    Step(app.(sleeping := Get(app.store).refresh_interval_secs), [Emit(UsageRefreshTick)], NoReply)
  }

  /** "Refresh Now" emits the very tick the timer emits, without touching
      the timer. */
  lemma RefreshNowIsATick(app: App, w: WriteOutcome)
    ensures Click(app, REFRESH_NOW, w).effects == TimerWakes(app).effects
    ensures Click(app, REFRESH_NOW, w).app.sleeping == app.sleeping
  {
  }

  /** A newly chosen interval takes effect from the timer's next sleep. */
  lemma IntervalTakesEffectAtNextSleep(app: App, secs: U64, w: WriteOutcome)
    ensures TimerWakes(Click(app, IntervalId(secs), w).app).app.sleeping == secs
  {
    ChooseIntervalStores(app, secs, w);
  }

  // ----- commands -----

  /** A `Notify` effect for each notification fired, in order. */
  function Notifies(fired: seq<Fire>): (es: seq<Effect>)
    ensures |es| == |fired|
    ensures forall i :: 0 <= i < |fired| ==> es[i] == Notify(fired[i])
  {
    seq(|fired|, i requires 0 <= i < |fired| => Notify(fired[i]))
  }

  /** After a fetch of `provider`: cache the data and run the crossing
      tracker on it with the settings of that moment. */
  function Fetched(app: App, provider: string, result: Result<UsageData, string>): (st: Step)
    ensures st.reply == UsageReply(result)
    ensures result.Err? ==> st.app == app && st.effects == []
    ensures && st.app.store == app.store && st.app.checks == app.checks && st.app.lookup == app.lookup
            && st.app.sleeping == app.sleeping && st.app.title == app.title
    ensures result.Ok? && provider == CLAUDE ==> st.app.claude == Some(result.value) && st.app.codex == app.codex
    ensures result.Ok? && provider != CLAUDE ==> st.app.codex == Some(result.value) && st.app.claude == app.claude
    ensures |st.effects| <= 4
    ensures forall i :: 0 <= i < |st.effects| ==>
      st.effects[i].Notify? && st.effects[i].fire.percent >= Get(app.store).notify_threshold as real
  {
    match result
    case Err(e) => Step(app, [], UsageReply(Err(e)))
    case Ok(data) =>
      var s := Get(app.store);
      var o := CheckAndNotify(provider, data, s.notify_threshold, s.notifications_enabled, app.notified);
      var app' := if provider == CLAUDE then app.(claude := Some(data)) else app.(codex := Some(data));
      Step(app'.(notified := o.notified), Notifies(o.fired), UsageReply(Ok(data)))
  }

  datatype Input =
    | MenuClick(id: string, write: WriteOutcome)
    | TimerWake
    | FetchClaudeUsage(claude_result: Result<UsageData, string>)
    | GetCachedClaude
    | FetchCodexUsage(codex_result: Result<UsageData, string>)
    | GetCachedCodex
    | UpdateTrayText(claude_session: I32, claude_weekly: I32, codex_session: I32, codex_weekly: I32)
    | GetSettings
    | GetRefreshInterval

  /** One input. */
  function Handle(app: App, input: Input): (st: Step)
    ensures st.app.lookup == app.lookup
    ensures !input.MenuClick? ==> st.app.store == app.store && st.app.checks == app.checks
    ensures !input.TimerWake? ==> st.app.sleeping == app.sleeping
    ensures !input.FetchClaudeUsage? && !input.FetchCodexUsage? ==>
      st.app.notified == app.notified && st.app.claude == app.claude && st.app.codex == app.codex
  {
    match input
    case MenuClick(id, w) => Click(app, id, w)
    case TimerWake => TimerWakes(app)
    case FetchClaudeUsage(r) => Fetched(app, CLAUDE, r)
    case GetCachedClaude => Step(app, [], CachedReply(app.claude))
    case FetchCodexUsage(r) => Fetched(app, CODEX, r)
    case GetCachedCodex => Step(app, [], CachedReply(app.codex))
    case UpdateTrayText(cs, cw, xs, xw) =>
      var title := TrayText(cs, cw, xs, xw);
      Step(app.(title := title), [SetTitle(title)], UnitReply(Ok(())))
    case GetSettings => Step(app, [], SettingsReply(Get(app.store)))
    case GetRefreshInterval => Step(app, [], IntervalReply(Get(app.store).refresh_interval_secs))
  }

  /** A run of inputs, collecting the effects in order. */
  function Run(app: App, inputs: seq<Input>): (st: Step)
    ensures |inputs| == 0 ==> st.app == app && st.effects == []
    ensures st.app.lookup == app.lookup
    ensures (forall i :: 0 <= i < |inputs| ==> !inputs[i].MenuClick?) ==> st.app.store == app.store
    ensures (forall i :: 0 <= i < |inputs| ==> !inputs[i].TimerWake?) ==> st.app.sleeping == app.sleeping
    decreases |inputs|
  {
    if |inputs| == 0 then Step(app, [], NoReply)
    else
      var first := Handle(app, inputs[0]);
      var rest := Run(first.app, inputs[1..]);
      Step(rest.app, first.effects + rest.effects, rest.reply)
  }

  /** Running two series of inputs one after the other ends where running
      them joined ends. */
  lemma {:induction false} RunAppend(app: App, a: seq<Input>, b: seq<Input>)
    ensures Run(app, a + b).app == Run(Run(app, a).app, b).app
    decreases |a|
  {
    if |a| == 0 {
      assert a + b == b;
    } else {
      var first := Handle(app, a[0]);
      assert (a + b)[0] == a[0];
      assert (a + b)[1..] == a[1..] + b;
      RunStep(app, a);
      RunStep(app, a + b);
      RunAppend(first.app, a[1..], b);
    }
  }

  /** ... and has the effects of the first series followed by those of
      the second. */
  lemma {:induction false} RunAppendEffects(app: App, a: seq<Input>, b: seq<Input>)
    ensures Run(app, a + b).effects == Run(app, a).effects + Run(Run(app, a).app, b).effects
    decreases |a|
  {
    if |a| == 0 {
      assert a + b == b;
    } else {
      var first := Handle(app, a[0]);
      assert (a + b)[0] == a[0];
      assert (a + b)[1..] == a[1..] + b;
      RunStep(app, a);
      RunStep(app, a + b);
      RunAppendEffects(first.app, a[1..], b);
      var x := Run(first.app, a[1..]);
      var y := Run(x.app, b);
      var left := Run(app, a);
      assert left.app == x.app && left.effects == first.effects + x.effects;
      assert Run(left.app, b) == y;
      var tail := Run(first.app, a[1..] + b).effects;
      assert tail == x.effects + y.effects;
      assert Run(app, a + b).effects == first.effects + tail;
      ConcatAssociates(first.effects, x.effects, y.effects);
    }
  }

  lemma ConcatAssociates<T>(p: seq<T>, q: seq<T>, r: seq<T>)
    ensures p + (q + r) == (p + q) + r
  {
  }

  lemma RunStep(app: App, inputs: seq<Input>)
    requires 0 < |inputs|
    ensures var first := Handle(app, inputs[0]);
      && Run(app, inputs).app == Run(first.app, inputs[1..]).app
      && Run(app, inputs).effects == first.effects + Run(first.app, inputs[1..]).effects
  {
  }

  /** When the lookup finds the submenus' items, every input keeps the menu
      showing the settings. */
  lemma HandleKeepsMenu(app: App, input: Input)
    requires Valid(app) && app.lookup == ThroughSubmenus
    ensures Valid(Handle(app, input).app)
  {
    if input.MenuClick? {
      ClickKeepsMenu(app, input.id, input.write);
    }
  }

  /** With a lookup that finds the submenus' items, from the setup on,
      whatever happens, the menu's check items show the settings in
      memory. */
  lemma {:induction false} MenuAlwaysShowsSettings(file: SettingsFile, inputs: seq<Input>)
    ensures Valid(Run(Setup(file, ThroughSubmenus).app, inputs).app)
  {
    RunKeepsMenu(Setup(file, ThroughSubmenus).app, inputs);
  }

  lemma {:induction false} RunKeepsMenu(app: App, inputs: seq<Input>)
    requires Valid(app) && app.lookup == ThroughSubmenus
    ensures Valid(Run(app, inputs).app)
    decreases |inputs|
  {
    if |inputs| > 0 {
      HandleKeepsMenu(app, inputs[0]);
      RunKeepsMenu(Handle(app, inputs[0]).app, inputs[1..]);
    }
  }

  /** With a lookup that finds only the menu's own items, choosing an
      interval other than the stored one leaves both its item and the
      previously stored interval's item checked, so the menu no longer
      shows the settings. */
  lemma TopLevelLookupChecksTwo(app: App, secs: U64, w: WriteOutcome)
    requires Valid(app) && app.lookup == TopLevelOnly
    requires Get(app.store).refresh_interval_secs in INTERVALS
    requires secs in INTERVALS && secs != Get(app.store).refresh_interval_secs
    ensures var m := Click(app, IntervalId(secs), w).app.checks;
      var old_item := Radio(IntervalGroup, Get(app.store).refresh_interval_secs);
      && Radio(IntervalGroup, secs) in m && m[Radio(IntervalGroup, secs)]
      && old_item in m && m[old_item]
    ensures !Valid(Click(app, IntervalId(secs), w).app)
  {
    DispatchIdOf(SelectInterval(secs));
    var old_item := Radio(IntervalGroup, Get(app.store).refresh_interval_secs);
    var new_item := Radio(IntervalGroup, secs);
    assert IsMenuItem(old_item) && IsMenuItem(new_item);
    assert old_item in app.checks && app.checks[old_item];
    assert new_item in app.checks && !app.checks[new_item];
    var clicked := Click(app, IntervalId(secs), w).app;
    assert Get(clicked.store).refresh_interval_secs == secs;
    assert !Expected(clicked.store.settings, old_item);
  }

  /** Only the timer's waking changes the length of its sleep. */
  lemma OnlyTheTimerSleeps(app: App, input: Input)
    requires !input.TimerWake?
    ensures Handle(app, input).app.sleeping == app.sleeping
  {
  }

  /** A successful fetch is what the cache hands back next, and only that
      provider's cache changes; a failed one changes nothing. */
  lemma FetchFillsCache(app: App, result: Result<UsageData, string>)
    ensures var st := Handle(app, FetchClaudeUsage(result));
      && st.reply == UsageReply(result)
      && (result.Ok? ==> Handle(st.app, GetCachedClaude).reply == CachedReply(Some(result.value)))
      && (result.Err? ==> st.app == app && st.effects == [])
      && st.app.codex == app.codex
      && st.app.store == app.store
  {
  }

  lemma CodexFetchFillsCache(app: App, result: Result<UsageData, string>)
    ensures var st := Handle(app, FetchCodexUsage(result));
      && st.reply == UsageReply(result)
      && (result.Ok? ==> Handle(st.app, GetCachedCodex).reply == CachedReply(Some(result.value)))
      && (result.Err? ==> st.app == app && st.effects == [])
      && st.app.claude == app.claude
      && st.app.store == app.store
  {
  }

  /** The two providers' keys never meet. */
  lemma ProvidersApart(a: Kind, b: Kind)
    ensures Key(CLAUDE, a) != Key(CODEX, b)
  {
    assert Key(CLAUDE, a)[1] != Key(CODEX, b)[1];
  }

  /** A Claude fetch notifies as the tracker decides with the threshold and
      switch stored at that moment, nothing when notifications are off, and
      leaves the Codex flags alone. */
  lemma ClaudeFetchNotifies(app: App, data: UsageData, k: Kind)
    ensures var s := Get(app.store);
      var st := Handle(app, FetchClaudeUsage(Ok(data)));
      && st.effects == Notifies(CheckAndNotify(CLAUDE, data, s.notify_threshold, s.notifications_enabled, app.notified).fired)
      && (!s.notifications_enabled ==> st.effects == [] && st.app.notified == app.notified)
      && (Key(CODEX, k) in st.app.notified <==> Key(CODEX, k) in app.notified)
      && (Key(CODEX, k) in app.notified ==> st.app.notified[Key(CODEX, k)] == app.notified[Key(CODEX, k)])
  {
    forall j: Kind ensures Key(CODEX, k) != Key(CLAUDE, j) {
      ProvidersApart(j, k);
    }
    assert Key(CODEX, k) !in KeysOf(CLAUDE);
  }

  /** A stored threshold change applies to the next fetch. */
  lemma ThresholdAppliesToNextFetch(app: App, pct: U32, w: WriteOutcome, data: UsageData)
    requires pct > 0
    ensures var clicked := Click(app, NotifyId(pct), w).app;
      Handle(clicked, FetchClaudeUsage(Ok(data))).effects ==
        Notifies(CheckAndNotify(CLAUDE, data, pct, true, app.notified).fired)
  {
    ChooseThresholdStores(app, pct, w);
  }

  /** The title set is the one the front end's four values make, and it
      can be read back to them. */
  lemma TrayTextSetsTitle(app: App, cs: I32, cw: I32, xs: I32, xw: I32)
    ensures var st := Handle(app, UpdateTrayText(cs, cw, xs, xw));
      && st.effects == [SetTitle(st.app.title)]
      && ParseTitle(st.app.title) == Some(Shown(
           if Known(cs, cw) then Some((cs as nat, cw as nat)) else None,
           if Known(xs, xw) then Some((xs as nat, xw as nat)) else None))
  {
    var title := TrayText(cs, cw, xs, xw);
    assert Handle(app, UpdateTrayText(cs, cw, xs, xw)) == Step(app.(title := title), [SetTitle(title)], UnitReply(Ok(())));
    TitleRoundTrip(cs, cw, xs, xw);
  }

  lemma Queries(app: App)
    ensures Handle(app, GetRefreshInterval).reply == IntervalReply(Get(app.store).refresh_interval_secs)
    ensures Handle(app, GetSettings).reply == SettingsReply(Get(app.store))
  {
  }

  /** The settings queries answer from memory, so after a click whose save
      failed they report the clicked value, not what the file holds. */
  lemma QueriesSeeMemory(app: App, secs: U64, message: string, residue: SettingsFile)
    ensures var clicked := Click(app, IntervalId(secs), WriteFailed(message, residue)).app;
      && Handle(clicked, GetRefreshInterval).reply == IntervalReply(secs)
      && Handle(clicked, GetSettings).reply == SettingsReply(Get(app.store).(refresh_interval_secs := secs))
      && clicked.store.file == residue
  {
    var w := WriteFailed(message, residue);
    DispatchIdOf(SelectInterval(secs));
    var u := Update(app.store, (s: Settings) => s.(refresh_interval_secs := secs), w);
    var clicked := Click(app, IntervalId(secs), w).app;
    assert clicked.store == u.store;
    Queries(clicked);
  }
}
