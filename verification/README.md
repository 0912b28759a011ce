# Claude/Codex usage tray widget — a Dafny model of its core

The widget is a macOS menu-bar app. It polls Claude and Codex for their
rate-limit usage, shows the percentages in the tray title, and notifies the
user once each time a metric crosses a chosen threshold. Its preferences
(refresh interval, threshold, notifications on or off, start at login) are kept
in `settings.json`. A context menu in the tray changes them.

This project models the logic of that app as pure functions over immutable
datatypes and proves properties of it. The parts modelled are:

- **Settings** (`settings.dfy`, module `SettingsStore`): the preferences, their
  defaults, loading them from the settings file and saving them to it, and the
  store's `update` and `get`.
- **Crossing tracker** (`notifications.dfy`): the per-metric "already notified"
  map and the decision to fire. Over any series of fetches, a metric fires
  exactly as many times as its percentage crosses from below the threshold to
  at or above it.
- **Usage mapping** (`usage.dfy`, `codex.dfy`): how the Claude and Codex
  responses become the shared usage snapshot. This covers `format_reset`,
  `format_seconds`, `window_label` and `convert_payload`.
- **Tray title** (`tray_title.dfy`): `update_tray_text`, with a parser as its
  partner. Reading the title back recovers exactly the values shown.
- **Tray menu** (`menu.dfy`): item ids, decoding a clicked id, and the check
  marks as built and as put right after each click.
- **App** (`app.dfy`): setup, clicks, the refresh timer and the front-end
  commands, as one state machine with an effect log. Proved invariant: the
  menu always shows the settings held in memory, provided looking an item
  up by id finds the items inside the submenus (see below).
- **OpenRouter key** (`keychain.dfy`, `openrouter.dfy`): reading, storing,
  clearing and masking the key kept in the macOS Keychain, choosing the key,
  and the remaining credits. A reference model of the Keychain item gives
  round trips.
- **Support modules:**
  - `fetch.dfy`: how an HTTP exchange can end, and the quoted excerpt of an
    error body.
  - `utf8.dfy`: Rust's byte-indexed string slicing.
  - `rust_int.dfy`: Rust's truncating integer division.
  - `text.dfy`: decimal rendering and parsing, `trim`, lower-casing, substring
    search.
  - `wrappers.dfy`: `Option` and `Result`.

Inputs stand in for everything the outside world does:

- the outcome of writing the settings file;
- the result of each fetch;
- the clicked menu id;
- the output of the `security` tool;
- the environment variable;
- the seconds until each reset time;
- the fetch time;
- float parsing.

The app's actions on the world are recorded as an effect log: showing or hiding
the window, emitting events, exiting, enabling or disabling the login item,
posting notifications, and setting the title.

### Failed saves and the menu

- `update` commits the mutation in memory first and then saves
  (`src-tauri/src/settings.rs:65-72`). If the save fails, `update` returns
  `Err` and the mutation stays in memory:
  - `SettingsStore.Update` states this;
  - `SettingsStore.FailedUpdateDiverges` shows memory and disk disagreeing;
  - `App.QueriesSeeMemory` shows the queries reporting the unsaved value.
- The click handler ignores the result of `update` and sets the radio group's
  marks from the clicked value (`src-tauri/src/lib.rs:279`, `296-317`). Because
  the mutation stays in memory either way, the menu still shows the in-memory
  settings (`App.MenuAlwaysShowsSettings`).

### The menu lookup

The handler finds each radio item with `menu_ref.get(&item_id)`
(`src-tauri/src/lib.rs:283`, `307`), but the radio items sit inside the two
submenus. Whether Tauri's `Menu::get` searches submenus is a property of the
library, which is not part of this model. The model therefore takes it as a
parameter of the app (`Menu.Lookup`):

- **`ThroughSubmenus`**: the handler sets every mark of the group.
  `Menu.RadioGroups`, `App.ClickKeepsMenu`, `App.HandleKeepsMenu`,
  `App.RunKeepsMenu` and `App.MenuAlwaysShowsSettings` are proved under this
  lookup.
- **`TopLevelOnly`**: the handler finds no radio item, and only the clicked
  item's own mark flips. `App.TopLevelLookupChecksTwo` shows that choosing a
  different interval then leaves two interval items checked.

The start-at-login checkbox is a top-level item, so both lookups find it.

## Model

| member | source | states |
|---|---|---|
| SettingsStore.Default | src-tauri/src/settings.rs:22-31 | the defaults are a 300 s interval, an 80 % threshold, notifications on and start at login off |
| SettingsStore.Decode | src-tauri/src/settings.rs:10-20 | an object decodes exactly when all four fields are present, each has its JSON type and fits its integer width; the settings are then exactly those field values |
| SettingsStore.ExtraFieldIgnored | src-tauri/src/settings.rs:10-20 | a field other than the four does not change how an object decodes |
| SettingsStore.DecodeSequence | src-tauri/src/settings.rs:10-20 | an array decodes exactly when it has four elements of the fields' types and widths, in declaration order; the settings are then exactly those elements |
| SettingsStore.SequenceAsObject | src-tauri/src/settings.rs:10-20 | a four-element array decodes as the object naming its elements in declaration order |
| SettingsStore.ArrayFileLoads | src-tauri/src/settings.rs:39-55 | a file holding `[600, 90, false, true]` makes the store start from those values |
| SettingsStore.Encode | src-tauri/src/settings.rs:57-63 | the file written holds exactly the four fields, and they decode back to the settings saved |
| SettingsStore.LoadFrom | src-tauri/src/settings.rs:51-55 | a missing or unparsable file loads nothing; loaded settings come from an object holding their four encoded fields, or from the four-element array of them |
| SettingsStore.SaveLoadRoundTrip | src-tauri/src/settings.rs:51-63 | loading what a save wrote gives back the saved settings, field for field |
| SettingsStore.MissingFieldMeansDefault | src-tauri/src/settings.rs:39-55 | a settings object that lacks any one of the four fields makes the store start from the defaults |
| SettingsStore.New | src-tauri/src/settings.rs:39-45 | the store starts from the loaded settings, or from the defaults when nothing loads; the file is not rewritten |
| SettingsStore.Save | src-tauri/src/settings.rs:57-63 | memory is untouched; the result is Ok exactly when the write succeeds, and then the file loads back to the in-memory settings; a failed write returns its message and leaves whatever it left on disk |
| SettingsStore.Update | src-tauri/src/settings.rs:65-72 | memory holds `f(previous)` whether or not the save succeeds; on success it returns that value and the file loads back to it; on failure it returns the write's error, with no rollback |
| SettingsStore.Get | src-tauri/src/settings.rs:74-76 | `get` reports the in-memory settings, not the file's |
| SettingsStore.GetAfterUpdate | src-tauri/src/settings.rs:65-76 | after an update, `get` returns `f` of the previous value, and a successful update returned that same value |
| SettingsStore.NoOpUpdate | src-tauri/src/settings.rs:65-72 | an update with a closure that changes nothing leaves memory as it was; after a successful one the file holds it too |
| SettingsStore.FailedUpdateDiverges | src-tauri/src/settings.rs:66-70 | after a failed save, memory shows the mutation while a restart would load the old file |
| Notifications.NewState | src-tauri/src/notifications.rs:19-25 | a fresh tracker has no metric flagged |
| Notifications.KeysDistinct | src-tauri/src/notifications.rs:50-75 | a provider's four metric keys are pairwise distinct |
| Notifications.Metrics | src-tauri/src/notifications.rs:50-75 | a fetch is judged as four metrics, one per kind in the order session, weekly, model, extra, under pairwise distinct keys |
| Notifications.MetricOf | src-tauri/src/notifications.rs:50-75 | the session, weekly and model metrics are judged on their percent and report their reset text; the extra metric is judged on `extra.percent_used` and reports `extra.reset_date` |
| Notifications.Judge | src-tauri/src/notifications.rs:79-96 | a metric fires exactly when it is at or above the threshold and unflagged; afterwards its flag says whether it is at or above; an already flagged metric above, or an unflagged one below, changes nothing; other keys are untouched |
| Notifications.JudgeAllKey | src-tauri/src/notifications.rs:79-97 | with distinct keys, each judged key ends flagged exactly when its metric is at or above the threshold and fires at most once; keys no metric has are left alone and never fire |
| Notifications.JudgeAll | src-tauri/src/notifications.rs:79-97 | at most one notification per metric judged, each at or above the threshold |
| Notifications.CheckAndNotify | src-tauri/src/notifications.rs:36-98 | when notifications are disabled or the threshold is 0, nothing fires and the map is unchanged; entries outside the provider's four keys never change or fire; at most four notifications, each at or above the threshold |
| Notifications.CheckAndNotifyMetric | src-tauri/src/notifications.rs:79-97 | with notifications on, each of the provider's metrics fires once exactly when it reaches the threshold unflagged, and its flag afterwards says whether it is at or above |
| Notifications.Run | src-tauri/src/notifications.rs:36-98 | over a series of fetches, at most four notifications per fetch, each at or above the threshold, and none when notifications are disabled or the threshold is 0 |
| Notifications.FiresOncePerCrossing | src-tauri/src/notifications.rs:79-97 | over any series of fetches, a metric fires exactly as often as the reference count of below-to-at-or-above crossings of its percentages |
| Notifications.CrossingsExample | src-tauri/src/notifications.rs:79-97 | for any provider, metric and fetches whose percentages of that metric are 60, 75, 82, 91, 70, 85, a threshold of 80 notifies for that metric exactly twice |
| Notifications.DisabledFreezes | src-tauri/src/notifications.rs:44-46 | with notifications disabled or a threshold of 0, no series of fetches fires anything and the map stays exactly as it was |
| Notifications.MissingClaudeWindowNeverFires | src-tauri/src/usage_fetcher.rs:118-122 | a Claude response without a session window never makes the session metric fire |
| Usage.FormatReset | src-tauri/src/usage_fetcher.rs:183-203 | no reset time gives "---", and a reset time that does not parse is returned verbatim |
| Usage.FormatResetShowsTimeLeft | src-tauri/src/usage_fetcher.rs:186-197 | for a reset `h` whole hours and `m` left-over whole minutes ahead, the text shows both when `h > 0`, only the minutes when `m > 0`, and otherwise "Resets soon" |
| Usage.FormatResetPastIsSoon | src-tauri/src/usage_fetcher.rs:186-197 | a reset less than a minute ahead, or already past, reads "Resets soon" |
| Usage.WindowMetric | src-tauri/src/usage_fetcher.rs:112-123 | an absent window reads 0 % with "No data"; a present one with no utilization reads 0 %; the label never depends on the window |
| Usage.ExtraPercent | src-tauri/src/usage_fetcher.rs:153-161 | the extra percent is the reported utilization when present; otherwise it is used/limit·100 when the limit is positive, and 0 when it is not |
| Usage.FromApiResponse | src-tauri/src/usage_fetcher.rs:112-180 | the labels are always "Current session", "All models" and "Sonnet only"; absent windows read 0 % "No data"; a present window reads its utilization (0 when missing) and the reset descriptor of its reset time; an absent extra block reads 0/0/"---"/disabled; a present one reads "Monthly", its credits used, the extra percent, and enabled defaulting to false |
| Codex.FormatSeconds | src-tauri/src/codex_fetcher.rs:125-128 | no time left reads "Resets soon" |
| Codex.FormatSecondsShowsTimeLeft | src-tauri/src/codex_fetcher.rs:129-135 | `h` whole hours and `m` left-over minutes read "Resets in {h}h {m}m" when `h > 0`, and "Resets in {m}m" (possibly "0m") otherwise |
| Codex.FormatSecondsMatchesFormatReset | src-tauri/src/codex_fetcher.rs:125-136 | from one minute on, the Codex and Claude descriptors agree; under a minute, Codex says "Resets in 0m" where Claude says "Resets soon" |
| Codex.WindowLabel | src-tauri/src/codex_fetcher.rs:138-146 | a window is labelled "…-day window" exactly when it lasts at least a day, and "…-hour window" otherwise |
| Codex.WindowLabelShowsLength | src-tauri/src/codex_fetcher.rs:138-146 | a window of `h` whole hours is labelled in hours below 24 and in whole days from 24 on |
| Codex.WindowLabelBelowOneHour | src-tauri/src/codex_fetcher.rs:138-146 | a window shorter than an hour, or negative, is labelled with a non-positive hour count rounded toward zero |
| Codex.WindowLabelExamples | src-tauri/src/codex_fetcher.rs:138-146 | 18000 s is "5-hour window" and 604800 s is "7-day window" |
| Codex.SnapshotMetric | src-tauri/src/codex_fetcher.rs:153-157 | a present window reads its length label and percent; its reset text is "Resets soon" with no time left, and otherwise the whole hours and minutes left, for every such reading of the seconds |
| Codex.WindowOrFallback | src-tauri/src/codex_fetcher.rs:152-163 | a missing window gives the fallback label, 0 % and "No data" |
| Codex.ModelMetric | src-tauri/src/codex_fetcher.rs:184-201 | the model metric comes only from the first additional limit, and only when it has a rate limit with a primary window; otherwise it is "Plan: {plan}", 0 %, "---" |
| Codex.CreditsExtra | src-tauri/src/codex_fetcher.rs:203-219 | the percent is always 0; enabled is `has_credits` or `unlimited`; the date is "Unlimited" exactly when unlimited; without credits it is disabled with "---" |
| Codex.ConvertPayload | src-tauri/src/codex_fetcher.rs:148-228 | the session is the primary window (or its fallback), prefixed with "LIMIT REACHED - " exactly when the limit is reached; weekly is the secondary window; plan defaults to "unknown" |
| Codex.ConvertPayloadSession | src-tauri/src/codex_fetcher.rs:148-181 | with a primary window, the session shows that window's length label and percentage, and the time left to its reset ("Resets soon" when none is left), prefixed with "LIMIT REACHED - " exactly when the limit is reached |
| Codex.ConvertPayloadWeekly | src-tauri/src/codex_fetcher.rs:148-181 | with a secondary window, the weekly metric is that window's length label, percentage and time left, never prefixed |
| Codex.LimitReachedMarksSessionOnly | src-tauri/src/codex_fetcher.rs:165-181 | a reached limit prefixes the session text, even "No data", and never the weekly one |
| TrayTitle.TrayText | src-tauri/src/lib.rs:83-94 | with both pairs known, the title is the Claude part, two spaces, then the Codex part; a known pair's part is at its end; the title is "Usage: --%" exactly when neither pair is known |
| TrayTitle.TitleRoundTrip | src-tauri/src/lib.rs:83-94 | parsing the title recovers exactly which pairs were shown and their four values |
| TrayTitle.TitleMentionsProvider | src-tauri/src/lib.rs:84-89 | the title contains "C:" exactly when both Claude values are ≥ 0, and "X:" exactly when both Codex values are |
| Menu.IdsInjective | src-tauri/src/lib.rs:167-177 | different values give different item ids |
| Menu.FamiliesApart | src-tauri/src/lib.rs:276-320 | no threshold id or "start_login" starts with "interval_", and no interval id or "start_login" starts with "notify_" |
| Menu.ItemIdInjective | src-tauri/src/lib.rs:281-287 | looking a check item up by its id finds that item and no other |
| Menu.Mark | src-tauri/src/lib.rs:281-288 | setting a group's items adds exactly those items and leaves every other item's check as it was |
| Menu.MarkValue | src-tauri/src/lib.rs:281-288 | after the loop, each listed item holds its expected check |
| Menu.Initial | src-tauri/src/lib.rs:158-231 | the built menu holds exactly the five interval items, the five threshold items and the start-at-login item, the last checked exactly when start at login is on |
| Menu.InitialChecks | src-tauri/src/lib.rs:166-231 | interval `v` is checked iff it is the loaded interval; "Off" iff notifications are disabled; threshold `v` iff notifications are enabled at `v`; start at login iff it is on |
| Menu.InitialReflects | src-tauri/src/lib.rs:158-231 | the menu as built shows the loaded settings |
| Menu.RadioGroups | src-tauri/src/lib.rs:166-200 | in a menu showing the settings, at most one item per radio group is checked (kept by every input only under the lookup through submenus) |
| Menu.AfterInterval | src-tauri/src/lib.rs:281-288 | after choosing an interval, its item is checked, every other offered interval unchecked, and items outside the group are unchanged |
| Menu.AfterIntervalReflects | src-tauri/src/lib.rs:276-291 | setting the interval group from the chosen interval keeps the menu showing the settings with that interval stored |
| Menu.ChooseThreshold | src-tauri/src/lib.rs:296-303 | "Off" disables notifications and keeps the stored threshold; any other value enables them at that threshold; nothing else changes |
| Menu.AfterThreshold | src-tauri/src/lib.rs:305-317 | after choosing a threshold, "Off" is checked exactly when the choice is 0, any other offered threshold exactly when it is the choice, and items outside the group are unchanged |
| Menu.AfterThresholdReflects | src-tauri/src/lib.rs:293-318 | setting the threshold group from the choice keeps the menu showing the settings after that choice |
| Menu.AfterStartLogin | src-tauri/src/lib.rs:335-339 | the checkbox holds the new value and no other item changes |
| Menu.AfterStartLoginReflects | src-tauri/src/lib.rs:320-339 | setting the checkbox to the new value keeps the menu showing the settings with that value stored |
| Menu.Dispatch | src-tauri/src/lib.rs:258-342 | an id with the "interval_" or "notify_" prefix selects exactly when its rest parses as a u64 or u32 (leading zeros and one "+" allowed), and then selects that value; the plain actions only come from their own ids; the empty id is ignored |
| Menu.IntervalSuffixNotNumber | src-tauri/src/lib.rs:276-277 | an "interval_" id whose rest does not parse as a u64 is ignored |
| Menu.NotifySuffixNotNumber | src-tauri/src/lib.rs:293-294 | a "notify_" id whose rest does not parse as a u32 is ignored |
| Menu.NotNumberExamples | src-tauri/src/lib.rs:276-294 | "interval_", "interval_abc" and "notify_-5" are ignored |
| Menu.DispatchIdOf | src-tauri/src/lib.rs:259-320 | every action is decoded from its own id |
| Menu.NotifyOutOfRange | src-tauri/src/lib.rs:293-294 | a "notify_" id whose number does not fit a u32 is ignored |
| Menu.IntervalOutOfRange | src-tauri/src/lib.rs:276-277 | an "interval_" id whose number does not fit a u64 is ignored |
| Menu.MenuIdsDecode | src-tauri/src/lib.rs:276-320 | the ids of the menu's own items decode to choosing their value, and "start_login" to the toggle |
| Text.ParseUnsigned | src-tauri/src/lib.rs:277 | a text parses exactly when, after one optional '+', it is a non-empty run of decimal digits whose value fits the type; the result is that value |
| Text.ParsePlusSign | src-tauri/src/lib.rs:277 | one leading '+' does not change the parse of a number, and two make it fail |
| Text.ParseNatToString | src-tauri/src/lib.rs:277 | parsing a rendered number gives it back exactly when it fits the type |
| App.Setup | src-tauri/src/lib.rs:132-253 | the store is loaded from the file; the menu shows it, whichever lookup the library does; the first sleep uses the loaded interval; the only effect syncs the login item; no flags and no caches |
| App.Click | src-tauri/src/lib.rs:257-343 | a click replies nothing and never touches the timer, the flags, the caches or the title; show/hide, refresh-now, quit and unknown ids leave the state unchanged; an interval, threshold or start-at-login click leaves memory holding the settings with that choice applied, and keeps the lookup |
| App.ClickKeepsMenu | src-tauri/src/lib.rs:257-343 | under the lookup through submenus, any click keeps the menu showing the in-memory settings, whether or not the file could be written |
| App.ChooseIntervalStores | src-tauri/src/lib.rs:276-291 | an interval click stores the interval (in memory even when the save fails), emits `refresh-interval-changed` with it, and does not cut the current sleep short |
| App.ChooseThresholdStores | src-tauri/src/lib.rs:293-318 | a threshold click enables notifications at it, or "Off" disables them and keeps the threshold; the interval is unchanged; nothing is emitted |
| App.StartLoginToggles | src-tauri/src/lib.rs:320-339 | the click flips the stored setting and sets the login item to the new value; two clicks restore the setting |
| App.InertClicks | src-tauri/src/lib.rs:260-275 | show/hide, refresh-now, quit and unknown ids change neither settings, menu nor timer; quit exits with 0; unknown ids do nothing |
| App.RefreshNowIsATick | src-tauri/src/lib.rs:270-272 | "Refresh Now" emits the same tick the timer emits, without touching the timer |
| App.TimerWakes | src-tauri/src/lib.rs:348-356 | a wake emits one refresh tick and starts a sleep of the stored interval; nothing else changes |
| App.IntervalTakesEffectAtNextSleep | src-tauri/src/lib.rs:348-356 | after an interval click, the timer's next sleep lasts that interval |
| App.Handle | src-tauri/src/lib.rs:26-357 | only a click changes the settings and the menu; only a wake changes the sleep; only a fetch changes the flags and the caches |
| App.HandleKeepsMenu | src-tauri/src/lib.rs:257-343 | under the lookup through submenus, every input keeps the menu showing the in-memory settings |
| App.MenuAlwaysShowsSettings | src-tauri/src/lib.rs:132-357 | under the lookup through submenus, from the setup on, after any sequence of inputs, the menu shows the in-memory settings |
| App.Run | src-tauri/src/lib.rs:26-357 | no inputs change nothing; a run with no click keeps the settings, and one with no wake keeps the sleep |
| App.RunAppend | src-tauri/src/lib.rs:26-357 | running two batches of inputs one after the other ends in the state running them together does |
| App.RunAppendEffects | src-tauri/src/lib.rs:26-357 | the effects of running two batches together are those of the first followed by those of the second |
| App.RunKeepsMenu | src-tauri/src/lib.rs:257-343 | under the lookup through submenus, a run of inputs from a consistent state ends in a consistent state |
| App.TopLevelLookupChecksTwo | src-tauri/src/lib.rs:276-291 | under a lookup that finds only top-level items, choosing an offered interval other than the stored one leaves both intervals' items checked, and the menu no longer shows the settings |
| App.OnlyTheTimerSleeps | src-tauri/src/lib.rs:348-356 | the sleep length is re-read only when the timer wakes |
| App.Fetched | src-tauri/src/lib.rs:26-72 | a fetch replies with its result; a failure changes nothing and has no effect; a success fills that provider's cache only; settings, menu, sleep and title are untouched; at most four effects, all notifications at or above the stored threshold |
| App.FetchFillsCache | src-tauri/src/lib.rs:26-48 | a Claude fetch replies with its result; a success is what the cache returns next; a failure changes nothing; the Codex cache and the settings are untouched |
| App.CodexFetchFillsCache | src-tauri/src/lib.rs:50-72 | the same for Codex, leaving the Claude cache alone |
| App.ProvidersApart | src-tauri/src/lib.rs:37-64 | no Claude metric key equals a Codex one |
| App.ClaudeFetchNotifies | src-tauri/src/lib.rs:37-40 | a Claude fetch notifies as the tracker decides with the settings of that moment; nothing when notifications are off; Codex flags untouched |
| App.ThresholdAppliesToNextFetch | src-tauri/src/lib.rs:37-40 | a threshold chosen in the menu is the one the next fetch is judged against |
| App.TrayTextSetsTitle | src-tauri/src/lib.rs:74-98 | the title set is the one the four values make, and it reads back to them |
| App.Queries | src-tauri/src/lib.rs:109-117 | `get_refresh_interval` and `get_settings` answer from the in-memory settings |
| App.QueriesSeeMemory | src-tauri/src/lib.rs:109-117 | after an interval click whose save failed, `get_settings` and `get_refresh_interval` report the clicked value while the file holds the residue |
| RustInt.TruncDiv | src-tauri/src/codex_fetcher.rs:129-130 | the quotient rounds toward zero: bracketed from below for non-negative dividends, from above for negative ones |
| RustInt.TruncRem | src-tauri/src/codex_fetcher.rs:130 | the remainder completes the truncated quotient and carries the dividend's sign |
| Fetch.Excerpt | src-tauri/src/codex_fetcher.rs:114 | the excerpt is a prefix of the body within 200 bytes, and no longer whole-character prefix fits |
| Fetch.ExcerptAsWritten | src-tauri/src/codex_fetcher.rs:114 | the byte cut at the smaller of the length and 200 succeeds exactly when a character boundary lies there; a body of at most 200 bytes is quoted whole; a cut that succeeds is a prefix of at most 200 bytes |
| Fetch.StatusError | src-tauri/src/openrouter_fetcher.rs:78-86 | a failed status's message starts with the prefix and the status; what follows quotes a prefix of the body of at most 200 bytes, and the whole body when it fits |
| Fetch.ExcerptAgrees | src-tauri/src/codex_fetcher.rs:114 | whenever the byte cut does not panic, it quotes the same text as the corrected excerpt |
| Fetch.ShortBodyQuotedWhole | src-tauri/src/openrouter_fetcher.rs:80-86 | a body of at most 200 bytes is quoted whole |
| Fetch.AsciiExcerptAgrees | src-tauri/src/openrouter_fetcher.rs:84 | for an ASCII body, the byte cut never panics and equals the corrected excerpt |
| Fetch.ExcerptCutsCharacter | src-tauri/src/codex_fetcher.rs:114 | 199 ASCII bytes followed by a multi-byte character make the byte cut panic, while the corrected excerpt quotes the 199 bytes |
| Keychain.ReadKey | src-tauri/src/openrouter_keychain.rs:25-56 | a spawn failure is an error; success gives the trimmed output, or no key when it is blank; a failure is "no key" exactly when it reports "could not be found"; a key returned is never blank and already trimmed |
| Keychain.SetArgs | src-tauri/src/openrouter_keychain.rs:58-75 | a key that is blank after trimming is refused before anything runs; otherwise the trimmed key is stored with "-U" (replace) |
| Keychain.SetKey | src-tauri/src/openrouter_keychain.rs:58-86 | a blank key gives "API key cannot be empty"; otherwise it succeeds exactly when `security` ran and succeeded |
| Keychain.ClearKey | src-tauri/src/openrouter_keychain.rs:88-107 | clearing succeeds exactly when `security` succeeded or reported the item missing |
| Keychain.MaskKey | src-tauri/src/openrouter_keychain.rs:15-23 | a trimmed key of at most 10 characters masks to "********"; a longer one to 13 characters with "..." in the middle |
| Keychain.MaskShowsOnlyTheEnds | src-tauri/src/openrouter_keychain.rs:20-22 | the mask shows the first 6 and last 4 characters of the trimmed key and nothing between them |
| Keychain.MaskIgnoresWhitespace | src-tauri/src/openrouter_keychain.rs:16 | whitespace around the key does not change its mask |
| Keychain.AsciiMaskAgrees | src-tauri/src/openrouter_keychain.rs:15-23 | for an ASCII key, the byte-indexed masking never panics and equals the corrected one |
| Keychain.MaskKeyAsWritten | src-tauri/src/openrouter_keychain.rs:15-23 | a trimmed key of at most 10 bytes masks to "********"; a longer one masks without panic exactly when bytes 6 and length − 4 both fall on character boundaries |
| Keychain.MaskKeyCountsBytes | src-tauri/src/openrouter_keychain.rs:17 | a key of seven two-byte characters, such as "ééééééé", is shown as three characters, "..." and two by the byte-counting mask, while the character-counting one hides it |
| Keychain.MaskKeyCutsCharacter | src-tauri/src/openrouter_keychain.rs:20 | five ASCII characters followed by a multi-byte one, as in "aaaaaéaaaaaa", make the byte-indexed masking panic, while the corrected one shows "aaaaaé...aaaa" |
| Keychain.Status | src-tauri/src/openrouter_keychain.rs:109-121 | configured exactly when a key was read, with its character-counting mask exactly then; a read error is passed on |
| Keychain.SetThenRead | src-tauri/src/openrouter_keychain.rs:25-86 | on the reference Keychain item, a stored key reads back trimmed; a blank key is refused and leaves the item as it was |
| Keychain.ClearThenRead | src-tauri/src/openrouter_keychain.rs:25-107 | clearing succeeds whether or not the item exists, and afterwards no key is read |
| Keychain.StatusAfterSet | src-tauri/src/openrouter_keychain.rs:58-121 | after a key is stored, the status is configured and shows the mask of the trimmed key |
| OpenRouter.ValueToF64 | src-tauri/src/openrouter_fetcher.rs:45-51 | a number gives its value and a string its parse; anything that yields no value gives 0 |
| OpenRouter.ReadKey | src-tauri/src/openrouter_fetcher.rs:53-65 | a Keychain key wins and a Keychain error is passed on; only without one is the variable read: unset gives "not set", blank gives "is empty", otherwise its trimmed value |
| OpenRouter.KeyIsTrimmed | src-tauri/src/openrouter_fetcher.rs:53-65 | whichever source it comes from, the key used is non-blank and trimmed |
| OpenRouter.Remaining | src-tauri/src/openrouter_fetcher.rs:100 | the remaining credits are never negative and cover total minus usage, being either 0 or exactly that difference |
| OpenRouter.ToCredits | src-tauri/src/openrouter_fetcher.rs:93-107 | remaining is the `Remaining` of the reported total and usage: never negative, 0 when usage exceeds the total and total − usage otherwise; a missing `data` object gives all zeros |
| OpenRouter.Authorization | src-tauri/src/openrouter_fetcher.rs:72 | the request carries the key unchanged as a bearer token |
| OpenRouter.FetchCredits | src-tauri/src/openrouter_fetcher.rs:67-108 | no request without a key; credits exactly when the response decodes; a failed status quotes the corrected 200-byte excerpt |

## Left out

- HTTP requests, headers and serde's JSON decoding of the responses are not modelled; the model starts from the decoded records. How an exchange ends is an input (`Fetch.Exchange`). Claude's and Codex's fetch wrappers around the mappings are left out. So is `read_codex_token` (file I/O).
- `cookie_reader.rs` (SQLite, Keychain access and AES decryption) is not part of this model.
- `chrono::Utc::now()` and RFC 3339 parsing: the fetch time is an input, and so are the signed whole seconds until each reset time.
- Floats are `real`s: NaN, infinities and rounding are not modelled. Parsing floats from text is an abstract function. The `{:.0}` rounding in the notification title is not modelled (`Fire` keeps the label and the percent).
- Lower-casing is ASCII-only, and the result is the same as Rust's Unicode `to_lowercase` for the "could not be found" test. That phrase has no 'k' or 'i', and those are the only ASCII letters any non-ASCII character lower-cases to.
- `String::from_utf8_lossy` is not modelled: the tool's output is taken as text.
- The reference Keychain item (`Keychain.Security`) is an assumption about the `security` tool, not part of the source: find prints the password and a newline, add with -U replaces, delete removes, and a missing item is reported as "could not be found".
- The OpenRouter modules are not declared by the app's `lib.rs`, so they are modelled on their own and not wired into `App`. `OpenRouterState`'s cache is never read or written by any code and is left out.
- Tauri plumbing:
  - `toggle_pin`, window showing, hiding and focusing are left out; show/hide is a single `ToggleWindow` effect;
  - finding the tray by id, errors from `set_title`, and errors from the autostart plugin and from notification delivery are left out;
  - `app_data_dir` failing at setup is left out.
- Menu.RadioGroups, App.ClickKeepsMenu, App.HandleKeepsMenu, App.RunKeepsMenu, App.MenuAlwaysShowsSettings: proved only for a `Menu::get` that finds the items inside the two submenus (`Menu.Lookup.ThroughSubmenus`). Tauri's lookup is not part of this model; the other reading is `Menu.Lookup.TopLevelOnly`.
- A native check item is assumed to flip its own mark on click (`Menu.NativeToggle`). With the lookup through submenus, the handler then overwrites every affected mark, so the flip is not modelled there.
- `Exit` is recorded as an effect. The model does not stop handling inputs after it.
- Mutex locking, and interleaving between the timer task, clicks and commands, are not modelled. Each input is one atomic step.
- Wall-clock sleeping is not modelled. The timer is the length of its current sleep, and each wake is an input.
- Duplicate keys in the settings JSON are not modelled (the file is a decoded map). The array form takes exactly four elements: serde rejects a shorter array as missing a field and a longer one for its trailing elements, and the model returns no settings for either.
- OpenRouter.FetchCredits: quotes the corrected excerpt (`Fetch.Excerpt`). The source's byte cut panics when byte 200 falls inside a character (see Findings and `Fetch.ExcerptCutsCharacter`).
- Keychain.Status: shows the character-counting mask (`Keychain.MaskKey`), not the byte-counting one the source calls; the two differ only on keys with multi-byte characters (see Findings and `Keychain.MaskKeyCountsBytes`).
- A non-Unicode `OPENROUTER_API_KEY` is not modelled (it reads as unset in the source).

## Findings

| source | as written | input that shows it | evidently intended | confidence | as-written member | corrected member |
|---|---|---|---|---|---|---|
| src-tauri/src/openrouter_keychain.rs:17-22 | `mask_key` measures and cuts the trimmed key in bytes, at byte 6 and at 4 bytes from the end | the key "aaaaaéaaaaaa": byte 6 falls inside "é", so the slice panics | mask by characters: show the first 6 and last 4 characters, here "aaaaaé...aaaa" | high, not executed | Keychain.MaskKeyCutsCharacter | Keychain.MaskKey |
| src-tauri/src/openrouter_keychain.rs:17 | `mask_key` hides the key when it has at most 10 bytes, not 10 characters | the key "ééééééé" (7 characters, 14 bytes) is shown as "ééé...éé" instead of "********" | hide every key of at most 10 characters | medium, not executed | Keychain.MaskKeyCountsBytes | Keychain.MaskKey |
| src-tauri/src/codex_fetcher.rs:114 | the error message cuts the response body at byte 200 | a body of 199 ASCII characters followed by "é": byte 200 falls inside "é", so the slice panics | quote the longest run of whole characters within 200 bytes | high, not executed | Fetch.ExcerptCutsCharacter | Fetch.Excerpt |
| src-tauri/src/openrouter_fetcher.rs:84 | the OpenRouter error message cuts the response body at byte 200, as the Codex one does | a body of 199 ASCII characters followed by "é": byte 200 falls inside "é", so the slice panics | quote the longest run of whole characters within 200 bytes | high, not executed | Fetch.ExcerptCutsCharacter | Fetch.Excerpt |
