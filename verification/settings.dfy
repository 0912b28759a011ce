/** The user preferences and the store that loads them from, and saves them
    to, `settings.json` in the application's data directory (settings.rs).

    The file is modelled by its decoded top-level JSON object; the JSON
    text syntax itself is not modelled. Writing may fail, and a failed write
    may leave any content behind (Rust's `fs::write` truncates before it
    writes), so the outcome of a write is an input. */
module SettingsStore {
  import opened Wrappers
  import opened RustInt

  datatype Settings = Settings(
    refresh_interval_secs: U64,
    notify_threshold: U32,
    notifications_enabled: bool,
    start_at_login: bool)

  /** The preferences used when there is no usable settings file. */
  function Default(): (d: Settings)
    ensures d.refresh_interval_secs == 300
    ensures d.notify_threshold == 80
    ensures d.notifications_enabled
    ensures !d.start_at_login
  {
    Settings(300, 80, true, false)
  }

  // ----- the settings file -----

  /** A JSON value as the settings decoder sees it: an integer literal, a
      boolean, or anything else (string, float, null, array, object). */
  datatype JsonValue = JInt(n: int) | JBool(b: bool) | JOther

  /** The settings file: missing, unreadable or neither a JSON object nor
      an array (`Garbled`), a JSON object, or a JSON array (serde's derived
      decoder also accepts a struct written as the array of its fields in
      declaration order). */
  datatype SettingsFile =
    | Absent
    | Garbled
    | Object(fields: map<string, JsonValue>)
    | Sequence(items: seq<JsonValue>)

  const INTERVAL_FIELD := "refresh_interval_secs"
  const THRESHOLD_FIELD := "notify_threshold"
  const ENABLED_FIELD := "notifications_enabled"
  const LOGIN_FIELD := "start_at_login"

  function DecodeUnsigned(v: JsonValue, limit: nat): (r: Option<nat>)
    ensures r.Some? <==> v.JInt? && 0 <= v.n < limit
    ensures r.Some? ==> r.value == v.n
  {
    if v.JInt? && 0 <= v.n < limit then Some(v.n) else None
  }

  function DecodeBool(v: JsonValue): (r: Option<bool>)
    ensures r.Some? <==> v.JBool?
    ensures r.Some? ==> r.value == v.b
  {
    if v.JBool? then Some(v.b) else None
  }

  /** serde's derived decoder for `Settings`: every field is required (none
      has a serde default), each must have its type and fit its width, and
      fields it does not know are ignored. */
  function Decode(fields: map<string, JsonValue>): (r: Option<Settings>)
    ensures r.Some? ==> {INTERVAL_FIELD, THRESHOLD_FIELD, ENABLED_FIELD, LOGIN_FIELD} <= fields.Keys
    ensures r.Some? ==> fields[INTERVAL_FIELD] == JInt(r.value.refresh_interval_secs)
    ensures r.Some? ==> fields[THRESHOLD_FIELD] == JInt(r.value.notify_threshold)
    ensures r.Some? ==> fields[ENABLED_FIELD] == JBool(r.value.notifications_enabled)
    ensures r.Some? ==> fields[LOGIN_FIELD] == JBool(r.value.start_at_login)
    ensures
      && INTERVAL_FIELD in fields && fields[INTERVAL_FIELD].JInt? && 0 <= fields[INTERVAL_FIELD].n < U64_LIMIT
      && THRESHOLD_FIELD in fields && fields[THRESHOLD_FIELD].JInt? && 0 <= fields[THRESHOLD_FIELD].n < U32_LIMIT
      && ENABLED_FIELD in fields && fields[ENABLED_FIELD].JBool?
      && LOGIN_FIELD in fields && fields[LOGIN_FIELD].JBool?
      ==> r.Some?
  {
    if INTERVAL_FIELD !in fields || THRESHOLD_FIELD !in fields
      || ENABLED_FIELD !in fields || LOGIN_FIELD !in fields then None
    else
      match (DecodeUnsigned(fields[INTERVAL_FIELD], U64_LIMIT), DecodeUnsigned(fields[THRESHOLD_FIELD], U32_LIMIT),
             DecodeBool(fields[ENABLED_FIELD]), DecodeBool(fields[LOGIN_FIELD]))
      case (Some(interval), Some(threshold), Some(enabled), Some(login)) =>
        Some(Settings(interval, threshold, enabled, login))
      case _ => None
  }

  /** Fields other than the four are ignored: adding one never changes
      what an object decodes to. */
  lemma ExtraFieldIgnored(fields: map<string, JsonValue>, name: string, v: JsonValue)
    requires name !in {INTERVAL_FIELD, THRESHOLD_FIELD, ENABLED_FIELD, LOGIN_FIELD}
    ensures Decode(fields[name := v]) == Decode(fields)
  {
    var g := fields[name := v];
    assert forall k :: k in {INTERVAL_FIELD, THRESHOLD_FIELD, ENABLED_FIELD, LOGIN_FIELD} ==> (k in g <==> k in fields);
    assert INTERVAL_FIELD in g ==> g[INTERVAL_FIELD] == fields[INTERVAL_FIELD];
    assert THRESHOLD_FIELD in g ==> g[THRESHOLD_FIELD] == fields[THRESHOLD_FIELD];
    assert ENABLED_FIELD in g ==> g[ENABLED_FIELD] == fields[ENABLED_FIELD];
    assert LOGIN_FIELD in g ==> g[LOGIN_FIELD] == fields[LOGIN_FIELD];
  }

  /** serde's decoder for the array form: exactly four elements, the
      fields in declaration order, each of its type and width (a shorter
      array lacks a field, a longer one has trailing elements). */
  function DecodeSequence(items: seq<JsonValue>): (r: Option<Settings>)
    ensures r.Some? <==>
      && |items| == 4
      && items[0].JInt? && 0 <= items[0].n < U64_LIMIT
      && items[1].JInt? && 0 <= items[1].n < U32_LIMIT
      && items[2].JBool? && items[3].JBool?
    ensures r.Some? ==>
      items == [JInt(r.value.refresh_interval_secs), JInt(r.value.notify_threshold),
                JBool(r.value.notifications_enabled), JBool(r.value.start_at_login)]
  {
    if |items| != 4 then None
    else
      match (DecodeUnsigned(items[0], U64_LIMIT), DecodeUnsigned(items[1], U32_LIMIT),
             DecodeBool(items[2]), DecodeBool(items[3]))
      case (Some(interval), Some(threshold), Some(enabled), Some(login)) =>
        Some(Settings(interval, threshold, enabled, login))
      case _ => None
  }

  /** The array form decodes exactly as the object naming its elements in
      declaration order. */
  lemma SequenceAsObject(a: JsonValue, b: JsonValue, c: JsonValue, d: JsonValue)
    ensures DecodeSequence([a, b, c, d]) ==
      Decode(map[INTERVAL_FIELD := a, THRESHOLD_FIELD := b, ENABLED_FIELD := c, LOGIN_FIELD := d])
  {
    var fields := map[INTERVAL_FIELD := a, THRESHOLD_FIELD := b, ENABLED_FIELD := c, LOGIN_FIELD := d];
    assert fields[INTERVAL_FIELD] == a && fields[THRESHOLD_FIELD] == b;
    assert fields[ENABLED_FIELD] == c && fields[LOGIN_FIELD] == d;
  }

  /** A file holding the array `[600, 90, false, true]` loads those
      values. */
  lemma ArrayFileLoads()
    ensures New(Sequence([JInt(600), JInt(90), JBool(false), JBool(true)])).settings == Settings(600, 90, false, true)
  {
    SequenceAsObject(JInt(600), JInt(90), JBool(false), JBool(true));
  }

  /** The object `serde_json::to_string_pretty` writes for `s`: the four
      fields and nothing else, decoding back to `s`. */
  function Encode(s: Settings): (r: map<string, JsonValue>)
    ensures r.Keys == {INTERVAL_FIELD, THRESHOLD_FIELD, ENABLED_FIELD, LOGIN_FIELD}
    ensures Decode(r) == Some(s)
  {
    map[INTERVAL_FIELD := JInt(s.refresh_interval_secs),
        THRESHOLD_FIELD := JInt(s.notify_threshold),
        ENABLED_FIELD := JBool(s.notifications_enabled),
        LOGIN_FIELD := JBool(s.start_at_login)]
  }

  /** `load_from`: the settings the file holds, if it holds usable ones. */
  function LoadFrom(file: SettingsFile): (r: Option<Settings>)
    ensures file.Absent? || file.Garbled? ==> r.None?
    ensures r.Some? && file.Object? ==>
      forall k :: k in Encode(r.value) ==> k in file.fields && file.fields[k] == Encode(r.value)[k]
    ensures r.Some? && file.Sequence? ==>
      file.items == [Encode(r.value)[INTERVAL_FIELD], Encode(r.value)[THRESHOLD_FIELD],
                     Encode(r.value)[ENABLED_FIELD], Encode(r.value)[LOGIN_FIELD]]
  {
    match file
    case Absent => None
    case Garbled => None
    case Object(fields) => Decode(fields)
    case Sequence(items) => DecodeSequence(items)
  }

  /** Loading a file that was written by a save gives back the saved value,
      field for field. */
  lemma SaveLoadRoundTrip(s: Settings)
    ensures LoadFrom(Object(Encode(s))) == Some(s)
  {
  }

  /** A missing or unusable file, including an object lacking any one field,
      yields no settings, so `New` falls back to the defaults. */
  lemma MissingFieldMeansDefault(fields: map<string, JsonValue>, name: string)
    requires name in {INTERVAL_FIELD, THRESHOLD_FIELD, ENABLED_FIELD, LOGIN_FIELD}
    requires name !in fields
    ensures New(Object(fields)).settings == Default()
  {
  }

  // ----- the store -----

  /** The in-memory settings next to what the file currently holds. */
  datatype Store = Store(settings: Settings, file: SettingsFile)

  /** `SettingsState::new`: load, or fall back to the defaults without
      writing them back. */
  function New(file: SettingsFile): (st: Store)
    ensures st.file == file
    ensures LoadFrom(file).None? ==> st.settings == Default()
    ensures LoadFrom(file).Some? ==> st.settings == LoadFrom(file).value
  {
    Store(LoadFrom(file).GetOr(Default()), file)
  }

  /** What happens when the file is written: it succeeds, or it fails with a
      message and leaves some content behind. */
  datatype WriteOutcome = Written | WriteFailed(message: string, residue: SettingsFile)

  datatype Saved = Saved(store: Store, result: Result<(), string>)

  /** `save`: write the in-memory settings to the file. */
  function Save(st: Store, w: WriteOutcome): (s: Saved)
    ensures s.store.settings == st.settings
    ensures s.result.Ok? <==> w.Written?
    ensures w.Written? ==> LoadFrom(s.store.file) == Some(st.settings)
    ensures w.WriteFailed? ==> s.result == Err(w.message) && s.store.file == w.residue
  {
    match w
    case Written => Saved(Store(st.settings, Object(Encode(st.settings))), Ok(()))
    case WriteFailed(message, residue) => Saved(Store(st.settings, residue), Err(message))
  }

  datatype Updated = Updated(store: Store, result: Result<Settings, string>)

  /** `update`: apply `f` to the in-memory settings first, then save. The
      mutation stays in memory whether or not the save succeeds. */
  function Update(st: Store, f: Settings -> Settings, w: WriteOutcome): (u: Updated)
    ensures u.store.settings == f(st.settings)
    ensures w.Written? ==> u.result == Ok(f(st.settings)) && LoadFrom(u.store.file) == Some(f(st.settings))
    ensures w.WriteFailed? ==> u.result == Err(w.message) && u.store.file == w.residue
  {
    var mutated := Store(f(st.settings), st.file);
    var saved := Save(mutated, w);
    match saved.result
    case Ok(_) => Updated(saved.store, Ok(saved.store.settings))
    case Err(e) => Updated(saved.store, Err(e))
  }

  /** `get`: a copy of the in-memory settings. */
  function Get(st: Store): (r: Settings)
    ensures r == st.settings
  {
    st.settings
  }

  /** After an update, `get` sees the mutated value, whether the save
      succeeded or not; on success it is also the value returned. */
  lemma GetAfterUpdate(st: Store, f: Settings -> Settings, w: WriteOutcome)
    ensures Get(Update(st, f, w).store) == f(Get(st))
    ensures Update(st, f, w).result.Ok? ==> Update(st, f, w).result.value == Get(Update(st, f, w).store)
  {
  }

  /** An update with a closure that changes nothing leaves the in-memory
      settings as they were, and a successful one makes the file agree. */
  lemma NoOpUpdate(st: Store, w: WriteOutcome)
    ensures Update(st, s => s, w).store.settings == st.settings
    ensures w.Written? ==> LoadFrom(Update(st, s => s, w).store.file) == Some(st.settings)
  {
  }

  /** A failed save does not roll back: memory holds the mutation while a
      restart would load whatever the failed write left behind. Here the
      residue is the old, valid file, so memory and disk disagree. */
  lemma FailedUpdateDiverges(prev: Settings, message: string)
    requires !prev.start_at_login
    ensures var st := Store(prev, Object(Encode(prev)));
            var f := (s: Settings) => s.(start_at_login := true);
            var u := Update(st, f, WriteFailed(message, st.file));
            && u.result.Err?
            && Get(u.store).start_at_login
            && New(u.store.file).settings == prev
  {
  }
}
