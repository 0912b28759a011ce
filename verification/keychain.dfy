/** The OpenRouter API key kept in the macOS Keychain through the
    `security` command-line tool (openrouter_keychain.rs): how the outcome
    of each `security` run is read, the masked form of the key shown to the
    user, and the key's status.

    Running `security` is an input: it either could not be started (an
    error message) or it ran and gave an exit status and its output (as
    text; the lossy UTF-8 decoding is not modelled). To state round trips,
    a reference model of the one Keychain item involved is given as well;
    it is an assumption about `security`, not something the source
    contains. */
module Keychain {
  import opened Wrappers
  import opened Text
  import opened Utf8

  const SERVICE := "com.israelmirsky.claude-codex-usage.openrouter"
  const ACCOUNT := "openrouter_api_key"

  /** What a run of `security` produced. */
  datatype CommandOutput = CommandOutput(success: bool, stdout: string, stderr: string)

  function FindArgs(): seq<string> {
    ["find-generic-password", "-a", ACCOUNT, "-s", SERVICE, "-w"]
  }

  function AddArgs(key: string): seq<string> {
    ["add-generic-password", "-a", ACCOUNT, "-s", SERVICE, "-w", key, "-U"]
  }

  function DeleteArgs(): seq<string> {
    ["delete-generic-password", "-a", ACCOUNT, "-s", SERVICE]
  }

  const NOT_FOUND := "could not be found"

  /** Whether the error output reports a missing item, in any letter case.
      Only ASCII letters are lower-cased: the phrase has no letter that a
      non-ASCII character lower-cases to. */
  predicate SaysNotFound(stderr: string) {
    Contains(ToLower(stderr), NOT_FOUND)
  }

  // ----- reading the outcome of each operation -----

  /** `read_openrouter_api_key`: the trimmed password when `security`
      succeeds with a non-blank one; no key when it succeeds with a blank
      one or reports a missing item; an error otherwise. */
  function ReadKey(run: Result<CommandOutput, string>): (r: Result<Option<string>, string>)
    ensures run.Err? ==> r == Err("Failed to query macOS Keychain: " + run.error)
    ensures run.Ok? && run.value.success ==>
      r == Ok(if Trim(run.value.stdout) == "" then None else Some(Trim(run.value.stdout)))
    ensures run.Ok? && !run.value.success ==>
      (r.Ok? <==> SaysNotFound(run.value.stderr)) && (r.Ok? ==> r.value.None?)
    ensures r.Ok? && r.value.Some? ==> r.value.value != "" && Trim(r.value.value) == r.value.value
  {
    match run
    case Err(e) => Err("Failed to query macOS Keychain: " + e)
    case Ok(out) =>
      if out.success then
        var key := Trim(out.stdout);
        TrimIdempotent(out.stdout);
        if key == "" then Ok(None) else Ok(Some(key))
      else if SaysNotFound(out.stderr) then Ok(None)
      else Err("Failed to read OpenRouter key from Keychain: " + Trim(out.stderr))
  }

  /** What `set_openrouter_api_key` runs, if anything: a blank key is
      refused before `security` is started; otherwise the trimmed key is
      stored, replacing any existing one. */
  function SetArgs(api_key: string): (r: Result<seq<string>, string>)
    ensures r.Err? <==> Trim(api_key) == ""
    ensures r.Err? ==> r.error == "API key cannot be empty"
    ensures r.Ok? ==> |r.value| == 8 && r.value[6] == Trim(api_key) && r.value[7] == "-U"
  {
    var key := Trim(api_key);
    if key == "" then Err("API key cannot be empty") else Ok(AddArgs(key))
  }

  /** `set_openrouter_api_key`, given how the run of `security` went. */
  function SetKey(api_key: string, run: Result<CommandOutput, string>): (r: Result<(), string>)
    ensures Trim(api_key) == "" ==> r == Err("API key cannot be empty")
    ensures Trim(api_key) != "" ==> (r.Ok? <==> run.Ok? && run.value.success)
    ensures Trim(api_key) != "" && run.Err? ==> r == Err("Failed to write to macOS Keychain: " + run.error)
  {
    match SetArgs(api_key)
    case Err(e) => Err(e)
    case Ok(_) =>
      match run
      case Err(e) => Err("Failed to write to macOS Keychain: " + e)
      case Ok(out) =>
        if out.success then Ok(())
        else Err("Failed to save OpenRouter key to Keychain: " + Trim(out.stderr))
  }

  /** `clear_openrouter_api_key`: a missing item counts as cleared. */
  function ClearKey(run: Result<CommandOutput, string>): (r: Result<(), string>)
    ensures run.Err? ==> r == Err("Failed to delete from macOS Keychain: " + run.error)
    ensures run.Ok? ==> (r.Ok? <==> run.value.success || SaysNotFound(run.value.stderr))
  {
    match run
    case Err(e) => Err("Failed to delete from macOS Keychain: " + e)
    case Ok(out) =>
      if out.success || SaysNotFound(out.stderr) then Ok(())
      else Err("Failed to clear OpenRouter key from Keychain: " + Trim(out.stderr))
  }

  // ----- the masked key -----

  const MASKED := "********"
  const ELLIPSIS := "..."

  /** `mask_key` as written: lengths and cuts are in bytes, and a cut that
      falls inside a character panics (`None`). */
  function MaskKeyAsWritten(key: string): (r: Option<string>)
    ensures ByteLen(Trim(key)) <= 10 ==> r == Some(MASKED)
    ensures var t := Trim(key); var n := ByteLen(t);
      n > 10 ==>
        (r.Some? <==>
          (exists i :: 0 <= i <= |t| && ByteLen(t[..i]) == 6) &&
          (exists j :: 0 <= j <= |t| && ByteLen(t[..j]) == n - 4))
  {
    var t := Trim(key);
    var n := ByteLen(t);
    BoundaryExact(t, 6);
    BoundaryExact(t, if n >= 4 then n - 4 else 0);
    if n <= 10 then Some(MASKED)
    else
      match (SliceTo(t, 6), SliceFrom(t, n - 4))
      case (Some(start), Some(end)) => Some(start + ELLIPSIS + end)
      case _ => None
  }

  /** The masked key as intended: a key of at most 10 characters is fully
      hidden; a longer one shows its first 6 and last 4 characters around
      "...". */
  function MaskKey(key: string): (r: string)
    ensures |Trim(key)| <= 10 ==> r == MASKED
    ensures |Trim(key)| > 10 ==> |r| == 13 && r[6..9] == ELLIPSIS
  {
    var t := Trim(key);
    if |t| <= 10 then MASKED else t[..6] + ELLIPSIS + t[|t| - 4..]
  }

  /** The masked key reveals nothing of the middle of the key: keys that
      agree on their first 6 and last 4 characters after trimming mask
      alike, and a long key's mask shows exactly those characters. */
  lemma MaskShowsOnlyTheEnds(a: string, b: string)
    requires |Trim(a)| > 10 && |Trim(b)| > 10
    requires Trim(a)[..6] == Trim(b)[..6]
    requires Trim(a)[|Trim(a)| - 4..] == Trim(b)[|Trim(b)| - 4..]
    ensures MaskKey(a) == MaskKey(b)
    ensures MaskKey(a)[..6] == Trim(a)[..6] && MaskKey(a)[9..] == Trim(a)[|Trim(a)| - 4..]
  {
    var t := Trim(a);
    assert (t[..6] + ELLIPSIS + t[|t| - 4..])[9..] == t[|t| - 4..];
  }

  /** Whitespace around a key does not change its mask. */
  lemma MaskIgnoresWhitespace(lead: string, key: string, trail: string)
    requires AllWhitespace(lead) && AllWhitespace(trail)
    ensures MaskKey(lead + key + trail) == MaskKey(key)
  {
    TrimIgnoresSurroundingWhitespace(lead, key, trail);
  }

  /** For an ASCII key, the masking as written never panics and is the
      intended one. */
  lemma AsciiMaskAgrees(key: string)
    requires IsAscii(Trim(key))
    ensures MaskKeyAsWritten(key) == Some(MaskKey(key))
  {
    var t := Trim(key);
    ByteLenAtLeastLength(t);
    if |t| > 10 {
      AsciiBoundary(t, 6);
      AsciiBoundary(t, |t| - 4);
    }
  }

  /** Byte 6 of five ASCII characters followed by a character of two or
      more bytes falls inside that character, and with four more ASCII
      characters the string has more than 10 bytes. */
  lemma WideSixthCharacter(p: string, c: char, rest: string)
    requires IsAscii(p) && |p| == 5 && Width(c) >= 2
    requires 4 <= |rest| && IsAscii(rest)
    ensures SliceTo(p + ([c] + rest), 6) == None
    ensures ByteLen(p + ([c] + rest)) > 10
  {
    ByteLenAtLeastLength(p);
    ByteLenAtLeastLength(rest);
    ByteLenConcat(p, [c] + rest);
    assert ([c] + rest)[1..] == rest;
    BoundaryAfterAscii(p, [c] + rest, 6);
  }

  /** Five ASCII characters followed by one of two or more bytes (such as
      "aaaaaéaaaaaa") put byte 6 inside that character: the masking as
      written panics, while the intended one shows "aaaaaé...aaaa". */
  lemma MaskKeyCutsCharacter(p: string, c: char, rest: string)
    requires IsAscii(p) && |p| == 5 && Width(c) >= 2
    requires 5 <= |rest| && IsAscii(rest)
    requires !IsWhitespace(p[0]) && !IsWhitespace(rest[|rest| - 1])
    ensures MaskKeyAsWritten(p + [c] + rest) == None
    ensures MaskKey(p + [c] + rest) == p + [c] + ELLIPSIS + rest[|rest| - 4..]
  {
    var key := p + ([c] + rest);
    assert p + [c] + rest == key;
    assert key[0] == p[0] && key[|key| - 1] == rest[|rest| - 1];
    TrimNoop(key);
    WideSixthCharacter(p, c, rest);
    assert key[..6] == p + [c];
    assert key[|key| - 4..] == rest[|rest| - 4..];
  }

  /** `OpenRouterKeyStatus`. */
  datatype KeyStatus = KeyStatus(configured: bool, masked_key: Option<string>)

  /** The masking as written also counts bytes where characters are meant:
      a key of seven two-byte characters such as "ééééééé" has 14 bytes, so
      it is not hidden but shown as three characters, "...", and two, while
      at 7 characters the intended masking hides it. */
  lemma MaskKeyCountsBytes(c: char)
    requires Width(c) == 2 && !IsWhitespace(c)
    ensures var key := [c, c, c, c, c, c, c];
      && MaskKeyAsWritten(key) == Some([c, c, c] + ELLIPSIS + [c, c])
      && MaskKey(key) == MASKED
  {
    var key := [c, c, c, c, c, c, c];
    TrimNoop(key);
    ByteLenUniform(key, 2);
    ByteLenUniform(key[..3], 2);
    BoundaryComplete(key, 3);
    ByteLenUniform(key[..5], 2);
    BoundaryComplete(key, 5);
    assert key[..3] == [c, c, c];
    assert key[5..] == [c, c];
  }

  /** `get_openrouter_key_status`: configured exactly when a key was read,
      with its masked form; a read error is passed on. */
  function Status(read: Result<Option<string>, string>): (r: Result<KeyStatus, string>)
    ensures read.Err? ==> r == Err(read.error)
    ensures read.Ok? ==> r.Ok? && (r.value.configured <==> read.value.Some?)
    ensures read.Ok? ==> (r.value.masked_key.Some? <==> read.value.Some?)
    ensures read.Ok? && read.value.Some? ==> r.value.masked_key == Some(MaskKey(read.value.value))
  {
    match read
    case Err(e) => Err(e)
    case Ok(None) => Ok(KeyStatus(false, None))
    case Ok(Some(raw)) => Ok(KeyStatus(true, Some(MaskKey(raw))))
  }

  // ----- a reference model of the Keychain item -----

  /** The error output of `security` for a missing item. */
  const MISSING_ITEM := "security: SecKeychainSearchCopyNext: The specified item " + NOT_FOUND + " in the keychain."

  /** The one Keychain item's password, if the item exists. */
  type Item = Option<string>

  datatype Ran = Ran(item: Item, output: CommandOutput)

  /** The assumed behaviour of `security` on the item: find prints the
      password and a newline, add with "-U" creates or replaces it, delete
      removes it, and finding or deleting a missing item fails. */
  function Security(item: Item, args: seq<string>): Ran {
    if args == FindArgs() then
      match item
      case Some(password) => Ran(item, CommandOutput(true, password + "\n", ""))
      case None => Ran(item, CommandOutput(false, "", MISSING_ITEM))
    else if |args| == 8 && args == AddArgs(args[6]) then
      Ran(Some(args[6]), CommandOutput(true, "", ""))
    else if args == DeleteArgs() then
      match item
      case Some(_) => Ran(None, CommandOutput(true, "", ""))
      case None => Ran(None, CommandOutput(false, "", MISSING_ITEM))
    else Ran(item, CommandOutput(false, "", "security: unknown command"))
  }

  function ReadFrom(item: Item): Result<Option<string>, string> {
    ReadKey(Ok(Security(item, FindArgs()).output))
  }

  /** Setting the key: the item afterwards and the outcome. */
  function SetIn(item: Item, api_key: string): (Item, Result<(), string>) {
    match SetArgs(api_key)
    case Err(e) => (item, Err(e))
    case Ok(args) =>
      var ran := Security(item, args);
      (ran.item, SetKey(api_key, Ok(ran.output)))
  }

  function ClearIn(item: Item): (Item, Result<(), string>) {
    var ran := Security(item, DeleteArgs());
    (ran.item, ClearKey(Ok(ran.output)))
  }

  lemma MissingItemIsNotFound()
    ensures SaysNotFound(MISSING_ITEM)
  {
    var prefix := "security: SecKeychainSearchCopyNext: The specified item ";
    var suffix := " in the keychain.";
    assert MISSING_ITEM == prefix + NOT_FOUND + suffix;
    var lowered := ToLower(MISSING_ITEM);
    assert lowered[|prefix|..|prefix| + |NOT_FOUND|] == NOT_FOUND;
    ContainsAt(lowered, NOT_FOUND);
    assert NOT_FOUND <= lowered[|prefix|..];
  }

  /** A key that was set successfully reads back trimmed; a blank key is
      refused and leaves the Keychain as it was. */
  lemma SetThenRead(item: Item, api_key: string)
    ensures Trim(api_key) != "" ==>
      SetIn(item, api_key).1 == Ok(()) && ReadFrom(SetIn(item, api_key).0) == Ok(Some(Trim(api_key)))
    ensures Trim(api_key) == "" ==>
      SetIn(item, api_key) == (item, Err("API key cannot be empty"))
  {
    var key := Trim(api_key);
    if key != "" {
      var args := AddArgs(key);
      assert SetArgs(api_key) == Ok(args);
      assert args != FindArgs() by { assert |args| != |FindArgs()|; }
      assert args[6] == key;
      assert Security(item, args) == Ran(Some(key), CommandOutput(true, "", ""));
      assert SetIn(item, api_key) == (Some(key), Ok(()));
      assert Security(Some(key), FindArgs()).output == CommandOutput(true, key + "\n", "");
      TrimIdempotent(api_key);
      TrimIgnoresSurroundingWhitespace([], key, "\n");
      assert [] + key + "\n" == key + "\n";
      assert Trim(key + "\n") == key;
    }
  }

  /** Clearing always succeeds on the item, present or not, and leaves no
      key to read. */
  lemma ClearThenRead(item: Item)
    ensures ClearIn(item).1 == Ok(())
    ensures ReadFrom(ClearIn(item).0) == Ok(None)
  {
    MissingItemIsNotFound();
    assert DeleteArgs() != FindArgs();
  }

  /** After setting a key, its status is configured and shows the key
      masked. */
  lemma StatusAfterSet(item: Item, api_key: string)
    requires Trim(api_key) != ""
    ensures Status(ReadFrom(SetIn(item, api_key).0)) == Ok(KeyStatus(true, Some(MaskKey(Trim(api_key)))))
  {
    SetThenRead(item, api_key);
  }
}
