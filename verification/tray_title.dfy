/** The tray title built by `update_tray_text` (lib.rs): "C:{s}/{w}%" for
    Claude and "X:{s}/{w}%" for Codex, each shown only when both of its
    values are known (not negative), joined by two spaces, or
    "Usage: --%" when neither is shown. A parser for the title is the
    partner that shows no information is lost or invented. */
module TrayTitle {
  import opened Wrappers
  import opened Text
  import opened RustInt

  const EMPTY_TITLE := "Usage: --%"
  const SEPARATOR := "  "

  /** "{tag}:{session}/{weekly}%". */
  function Part(tag: char, session: nat, weekly: nat): (r: string)
    ensures 6 <= |r| && r[0] == tag && r[1] == ':' && r[|r| - 1] == '%'
  {
    [tag, ':'] + NatToString(session) + "/" + NatToString(weekly) + "%"
  }

  predicate Known(session: int, weekly: int) {
    session >= 0 && weekly >= 0
  }

  /** The title text for the four percentages (negative means unknown). */
  function TrayText(claude_session: I32, claude_weekly: I32, codex_session: I32, codex_weekly: I32): (r: string)
    ensures Known(claude_session, claude_weekly) ==> Part('C', claude_session, claude_weekly) <= r
    ensures Known(codex_session, codex_weekly) ==>
      var x := Part('X', codex_session, codex_weekly);
      |x| <= |r| && r[|r| - |x|..] == x
    ensures Known(claude_session, claude_weekly) && Known(codex_session, codex_weekly) ==>
      r == Part('C', claude_session, claude_weekly) + SEPARATOR + Part('X', codex_session, codex_weekly)
    ensures r == EMPTY_TITLE <==> !Known(claude_session, claude_weekly) && !Known(codex_session, codex_weekly)
  {
    var claude := Known(claude_session, claude_weekly);
    var codex := Known(codex_session, codex_weekly);
    if claude && codex then Part('C', claude_session, claude_weekly) + SEPARATOR + Part('X', codex_session, codex_weekly)
    else if claude then Part('C', claude_session, claude_weekly)
    else if codex then Part('X', codex_session, codex_weekly)
    else EMPTY_TITLE
  }

  // ----- reading a title back -----

  datatype PartValue = PartValue(session: nat, weekly: nat, rest: string)

  /** Reads a non-empty run of digits ended by `stop` off the front of `t`,
      giving its value and what follows `stop`. */
  function ParseRun(t: string, stop: char): Option<(nat, string)> {
    var k := LeadingDigits(t);
    if k == 0 || k == |t| || t[k] != stop then None
    else Some((DigitsValue(t[..k]), t[k + 1..]))
  }

  lemma ParseRunOfDigits(d: string, stop: char, rest: string)
    requires 0 < |d| && AllDigits(d) && !IsDigit(stop)
    ensures ParseRun(d + [stop] + rest, stop) == Some((DigitsValue(d), rest))
  {
    var t := d + [stop] + rest;
    assert t == d + ([stop] + rest);
    LeadingDigitsOfRun(d, [stop] + rest);
    assert t[..|d|] == d;
    assert t[|d| + 1..] == rest;
  }

  /** Reads "{tag}:{digits}/{digits}%" off the front of `s`. */
  function ParsePart(s: string, tag: char): Option<PartValue> {
    if |s| < 2 || s[0] != tag || s[1] != ':' then None
    else
      match ParseRun(s[2..], '/')
      case None => None
      case Some((session, after)) =>
        match ParseRun(after, '%')
        case None => None
        case Some((weekly, rest)) => Some(PartValue(session, weekly, rest))
  }

  /** A tagged pair of digit runs is read back with whatever follows it. */
  lemma ParseDigitRuns(tag: char, a: string, b: string, rest: string)
    requires 0 < |a| && AllDigits(a)
    requires 0 < |b| && AllDigits(b)
    ensures ParsePart([tag, ':'] + a + "/" + b + "%" + rest, tag) == Some(PartValue(DigitsValue(a), DigitsValue(b), rest))
  {
    var s := [tag, ':'] + a + "/" + b + "%" + rest;
    assert s[2..] == a + ['/'] + (b + ['%'] + rest);
    ParseRunOfDigits(a, '/', b + ['%'] + rest);
    ParseRunOfDigits(b, '%', rest);
  }

  lemma ParsePartOfPart(tag: char, session: nat, weekly: nat, rest: string)
    ensures ParsePart(Part(tag, session, weekly) + rest, tag) == Some(PartValue(session, weekly, rest))
  {
    ParseDigitRuns(tag, NatToString(session), NatToString(weekly), rest);
    DigitsValueOfNatToString(session);
    DigitsValueOfNatToString(weekly);
  }

  /** What a title shows: the Claude and the Codex pair, when present. */
  datatype Shown = Shown(claude: Option<(nat, nat)>, codex: Option<(nat, nat)>)

  function ParseTitle(r: string): Option<Shown> {
    if r == EMPTY_TITLE then Some(Shown(None, None))
    else
      match ParsePart(r, 'C')
      case Some(c) =>
        if c.rest == [] then Some(Shown(Some((c.session, c.weekly)), None))
        else if SEPARATOR <= c.rest then
          match ParsePart(c.rest[2..], 'X')
          case Some(x) =>
            if x.rest == [] then Some(Shown(Some((c.session, c.weekly)), Some((x.session, x.weekly)))) else None
          case None => None
        else None
      case None =>
        match ParsePart(r, 'X')
        case Some(x) => if x.rest == [] then Some(Shown(None, Some((x.session, x.weekly)))) else None
        case None => None
  }

  lemma ParseBoth(a: nat, b: nat, c: nat, d: nat)
    ensures ParseTitle(Part('C', a, b) + SEPARATOR + Part('X', c, d)) == Some(Shown(Some((a, b)), Some((c, d))))
  {
    var x := Part('X', c, d);
    var r := Part('C', a, b) + (SEPARATOR + x);
    assert r == Part('C', a, b) + SEPARATOR + x;
    assert r[0] == 'C';
    assert r != EMPTY_TITLE by { assert EMPTY_TITLE[0] == 'U'; }
    ParsePartOfPart('C', a, b, SEPARATOR + x);
    var tail := SEPARATOR + x;
    assert SEPARATOR <= tail;
    assert tail[2..] == x + [];
    ParsePartOfPart('X', c, d, []);
  }

  lemma ParseOne(tag: char, a: nat, b: nat)
    requires tag == 'C' || tag == 'X'
    ensures ParseTitle(Part(tag, a, b)) ==
      Some(if tag == 'C' then Shown(Some((a, b)), None) else Shown(None, Some((a, b))))
  {
    var r := Part(tag, a, b);
    assert r == r + [];
    ParsePartOfPart(tag, a, b, []);
  }

  /** Reading the title back recovers exactly which pairs were shown and
      their values. */
  lemma TitleRoundTrip(claude_session: I32, claude_weekly: I32, codex_session: I32, codex_weekly: I32)
    ensures ParseTitle(TrayText(claude_session, claude_weekly, codex_session, codex_weekly)) ==
      Some(Shown(
        if Known(claude_session, claude_weekly) then Some((claude_session as nat, claude_weekly as nat)) else None,
        if Known(codex_session, codex_weekly) then Some((codex_session as nat, codex_weekly as nat)) else None))
  {
    if Known(claude_session, claude_weekly) && Known(codex_session, codex_weekly) {
      ParseBoth(claude_session, claude_weekly, codex_session, codex_weekly);
    } else if Known(claude_session, claude_weekly) {
      ParseOne('C', claude_session, claude_weekly);
    } else if Known(codex_session, codex_weekly) {
      ParseOne('X', codex_session, codex_weekly);
    }
  }

  /** After its tag, a part holds only digits and ':', '/' and '%'. */
  lemma PartChars(tag: char, session: nat, weekly: nat)
    ensures var r := Part(tag, session, weekly);
      forall i :: 0 < i < |r| ==> IsDigit(r[i]) || r[i] in ":/%"
  {
    var a := NatToString(session);
    var b := NatToString(weekly);
    var r := Part(tag, session, weekly);
    forall i | 0 < i < |r|
      ensures IsDigit(r[i]) || r[i] in ":/%"
    {
      if 2 <= i < 2 + |a| {
        assert r[i] == a[i - 2];
      } else if 3 + |a| <= i < 3 + |a| + |b| {
        assert r[i] == b[i - 3 - |a|];
      }
    }
  }

  lemma MentionsBoth(a: nat, b: nat, c: nat, d: nat)
    ensures Contains(Part('C', a, b) + SEPARATOR + Part('X', c, d), "C:")
    ensures Contains(Part('C', a, b) + SEPARATOR + Part('X', c, d), "X:")
  {
    var x := Part('X', c, d);
    var r := Part('C', a, b) + SEPARATOR + x;
    assert "C:" <= r;
    ContainsAt(r, "X:");
    assert r[|r| - |x|..] == x;
    assert "X:" <= r[|r| - |x|..];
  }

  lemma MentionsOne(tag: char, other: char, a: nat, b: nat)
    requires !IsDigit(other) && other !in ":/%" && other != tag
    ensures Contains(Part(tag, a, b), [tag, ':'])
    ensures !Contains(Part(tag, a, b), [other, ':'])
  {
    assert [tag, ':'] <= Part(tag, a, b);
    PartChars(tag, a, b);
    assert Part(tag, a, b)[0] == tag;
    ContainsNeedsFirstChar(Part(tag, a, b), [other, ':']);
  }

  lemma MentionsNone()
    ensures !Contains(EMPTY_TITLE, "C:") && !Contains(EMPTY_TITLE, "X:")
  {
    ContainsNeedsFirstChar(EMPTY_TITLE, "C:");
    ContainsNeedsFirstChar(EMPTY_TITLE, "X:");
  }

  /** The title mentions "C:" exactly when both Claude values are known,
      and "X:" exactly when both Codex values are. */
  lemma TitleMentionsProvider(claude_session: I32, claude_weekly: I32, codex_session: I32, codex_weekly: I32)
    ensures Contains(TrayText(claude_session, claude_weekly, codex_session, codex_weekly), "C:")
            <==> Known(claude_session, claude_weekly)
    ensures Contains(TrayText(claude_session, claude_weekly, codex_session, codex_weekly), "X:")
            <==> Known(codex_session, codex_weekly)
  {
    if Known(claude_session, claude_weekly) && Known(codex_session, codex_weekly) {
      MentionsBoth(claude_session, claude_weekly, codex_session, codex_weekly);
    } else if Known(claude_session, claude_weekly) {
      MentionsOne('C', 'X', claude_session, claude_weekly);
    } else if Known(codex_session, codex_weekly) {
      MentionsOne('X', 'C', codex_session, codex_weekly);
    } else {
      MentionsNone();
    }
  }
}
