/** String helpers shared by the model: decimal rendering and parsing of
    integers (Rust's `Display` and `str::parse`), whitespace trimming
    (`str::trim`), lower-casing and substring search. Strings are sequences
    of Unicode scalar values. */
module Text {
  import opened Wrappers

  predicate IsDigit(c: char) {
    '0' <= c <= '9'
  }

  predicate AllDigits(s: string) {
    forall i :: 0 <= i < |s| ==> IsDigit(s[i])
  }

  function DigitChar(d: nat): (c: char)
    requires d < 10
    ensures IsDigit(c) && c as int - '0' as int == d
  {
    (d + '0' as int) as char
  }

  function DigitValue(c: char): (d: nat)
    requires IsDigit(c)
    ensures d < 10 && DigitChar(d) == c
  {
    c as int - '0' as int
  }

  /** Decimal rendering without sign or leading zeros, as `format!("{}", n)`
      renders an unsigned integer. */
  function NatToString(n: nat): (r: string)
    ensures 0 < |r| && AllDigits(r)
    ensures (r[0] == '0') <==> n == 0
    ensures n < 10 <==> |r| == 1
    decreases n
  {
    if n < 10 then [DigitChar(n)] else NatToString(n / 10) + [DigitChar(n % 10)]
  }

  /** Rendering of a signed integer: a leading '-' for negative values. */
  function IntToString(i: int): (r: string)
    ensures i >= 0 ==> r == NatToString(i)
    ensures i < 0 <==> (0 < |r| && r[0] == '-')
  {
    if i < 0 then "-" + NatToString(-i) else NatToString(i)
  }

  /** The value of a string of decimal digits, most significant first. */
  function DigitsValue(s: string): nat
    requires AllDigits(s)
    decreases |s|
  {
    if |s| == 0 then 0 else 10 * DigitsValue(s[..|s| - 1]) + DigitValue(s[|s| - 1])
  }

  lemma {:induction false} DigitsValueOfNatToString(n: nat)
    ensures DigitsValue(NatToString(n)) == n
    decreases n
  {
    if n >= 10 {
      var s := NatToString(n);
      assert s[..|s| - 1] == NatToString(n / 10);
      DigitsValueOfNatToString(n / 10);
    }
  }

  lemma NatToStringInjective(a: nat, b: nat)
    ensures NatToString(a) == NatToString(b) ==> a == b
  {
    DigitsValueOfNatToString(a);
    DigitsValueOfNatToString(b);
  }

  /** Rust's `str::parse` for an unsigned integer type whose values are
      below `limit`: an optional single '+', then one or more ASCII digits
      (leading zeros allowed), and a value that fits the type. */
  function ParseUnsigned(s: string, limit: nat): (r: Option<nat>)
    ensures r.Some? ==> r.value < limit
    ensures r.Some? ==> 0 < |s| && (IsDigit(s[0]) || s[0] == '+')
    ensures r.Some? <==>
      var d := if 0 < |s| && s[0] == '+' then s[1..] else s;
      0 < |d| && AllDigits(d) && DigitsValue(d) < limit
    ensures r.Some? ==>
      var d := if 0 < |s| && s[0] == '+' then s[1..] else s;
      AllDigits(d) && r.value == DigitsValue(d)
  {
    var digits := if 0 < |s| && s[0] == '+' then s[1..] else s;
    if |digits| == 0 || !AllDigits(digits) then None
    else if DigitsValue(digits) < limit then Some(DigitsValue(digits))
    else None
  }

  /** Parsing undoes rendering for every value the type can hold. */
  lemma ParseNatToString(n: nat, limit: nat)
    ensures ParseUnsigned(NatToString(n), limit) == (if n < limit then Some(n) else None)
  {
    DigitsValueOfNatToString(n);
  }

  /** One leading '+' is accepted and changes nothing; a second is not. */
  lemma ParsePlusSign(n: nat, limit: nat)
    ensures ParseUnsigned("+" + NatToString(n), limit) == ParseUnsigned(NatToString(n), limit)
    ensures ParseUnsigned("++" + NatToString(n), limit) == None
  {
    var d := NatToString(n);
    assert ("+" + d)[1..] == d;
    assert ("++" + d)[1..] == "+" + d;
    assert !IsDigit(("+" + d)[0]);
  }

  /** The length of the longest all-digit prefix of `s`. */
  function LeadingDigits(s: string): (k: nat)
    ensures k <= |s| && AllDigits(s[..k])
    ensures k < |s| ==> !IsDigit(s[k])
    decreases |s|
  {
    if |s| == 0 || !IsDigit(s[0]) then 0
    else
      var k := 1 + LeadingDigits(s[1..]);
      assert s[..k] == [s[0]] + s[1..][..k - 1];
      k
  }

  /** A run of digits followed by a non-digit (or nothing) is read back whole. */
  lemma {:induction false} LeadingDigitsOfRun(d: string, rest: string)
    requires AllDigits(d)
    requires |rest| == 0 || !IsDigit(rest[0])
    ensures LeadingDigits(d + rest) == |d|
    decreases |d|
  {
    if |d| > 0 {
      assert (d + rest)[1..] == d[1..] + rest;
      LeadingDigitsOfRun(d[1..], rest);
    } else {
      assert d + rest == rest;
    }
  }

  /** Unicode White_Space, the set Rust's `char::is_whitespace` tests. */
  predicate IsWhitespace(c: char) {
    || '\t' <= c <= '\r'
    || c == ' '
    || c == '\U{0085}'
    || c == '\U{00A0}'
    || c == '\U{1680}'
    || '\U{2000}' <= c <= '\U{200A}'
    || c == '\U{2028}'
    || c == '\U{2029}'
    || c == '\U{202F}'
    || c == '\U{205F}'
    || c == '\U{3000}'
  }

  predicate AllWhitespace(s: string) {
    forall i :: 0 <= i < |s| ==> IsWhitespace(s[i])
  }

  /** How many whitespace characters `s` starts with. */
  function LeadingWhitespace(s: string): (k: nat)
    ensures k <= |s|
    ensures forall j :: 0 <= j < k ==> IsWhitespace(s[j])
    ensures k < |s| ==> !IsWhitespace(s[k])
    decreases |s|
  {
    if 0 < |s| && IsWhitespace(s[0]) then 1 + LeadingWhitespace(s[1..]) else 0
  }

  /** How many whitespace characters `s` ends with. */
  function TrailingWhitespace(s: string): (k: nat)
    ensures k <= |s|
    ensures forall j :: |s| - k <= j < |s| ==> IsWhitespace(s[j])
    ensures k < |s| ==> !IsWhitespace(s[|s| - k - 1])
    decreases |s|
  {
    if 0 < |s| && IsWhitespace(s[|s| - 1]) then 1 + TrailingWhitespace(s[..|s| - 1]) else 0
  }

  /** Rust's `str::trim`: `r` is the part of `s` left once the leading and
      trailing whitespace is cut off; it neither starts nor ends with
      whitespace, and only whitespace surrounds it in `s`. */
  function Trim(s: string): (r: string)
    ensures var i := LeadingWhitespace(s);
      && i + |r| <= |s| && r == s[i..i + |r|]
      && (forall j :: 0 <= j < i ==> IsWhitespace(s[j]))
      && (forall j :: i + |r| <= j < |s| ==> IsWhitespace(s[j]))
    ensures |r| == 0 || (!IsWhitespace(r[0]) && !IsWhitespace(r[|r| - 1]))
  {
    var t := s[LeadingWhitespace(s)..];
    t[..|t| - TrailingWhitespace(t)]
  }

  /** A string without surrounding whitespace is its own trim. */
  lemma TrimNoop(s: string)
    requires |s| == 0 || (!IsWhitespace(s[0]) && !IsWhitespace(s[|s| - 1]))
    ensures Trim(s) == s
  {
    assert LeadingWhitespace(s) == 0;
    assert s[0..] == s;
    assert TrailingWhitespace(s) == 0;
  }

  /** Trimming twice is trimming once. */
  lemma TrimIdempotent(s: string)
    ensures Trim(Trim(s)) == Trim(s)
  {
    TrimNoop(Trim(s));
  }

  /** Whitespace around a string does not change its trim. */
  lemma TrimIgnoresSurroundingWhitespace(lead: string, t: string, trail: string)
    requires AllWhitespace(lead) && AllWhitespace(trail)
    ensures Trim(lead + t + trail) == Trim(t)
  {
    var s := lead + t + trail;
    var r := Trim(t);
    var i := LeadingWhitespace(t);
    if |r| == 0 {
      assert forall j :: 0 <= j < |s| ==> IsWhitespace(s[j]) by {
        forall j | 0 <= j < |s| ensures IsWhitespace(s[j]) {
          if |lead| <= j < |lead| + |t| {
            assert s[j] == t[j - |lead|];
          }
        }
      }
      LeadingWhitespaceExact(s, |s|);
    } else {
      var k := |lead| + i;
      assert s[k..k + |r|] == t[i..i + |r|];
      TrimExact(s, k, r);
    }
  }

  /** The trim of `s` is `r` whenever `s` is `r` surrounded by whitespace
      and `r` has no whitespace at either end. */
  lemma TrimExact(s: string, k: nat, r: string)
    requires k + |r| <= |s| && s[k..k + |r|] == r
    requires forall j :: 0 <= j < k ==> IsWhitespace(s[j])
    requires forall j :: k + |r| <= j < |s| ==> IsWhitespace(s[j])
    requires 0 < |r| && !IsWhitespace(r[0]) && !IsWhitespace(r[|r| - 1])
    ensures Trim(s) == r
  {
    assert s[k] == r[0];
    LeadingWhitespaceExact(s, k);
    var t := s[k..];
    assert t[|r| - 1] == r[|r| - 1];
    TrailingWhitespaceExact(t, |t| - |r|);
    assert t[..|r|] == r;
  }

  lemma LeadingWhitespaceExact(s: string, k: nat)
    requires k <= |s|
    requires forall j :: 0 <= j < k ==> IsWhitespace(s[j])
    requires k < |s| ==> !IsWhitespace(s[k])
    ensures LeadingWhitespace(s) == k
  {
  }

  lemma TrailingWhitespaceExact(s: string, k: nat)
    requires k <= |s|
    requires forall j :: |s| - k <= j < |s| ==> IsWhitespace(s[j])
    requires k < |s| ==> !IsWhitespace(s[|s| - k - 1])
    ensures TrailingWhitespace(s) == k
  {
  }

  /** ASCII lower-casing of one character; other characters are kept. */
  function LowerChar(c: char): (d: char)
    ensures 'A' <= c <= 'Z' ==> d as int == c as int + 32
    ensures !('A' <= c <= 'Z') ==> d == c
  {
    if 'A' <= c <= 'Z' then (c as int + 32) as char else c
  }

  function ToLower(s: string): (r: string)
    ensures |r| == |s|
    ensures forall i :: 0 <= i < |s| ==> r[i] == LowerChar(s[i])
  {
    seq(|s|, i requires 0 <= i < |s| => LowerChar(s[i]))
  }

  /** Whether `sub` occurs somewhere in `s` (Rust's `str::contains`). */
  predicate Contains(s: string, sub: string)
    decreases |s|
  {
    sub <= s || (0 < |s| && Contains(s[1..], sub))
  }

  /** `Contains` holds exactly when some position starts an occurrence. */
  lemma {:induction false} ContainsAt(s: string, sub: string)
    ensures Contains(s, sub) <==> exists i :: 0 <= i <= |s| && sub <= s[i..]
    decreases |s|
  {
    if 0 < |s| {
      ContainsAt(s[1..], sub);
      if exists i :: 0 <= i <= |s| && sub <= s[i..] {
        var i :| 0 <= i <= |s| && sub <= s[i..];
        if i > 0 {
          assert s[i..] == s[1..][i - 1..];
          assert Contains(s[1..], sub);
        } else {
          assert sub <= s;
        }
        assert Contains(s, sub);
      }
      if Contains(s, sub) && !(sub <= s) {
        assert Contains(s[1..], sub);
        var i :| 0 <= i <= |s[1..]| && sub <= s[1..][i..];
        assert s[1..][i..] == s[i + 1..];
        assert sub <= s[i + 1..];
      }
      if sub <= s {
        assert s[0..] == s;
      }
    } else {
      if exists i :: 0 <= i <= |s| && sub <= s[i..] {
        var i :| 0 <= i <= |s| && sub <= s[i..];
        assert i == 0;
      }
    }
  }

  /** A string in which the first character of `sub` never occurs does not
      contain `sub`. */
  lemma {:induction false} ContainsNeedsFirstChar(s: string, sub: string)
    requires 0 < |sub|
    requires sub[0] !in s
    ensures !Contains(s, sub)
    decreases |s|
  {
    if 0 < |s| {
      if |sub| <= |s| {
        assert s[..|sub|][0] == s[0];
      }
      assert forall c :: c in s[1..] ==> c in s;
      ContainsNeedsFirstChar(s[1..], sub);
    }
  }
}
