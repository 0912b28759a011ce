/** Rust strings are UTF-8 bytes: `len()` counts bytes and `&s[..b]`,
    `&s[b..]` cut at a byte offset, panicking unless the offset falls
    between two characters. This module models a string as its characters
    and measures it in the bytes UTF-8 gives each one. */
module Utf8 {
  import opened Wrappers

  /** The number of bytes UTF-8 uses for `c`. */
  function Width(c: char): (w: nat)
    ensures 1 <= w <= 4
    ensures w == 1 <==> (c as int) < 0x80
  {
    if (c as int) < 0x80 then 1
    else if (c as int) < 0x800 then 2
    else if (c as int) < 0x1_0000 then 3
    else 4
  }

  /** Rust's `str::len`: the length in bytes. */
  function ByteLen(s: string): nat
    decreases |s|
  {
    if |s| == 0 then 0 else Width(s[0]) + ByteLen(s[1..])
  }

  predicate IsAscii(s: string) {
    forall i :: 0 <= i < |s| ==> (s[i] as int) < 0x80
  }

  lemma {:induction false} ByteLenConcat(a: string, b: string)
    ensures ByteLen(a + b) == ByteLen(a) + ByteLen(b)
    decreases |a|
  {
    if |a| > 0 {
      assert (a + b)[1..] == a[1..] + b;
      ByteLenConcat(a[1..], b);
    } else {
      assert a + b == b;
    }
  }

  /** A string has at least as many bytes as characters, and exactly as
      many when it is ASCII. */
  lemma {:induction false} ByteLenAtLeastLength(s: string)
    ensures ByteLen(s) >= |s|
    ensures IsAscii(s) <==> ByteLen(s) == |s|
    decreases |s|
  {
    if |s| > 0 {
      ByteLenAtLeastLength(s[1..]);
      if IsAscii(s[1..]) && (s[0] as int) < 0x80 {
        assert IsAscii(s) by {
          forall i | 0 <= i < |s| ensures (s[i] as int) < 0x80 {
            if i > 0 { assert s[i] == s[1..][i - 1]; }
          }
        }
      }
    }
  }

  /** A string whose characters all have the same width `w` has `w` bytes
      per character. */
  lemma {:induction false} ByteLenUniform(s: string, w: nat)
    requires forall i :: 0 <= i < |s| ==> Width(s[i]) == w
    ensures ByteLen(s) == w * |s|
    decreases |s|
  {
    if |s| > 0 {
      assert forall i :: 0 <= i < |s[1..]| ==> s[1..][i] == s[i + 1];
      ByteLenUniform(s[1..], w);
    }
  }

  /** Longer prefixes have strictly more bytes. */
  lemma PrefixBytesOrder(s: string, i: nat, j: nat)
    requires i <= |s| && j <= |s|
    ensures i < j ==> ByteLen(s[..i]) < ByteLen(s[..j])
  {
    if i < j {
      assert s[..j] == s[..i] + s[i..j];
      ByteLenConcat(s[..i], s[i..j]);
      ByteLenAtLeastLength(s[i..j]);
    }
  }

  /** The character index at which byte offset `b` of `s` falls between two
      characters (or at the end), if it does. */
  function Boundary(s: string, b: nat): (r: Option<nat>)
    ensures r.Some? ==> r.value <= |s| && ByteLen(s[..r.value]) == b
    decreases |s|
  {
    if b == 0 then Some(0)
    else if |s| == 0 || Width(s[0]) > b then None
    else
      match Boundary(s[1..], b - Width(s[0]))
      case Some(i) =>
        assert s[..i + 1][1..] == s[1..][..i];
        Some(i + 1)
      case None => None
  }

  /** `Boundary` finds every offset that falls between two characters. */
  lemma {:induction false} BoundaryComplete(s: string, i: nat)
    requires i <= |s|
    ensures Boundary(s, ByteLen(s[..i])) == Some(i)
    decreases |s|
  {
    if i > 0 {
      assert s[..i][1..] == s[1..][..i - 1];
      BoundaryComplete(s[1..], i - 1);
    }
  }

  /** Offsets that fall between two characters are exactly those
      `Boundary` finds. */
  lemma BoundaryExact(s: string, b: nat)
    ensures Boundary(s, b).Some? <==> exists i :: 0 <= i <= |s| && ByteLen(s[..i]) == b
  {
    if exists i :: 0 <= i <= |s| && ByteLen(s[..i]) == b {
      var i :| 0 <= i <= |s| && ByteLen(s[..i]) == b;
      BoundaryComplete(s, i);
    }
  }

  /** In an ASCII string every offset up to its length is a boundary. */
  lemma AsciiBoundary(s: string, b: nat)
    requires IsAscii(s) && b <= |s|
    ensures Boundary(s, b) == Some(b)
  {
    assert IsAscii(s[..b]);
    ByteLenAtLeastLength(s[..b]);
    BoundaryComplete(s, b);
  }

  /** A positive offset past the first character falls between two
      characters exactly when what is left of it does in the rest. */
  lemma BoundaryStep(s: string, b: nat)
    requires 0 < |s| && 0 < b && Width(s[0]) <= b
    ensures Boundary(s, b).Some? <==> Boundary(s[1..], b - Width(s[0])).Some?
    ensures Boundary(s, b).Some? ==> Boundary(s, b).value == Boundary(s[1..], b - Width(s[0])).value + 1
  {
  }

  /** Past an ASCII prefix, boundaries are those of the rest, shifted. */
  lemma {:induction false} BoundaryAfterAscii(p: string, rest: string, b: nat)
    requires IsAscii(p) && |p| <= b
    ensures Boundary(p + rest, b).Some? <==> Boundary(rest, b - |p|).Some?
    ensures Boundary(rest, b - |p|).Some? ==> Boundary(p + rest, b).value == |p| + Boundary(rest, b - |p|).value
    decreases |p|
  {
    if |p| > 0 {
      var s := p + rest;
      assert s[0] == p[0];
      BoundaryStep(s, b);
      assert s[1..] == p[1..] + rest;
      assert IsAscii(p[1..]);
      BoundaryAfterAscii(p[1..], rest, b - 1);
    } else {
      assert p + rest == rest;
    }
  }

  /** Rust's `&s[..b]`: `None` where Rust panics. */
  function SliceTo(s: string, b: nat): (r: Option<string>)
    ensures r.Some? ==> r.value <= s && ByteLen(r.value) == b
  {
    match Boundary(s, b)
    case Some(i) => Some(s[..i])
    case None => None
  }

  /** Rust's `&s[b..]`: `None` where Rust panics. */
  function SliceFrom(s: string, b: nat): (r: Option<string>)
    ensures r.Some? ==> |r.value| <= |s| && r.value == s[|s| - |r.value|..]
  {
    match Boundary(s, b)
    case Some(i) => Some(s[i..])
    case None => None
  }

  /** How many leading characters of `s` fit in `max` bytes. */
  function FitChars(s: string, max: nat): (k: nat)
    ensures k <= |s| && ByteLen(s[..k]) <= max
    ensures k < |s| ==> ByteLen(s[..k + 1]) > max
    decreases |s|
  {
    if |s| == 0 || Width(s[0]) > max then
      assert ByteLen(s[..0]) == 0;
      0
    else
      var k := FitChars(s[1..], max - Width(s[0]));
      assert s[..k + 1][1..] == s[1..][..k];
      assert k + 1 < |s| ==> s[..k + 2][1..] == s[1..][..k + 1];
      k + 1
  }
}
