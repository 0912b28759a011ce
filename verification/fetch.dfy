/** What the fetchers share: how an HTTP exchange with a usage endpoint can
    end, and the excerpt of an error response's body that the Codex and
    OpenRouter fetchers put in their error message (codex_fetcher.rs,
    openrouter_fetcher.rs). The request itself is not modelled. */
module Fetch {
  import opened Wrappers
  import opened Utf8

  /** How an exchange ended: the request could not be sent, the status was
      not a success (with the status line and the body), the body did not
      decode, or it decoded to `payload`. */
  datatype Exchange<T> =
    | SendFailed(error: string)
    | HttpError(status: string, body: string)
    | Unparsable(error: string)
    | Decoded(payload: T)

  /** The most bytes of an error body quoted in an error message. */
  const EXCERPT_BYTES := 200

  /** `&body[..body.len().min(200)]` as written: a cut at byte 200 that
      panics (`None`) when byte 200 falls inside a character. */
  function ExcerptAsWritten(body: string): (r: Option<string>)
    ensures var n := if ByteLen(body) < EXCERPT_BYTES then ByteLen(body) else EXCERPT_BYTES;
      r.Some? <==> exists i :: 0 <= i <= |body| && ByteLen(body[..i]) == n
    ensures ByteLen(body) <= EXCERPT_BYTES ==> r == Some(body)
    ensures r.Some? ==> r.value <= body && ByteLen(r.value) <= EXCERPT_BYTES
  {
    var n := if ByteLen(body) < EXCERPT_BYTES then ByteLen(body) else EXCERPT_BYTES;
    BoundaryExact(body, n);
    assert body[..|body|] == body;
    BoundaryComplete(body, |body|);
    SliceTo(body, n)
  }

  /** The excerpt as intended: the longest run of whole leading characters
      that fits in 200 bytes. */
  function Excerpt(body: string): (r: string)
    ensures r <= body && ByteLen(r) <= EXCERPT_BYTES
    ensures |r| < |body| ==> ByteLen(body[..|r| + 1]) > EXCERPT_BYTES
  {
    body[..FitChars(body, EXCERPT_BYTES)]
  }

  /** Whenever the cut as written does not panic, it is the intended
      excerpt. */
  lemma ExcerptAgrees(body: string)
    ensures ExcerptAsWritten(body).Some? ==> ExcerptAsWritten(body) == Some(Excerpt(body))
  {
    var n := if ByteLen(body) < EXCERPT_BYTES then ByteLen(body) else EXCERPT_BYTES;
    match Boundary(body, n)
    case Some(i) =>
      var k := FitChars(body, EXCERPT_BYTES);
      assert body[..|body|] == body;
      PrefixBytesOrder(body, i, k);
      PrefixBytesOrder(body, i, |body|);
      if k < |body| {
        PrefixBytesOrder(body, k + 1, i);
      }
      assert i == k;
    case None =>
  }

  /** A body that fits is quoted whole, both as written and as intended. */
  lemma ShortBodyQuotedWhole(body: string)
    requires ByteLen(body) <= EXCERPT_BYTES
    ensures ExcerptAsWritten(body) == Some(body)
    ensures Excerpt(body) == body
  {
    assert body[..|body|] == body;
    BoundaryComplete(body, |body|);
    ExcerptAgrees(body);
  }

  /** For an ASCII body the cut never panics. */
  lemma AsciiExcerptAgrees(body: string)
    requires IsAscii(body)
    ensures ExcerptAsWritten(body) == Some(Excerpt(body))
  {
    ByteLenAtLeastLength(body);
    var n := if ByteLen(body) < EXCERPT_BYTES then ByteLen(body) else EXCERPT_BYTES;
    AsciiBoundary(body, n);
    ExcerptAgrees(body);
  }

  /** 199 ASCII characters followed by any character of two or more bytes
      (such as 'é') put byte 200 inside that character: the cut as written
      panics, while the intended excerpt stops before the character. */
  lemma ExcerptCutsCharacter(p: string, c: char, rest: string)
    requires IsAscii(p) && |p| == EXCERPT_BYTES - 1 && Width(c) >= 2
    ensures ExcerptAsWritten(p + [c] + rest) == None
    ensures Excerpt(p + [c] + rest) == p
  {
    var body := p + ([c] + rest);
    assert p + [c] + rest == body;
    ByteLenAtLeastLength(p);
    ByteLenConcat(p, [c] + rest);
    assert ByteLen([c] + rest) >= Width(c) by {
      assert ([c] + rest)[1..] == rest;
    }
    BoundaryAfterAscii(p, [c] + rest, EXCERPT_BYTES);
    assert body[..|p| + 1] == p + [c];
    ByteLenConcat(p, [c]);
    assert ByteLen([c]) == Width(c) by {
      assert [c][1..] == [];
    }
    assert body[..|p|] == p;
    assert ByteLen(body[..|p|]) <= EXCERPT_BYTES;
    var k := FitChars(body, EXCERPT_BYTES);
    PrefixBytesOrder(body, |p| + 1, k);
    PrefixBytesOrder(body, k, |p|);
    if k < |body| {
      PrefixBytesOrder(body, k + 1, |p|);
    }
    assert k == |p|;
  }

  lemma ShortExcerptWhole(body: string)
    ensures ByteLen(body) <= EXCERPT_BYTES ==> Excerpt(body) == body
  {
    if ByteLen(body) <= EXCERPT_BYTES {
      ShortBodyQuotedWhole(body);
    }
  }

  /** The message of a failed status: the status line and the excerpt of
      the body, after the given prefix. */
  function StatusError(prefix: string, status: string, body: string): (r: string)
    ensures prefix + status + ": " <= r
    ensures var quoted := r[|prefix + status + ": "|..];
      && quoted <= body && ByteLen(quoted) <= EXCERPT_BYTES
      && (ByteLen(body) <= EXCERPT_BYTES ==> quoted == body)
  {
    ShortExcerptWhole(body);
    var head := prefix + status + ": ";
    var r := head + Excerpt(body);
    assert r[|head|..] == Excerpt(body);
    r
  }
}
