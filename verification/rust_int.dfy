/** Rust's fixed-width integer ranges and its truncating integer division.
    Dafny's `/` and `%` are Euclidean; Rust's round the quotient toward zero
    and give the remainder the sign of the dividend. */
module RustInt {

  const U32_LIMIT: nat := 0x1_0000_0000
  const U64_LIMIT: nat := 0x1_0000_0000_0000_0000

  type U32 = n: int | 0 <= n < U32_LIMIT
  type U64 = n: int | 0 <= n < U64_LIMIT
  type I32 = n: int | -0x8000_0000 <= n < 0x8000_0000
  type I64 = n: int | -0x8000_0000_0000_0000 <= n < 0x8000_0000_0000_0000

  /** Rust's `a / b` for a positive divisor: the quotient rounded toward zero. */
  function TruncDiv(a: int, b: int): (q: int)
    requires b > 0
    ensures a >= 0 ==> 0 <= q * b <= a < q * b + b
    ensures a < 0 ==> q * b - b < a <= q * b <= 0
  {
    if a >= 0 then
      DivBracket(a, b);
      a / b
    else
      DivBracket(-a, b);
      var p := (-a) / b;
      assert (-p) * b == -(p * b);
      -p
  }

  lemma DivBracket(a: int, b: int)
    requires a >= 0 && b > 0
    ensures 0 <= (a / b) * b <= a < (a / b) * b + b
    ensures a / b >= 0
  {
    var q := a / b;
    var r := a % b;
    assert a == q * b + r;
    assert 0 <= r < b;
  }

  /** Rust's `a % b` for a positive divisor: what `TruncDiv` leaves over,
      carrying the sign of `a`. */
  function TruncRem(a: int, b: int): (r: int)
    requires b > 0
    ensures a == TruncDiv(a, b) * b + r
    ensures a >= 0 ==> 0 <= r < b
    ensures a < 0 ==> -b < r <= 0
  {
    a - TruncDiv(a, b) * b
  }

  /** On non-negative operands Rust's and Dafny's division agree. */
  lemma TruncAgreesOnNonNegative(a: int, b: int)
    requires a >= 0 && b > 0
    ensures TruncDiv(a, b) == a / b && TruncRem(a, b) == a % b
  {
  }

  /** A quotient is pinned down by bracketing the dividend. */
  lemma DivUnique(a: int, b: int, q: int)
    requires b > 0 && 0 <= q * b <= a < q * b + b
    ensures a / b == q && a % b == a - q * b
  {
    DivBracket(a, b);
    var p := a / b;
    MulMonotone(p + 1, q, b);
    MulMonotone(q + 1, p, b);
    assert (p + 1) * b == p * b + b;
    assert (q + 1) * b == q * b + b;
  }

  lemma MulMonotone(x: int, y: int, b: int)
    requires b >= 0
    ensures x <= y ==> x * b <= y * b
  {
    assert y * b - x * b == (y - x) * b;
  }
}
