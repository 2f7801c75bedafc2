/** Integer arithmetic the way the program's machine integers do it. */
module Arithmetic {

  const U32_MAX: int := 0xffff_ffff
  const U64_MAX: int := 0xffff_ffff_ffff_ffff
  const I64_MIN: int := -0x8000_0000_0000_0000
  const I64_MAX: int := 0x7fff_ffff_ffff_ffff

  function Min(a: int, b: int): int {
    if a <= b then a else b
  }

  function Max(a: int, b: int): int {
    if a >= b then a else b
  }

  /** Division that truncates toward zero. */
  function TruncDiv(a: int, n: int): int
    requires n > 0
  {
    if a >= 0 then a / n else -((-a) / n)
  }

  /** `div_ceil` on non-negative integers. */
  function CeilDiv(a: nat, n: nat): nat
    requires n > 0
  {
    a / n + if a % n != 0 then 1 else 0
  }

  /** An i64 result that saturates instead of wrapping. */
  function SaturateI64(a: int): int {
    if a > I64_MAX then I64_MAX else if a < I64_MIN then I64_MIN else a
  }

  /** A `u64 as i64` cast. */
  function AsI64(a: nat): int {
    if a % (U64_MAX + 1) <= I64_MAX then a % (U64_MAX + 1) else a % (U64_MAX + 1) - (U64_MAX + 1)
  }

  lemma MulMonotone(a: int, b: int, n: int)
    requires a <= b && 0 <= n
    ensures a * n <= b * n
  {}

  lemma MulStrict(a: int, b: int, n: int)
    requires a < b && 0 < n
    ensures a * n + n <= b * n
  {
    MulMonotone(a + 1, b, n);
  }

  /** The quotient is the only integer whose multiple brackets the dividend. */
  lemma DivBracket(a: int, n: int)
    requires n > 0
    ensures a / n * n <= a < a / n * n + n
    ensures a == a / n * n + a % n
  {}

  lemma QuotientNotNegative(a: int, n: int)
    requires 0 <= a && n > 0
    ensures 0 <= a / n
  {}

  lemma DivUnique(a: int, n: int, q: int)
    requires n > 0 && q * n <= a < q * n + n
    ensures a / n == q
  {
    DivBracket(a, n);
    if a / n < q {
      MulStrict(a / n, q, n);
    } else if q < a / n {
      MulStrict(q, a / n, n);
    }
  }

  lemma DivMonotone(a: int, b: int, n: int)
    requires a <= b && n > 0
    ensures a / n <= b / n
  {
    DivBracket(a, n);
    DivBracket(b, n);
    if b / n < a / n {
      MulStrict(b / n, a / n, n);
    }
  }

  /** `CeilDiv(a, n)` is the least `m` with `a <= m * n`. */
  lemma CeilDivIsLeast(a: nat, n: nat, m: nat)
    requires n > 0
    ensures a <= CeilDiv(a, n) * n
    ensures a <= m * n <==> CeilDiv(a, n) <= m
  {
    DivBracket(a, n);
    var c := CeilDiv(a, n);
    if a % n != 0 {
      assert c * n == a / n * n + n;
    }
    if c <= m {
      MulMonotone(c, m, n);
    } else {
      MulStrict(m, c, n);
    }
  }
}
