/** Integer idioms of the Rust source that Dafny's `int` does not have built in. */
module Numeric {

  const I32_MAX: int := 0x7FFF_FFFF
  const I32_MIN: int := -0x8000_0000
  const I64_MAX: int := 0x7FFF_FFFF_FFFF_FFFF

  /** A milli-log-odds value; the source stores it in an `i32`. */
  type LogOdds = x: int | I32_MIN <= x <= I32_MAX

  /** Basis points: reputations, edge strengths and discounts after `from_bps`. */
  type Bps = x: nat | x <= 10000

  function Abs(x: int): nat {
    if x < 0 then -x else x
  }

  function Min(a: int, b: int): int {
    if a < b then a else b
  }

  function Max(a: int, b: int): int {
    if a < b then b else a
  }

  function Clamp(x: int, lo: int, hi: int): int
    requires lo <= hi
  {
    if x < lo then lo else if hi < x then hi else x
  }

  /** Rust's `/` on signed integers: truncates toward zero. */
  function Quot(a: int, b: int): int
    requires b > 0
  {
    if a >= 0 then a / b else -((-a) / b)
  }

  function Pow2(n: nat): nat
    ensures Pow2(n) > 0
  {
    if n == 0 then 1 else 2 * Pow2(n - 1)
  }

  /** Arithmetic right shift of a signed integer: rounds toward minus infinity. */
  function ShiftRight(x: int, n: nat): int {
    x / Pow2(n)
  }

  lemma ShiftRightShrinks(x: int, n: nat)
    ensures x >= 0 ==> 0 <= ShiftRight(x, n) <= x
    ensures x < 0 ==> x <= ShiftRight(x, n) < 0
  {
    var p := Pow2(n);
    var q := x / p;
    DivBounds(x, p);
    if x >= 0 {
      QuotientOrder(p, 0, q, 0, x);
      Scale(p, q);
    } else {
      QuotientOrder(p, x, q, p * x, x) by { Scale(p, -x); Negate(p, x); }
    }
  }

  lemma Scale(p: int, q: int)
    requires p >= 1 && q >= 0
    ensures p * q >= q
  {
    assert (p - 1) * q >= 0;
  }

  lemma Negate(p: int, x: int)
    ensures p * (-x) == -(p * x)
  {
  }

  lemma Times(a: int, b: int, c: int)
    requires a <= b && c >= 0
    ensures a * c <= b * c && c * a <= c * b
  {
    assert (b - a) * c >= 0;
  }

  lemma DivBounds(a: int, n: int)
    requires n > 0
    ensures n * (a / n) <= a < n * (a / n) + n
  {
  }

  /** If `n * x <= a <= b < n * (y + 1)` then `x <= y`. */
  lemma QuotientOrder(n: int, x: int, y: int, a: int, b: int)
    requires n > 0 && n * x <= a <= b < n * y + n
    ensures x <= y
  {
    if y < x {
      Scale(n, x - y - 1);
    }
  }

  lemma DivMonotone(a: int, b: int, n: int)
    requires n > 0 && 0 <= a <= b
    ensures 0 <= a / n <= b / n
  {
    DivBounds(a, n);
    DivBounds(b, n);
    QuotientOrder(n, 0, a / n, 0, a);
    QuotientOrder(n, a / n, b / n, a, b);
  }

  /** Scaling by at most `10000 / 10000` never grows a magnitude and never flips a sign. */
  lemma ScaleShrinks(w: int, f: int)
    requires 0 <= f <= 10000
    ensures Abs(Quot(w * f, 10000)) <= Abs(w)
    ensures 10000 * Abs(Quot(w * f, 10000)) <= Abs(w) * f
    ensures w >= 0 ==> 0 <= Quot(w * f, 10000) <= w
  {
    var a: int := Abs(w);
    Times(0, f, a);
    Times(f, 10000, a);
    DivBounds(a * f, 10000);
    if w < 0 { Negated(a, f); }
  }

  lemma Negated(a: int, f: int)
    ensures -a * f == -(a * f)
  {
  }

  lemma ScaleMonotone(v: int, w: int, f: int)
    requires 0 <= v <= w && 0 <= f
    ensures 0 <= Quot(v * f, 10000) <= Quot(w * f, 10000)
  {
    assert 0 <= v * f <= w * f by { assert (w - v) * f >= 0; }
    DivMonotone(v * f, w * f, 10000);
  }
}
