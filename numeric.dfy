/** Number handling of the snapshot: rounding of the level progress and the
    combined "level.progress" value of a historical record. */
module Numeric {
  import opened Common

  /** Python's one-argument `round()`: the nearest integer, a tie going to the even one.
      Progress is a float in gsbot, that is an exact rational, so it is a `real` here. */
  function Round(x: real): (r: int)
    ensures x - 0.5 <= r as real <= x + 0.5
    ensures (r as real == x - 0.5 || r as real == x + 0.5) ==> r % 2 == 0
  {
    var f := x.Floor;
    var d := x - f as real;
    if d < 0.5 then f
    else if d > 0.5 then f + 1
    else if f % 2 == 0 then f
    else f + 1
  }

  /** The two properties of `Round` pin its result down: no other integer has them. */
  lemma RoundUnique(x: real, n: int)
    requires x - 0.5 <= n as real <= x + 0.5
    requires (n as real == x - 0.5 || n as real == x + 0.5) ==> n % 2 == 0
    ensures n == Round(x)
  {
  }

  function Pow10(k: nat): nat
  {
    if k == 0 then 1 else 10 * Pow10(k - 1)
  }

  /** Number of decimal digits `str(n)` prints for `n`: the `d` with 10^(d-1) <= n < 10^d
      (one digit for zero). */
  function Digits(n: nat): (d: nat)
    ensures d >= 1
    ensures n < Pow10(d)
    ensures n == 0 || Pow10(d - 1) <= n
  {
    if n < 10 then 1 else 1 + Digits(n / 10)
  }

  /** The value of the digits of `str(r)` written after a decimal point. */
  function Fraction(r: nat): (f: real)
    ensures 0.0 <= f < 1.0
  {
    QuotientBelowOne(r as real, Pow10(Digits(r)) as real);
    r as real / Pow10(Digits(r)) as real
  }

  lemma QuotientBelowOne(a: real, p: real)
    requires 0.0 <= a < p
    ensures 0.0 <= a / p < 1.0
  {
  }

  /** The number the text `str(level) + '.' + str(r)` denotes, as the snapshot in gsbot
      computes its combined level; `None` when that text is not a number, which is the
      case exactly when `r` is negative ("5.-1"). The float gsbot stores is the double
      nearest to this decimal, so decimals that agree give equal floats. The whole part
      of the value is always the level: only the progress digits are lost. */
  function LevelDecimal(level: int, r: int): (v: Option<real>)
    ensures v.None? <==> r < 0
    ensures v.Some? && level >= 0 ==> v.value.Floor == level
    ensures v.Some? && level < 0 ==> (-v.value).Floor == -level
  {
    if r < 0 then None else Some(WithFraction(level, Fraction(r)))
  }

  /** The number `str(level)` followed by the fractional digits `frac`: the sign of the
      level applies to the whole text. */
  function WithFraction(level: int, frac: real): real
  {
    if level >= 0 then level as real + frac else level as real - frac
  }

  /** Appending a zero to the progress digits does not change the number the level text
      denotes: progress r and 10 * r always collide. */
  lemma LevelDecimalTimesTen(level: int, r: int)
    requires r >= 0
    ensures LevelDecimal(level, r) == LevelDecimal(level, 10 * r)
  {
    FractionTimesTen(r);
  }

  /** The digits of `str(r)` read as the fractional part do not change when a zero is appended. */
  lemma FractionTimesTen(r: nat)
    ensures Fraction(10 * r) == Fraction(r)
  {
    if r > 0 {
      DigitsTimesTen(r);
      ScaleFraction(r, Pow10(Digits(r)));
    }
  }

  lemma DigitsTimesTen(r: nat)
    requires r > 0
    ensures Digits(10 * r) == Digits(r) + 1
  {
    assert (10 * r) / 10 == r;
  }

  lemma ScaleFraction(n: nat, p: nat)
    requires p > 0
    ensures (10 * n) as real / (10 * p) as real == n as real / p as real
  {
    assert (10 * n) as real == 10.0 * n as real && (10 * p) as real == 10.0 * p as real;
  }

  /** The combined encoding loses information: a progress of 7 and one of 70 on the same
      level give the same value, and so do 1, 10 and 100. */
  lemma LevelDecimalCollides()
    ensures LevelDecimal(5, 7) == LevelDecimal(5, 70) == Some(5.7)
    ensures LevelDecimal(5, 1) == LevelDecimal(5, 10) == LevelDecimal(5, 100)
  {
  }
}
