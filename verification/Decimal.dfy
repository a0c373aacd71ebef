/** Fixed-point decimals: an `i128` count of units of 10^-9, with exact or explicitly rounded
    arithmetic (crates/rustev-contract/src/decimal.rs). */
module Decimal {

  const MIN: int := -0x8000_0000_0000_0000_0000_0000_0000_0000
  const MAX: int := 0x7FFF_FFFF_FFFF_FFFF_FFFF_FFFF_FFFF_FFFF

  /** Fractional digits, and units in one. */
  const SCALE: nat := 9
  const ONE: int := 1_000_000_000

  predicate Fits(x: int) { MIN <= x <= MAX }

  datatype Rounding = HalfEven | TowardZero

  datatype ArithError = Overflow | DivisionByZero | InvalidScale

  datatype Result = Ok(units: int) | Err(error: ArithError) {
    predicate IsFailure() { Err? }
    function PropagateFailure(): Result
      requires Err?
    { this }
    function Extract(): int
      requires Ok?
    { units }
  }

  function Checked(x: int): Result { if Fits(x) then Ok(x) else Err(Overflow) }

  function Abs(x: int): nat { if x < 0 then -x else x }

  /** Division toward zero, and its remainder, which has the sign of the dividend. */
  function Quotient(n: int, d: int): int
    requires d != 0
  {
    var q := Abs(n) / Abs(d);
    if (n < 0) != (d < 0) then -q else q
  }

  function Remainder(n: int, d: int): int
    requires d != 0
  {
    if n < 0 then -(Abs(n) % Abs(d)) else Abs(n) % Abs(d)
  }

  function DivRound(n: int, d: int, rounding: Rounding): Result
    requires d != 0
  {
    var q :- Checked(Quotient(n, d));
    var rem := Remainder(n, d);
    if rem == 0 || rounding.TowardZero? then Ok(q)
    else
      var twice := Abs(rem) * 2;
      var away := twice > Abs(d) || (twice == Abs(d) && q % 2 != 0);
      if !away then Ok(q)
      else if (n < 0) != (d < 0) then Checked(q - 1)
      else Checked(q + 1)
  }

  function CheckedAdd(a: int, b: int): Result { Checked(a + b) }

  function CheckedSub(a: int, b: int): Result { Checked(a - b) }

  function CheckedMul(a: int, b: int, rounding: Rounding): Result {
    var p :- Checked(a * b);
    DivRound(p, ONE, rounding)
  }

  function CheckedDiv(a: int, b: int, rounding: Rounding): Result {
    if b == 0 then Err(DivisionByZero)
    else
      var n :- Checked(a * ONE);
      DivRound(n, b, rounding)
  }

  function Pow10(k: nat): (p: nat)
    ensures p > 0
  { if k == 0 then 1 else 10 * Pow10(k - 1) }

  function RoundToScale(a: int, scale: nat, rounding: Rounding): Result {
    if scale > SCALE then Err(InvalidScale)
    else
      var factor := Pow10(SCALE - scale);
      var q :- DivRound(a, factor, rounding);
      Checked(q * factor)
  }

  // ------------------------------------------------------------ what is meant

  /** `q` is the integer nearest to `n / d`, the even one of two that are equally near. */
  predicate Nearest(n: int, d: int, q: int) {
    && 2 * Abs(n - q * d) <= Abs(d)
    && (2 * Abs(n - q * d) == Abs(d) ==> q % 2 == 0)
  }

  /** `q` is `n / d` without its fraction: nearer zero than it, by less than one. */
  predicate Truncated(n: int, d: int, q: int) {
    && Abs(n - q * d) < Abs(d)
    && Abs(q * d) <= Abs(n)
  }

  predicate Rounded(n: int, d: int, rounding: Rounding, q: int) {
    match rounding
    case HalfEven => Nearest(n, d, q)
    case TowardZero => Truncated(n, d, q)
  }

  // ----------------------------------------------------------------- division

  lemma QuotientHolds(n: int, d: int)
    requires d != 0
    ensures var q, r := Quotient(n, d), Remainder(n, d);
      n == q * d + r && Abs(r) < Abs(d) && (r != 0 ==> (r < 0 <==> n < 0))
  {
    var a: int, b: int := Abs(n), Abs(d);
    var k: int, m: int := a / b, a % b;
    NatDivision(a, b);
    assert Quotient(n, d) == (if (n < 0) != (d < 0) then -k else k) && Remainder(n, d) == (if n < 0 then -m else m);
    hide Quotient, Remainder;
    Negated(k, b);
    assert d == b || d == -b;
  }

  lemma NatDivision(a: nat, b: nat)
    requires b > 0
    ensures var k: int, m: int := a / b, a % b; a == k * b + m && 0 <= m < b
  {}

  lemma Negated(k: int, b: int)
    ensures (-k) * b == -(k * b) && k * (-b) == -(k * b) && (-k) * (-b) == k * b
  {}

  lemma Distribute(q: int, e: int, d: int)
    ensures (q + e) * d == q * d + e * d
  {}

  lemma AbsTimes(q: int, d: int)
    ensures Abs(q * d) == Abs(q) * Abs(d)
  {
    assert (-q) * d == -(q * d) && q * (-d) == -(q * d) && (-q) * (-d) == q * d;
    assert q >= 0 && d >= 0 ==> q * d >= 0;
  }

  lemma TruncatedHolds(n: int, d: int)
    requires d != 0
    ensures Truncated(n, d, Quotient(n, d))
  {
    hide Quotient, Remainder;
    QuotientHolds(n, d);
    QuotientSize(n, d);
    AbsTimes(Quotient(n, d), d);
    Divided(Abs(n), Abs(d));
  }

  lemma QuotientSize(n: int, d: int)
    requires d != 0
    ensures Abs(Quotient(n, d)) == Abs(n) / Abs(d)
  {}

  lemma Divided(a: nat, b: nat)
    requires b > 0
    ensures a / b * b <= a
  {}

  /** The rounding step: away from zero when the rest is more than half, or half and odd. */
  lemma NearestHolds(n: int, d: int, q: int, r: int)
    requires d != 0 && n == q * d + r && Abs(r) < Abs(d)
    requires r != 0 ==> (r < 0 <==> n < 0)
    ensures var away := 2 * Abs(r) > Abs(d) || (2 * Abs(r) == Abs(d) && q % 2 != 0);
      Nearest(n, d, if !away || r == 0 then q else if (n < 0) != (d < 0) then q - 1 else q + 1)
  {
    Distribute(q, 1, d);
    Distribute(q, -1, d);
  }

  /** Two integers that round the same quotient are equal. */
  lemma RoundedUnique(n: int, d: int, rounding: Rounding, q: int, p: int)
    requires d != 0 && Rounded(n, d, rounding, q) && Rounded(n, d, rounding, p)
    ensures q == p
  {
    var e := p - q;
    Distribute(q, e, d);
    AbsTimes(e, d);
    if Abs(e) >= 2 {
      Larger(Abs(e), 2, Abs(d));
    }
    if rounding.TowardZero? && Abs(e) == 1 {
      TruncatedSigns(n, d, q);
      TruncatedSigns(n, d, p);
      TruncatedGap(n, d, q, p);
    }
  }

  lemma Larger(a: nat, b: nat, c: nat)
    requires a >= b
    ensures a * c >= b * c
  {}

  lemma TruncatedSigns(n: int, d: int, q: int)
    requires d != 0 && Truncated(n, d, q)
    ensures n >= 0 ==> 0 <= q * d <= n
    ensures n <= 0 ==> n <= q * d <= 0
  {
    AbsTimes(q, d);
    if q != 0 {
      Larger(Abs(q), 1, Abs(d));
    }
  }

  lemma TruncatedGap(n: int, d: int, q: int, p: int)
    requires d != 0 && Truncated(n, d, q) && Truncated(n, d, p)
    requires n >= 0 ==> 0 <= q * d <= n && 0 <= p * d <= n
    requires n <= 0 ==> n <= q * d <= 0 && n <= p * d <= 0
    ensures Abs(p * d - q * d) < Abs(d)
  {}

  /** Division with rounding gives the rounded quotient whenever that fits, and overflows
      exactly when it does not. */
  lemma DivRoundIsExact(n: int, d: int, rounding: Rounding, q: int)
    requires d != 0 && Fits(n) && Fits(d)
    requires Rounded(n, d, rounding, q)
    ensures DivRound(n, d, rounding) == Checked(q)
  {
    QuotientHolds(n, d);
    TruncatedHolds(n, d);
    var t, r := Quotient(n, d), Remainder(n, d);
    NearestHolds(n, d, t, r);
    QuotientBound(n, d);
    match rounding
    case TowardZero => RoundedUnique(n, d, rounding, q, t);
    case HalfEven =>
      var away := 2 * Abs(r) > Abs(d) || (2 * Abs(r) == Abs(d) && t % 2 != 0);
      var u := if !away || r == 0 then t else if (n < 0) != (d < 0) then t - 1 else t + 1;
      RoundedUnique(n, d, rounding, q, u);
  }

  /** With a remainder the divisor is not a unit, so the quotient is far from the ends. */
  lemma QuotientBound(n: int, d: int)
    requires d != 0 && Fits(n)
    ensures Abs(Quotient(n, d)) <= Abs(n)
    ensures Remainder(n, d) != 0 ==> 2 * Abs(Quotient(n, d)) <= Abs(n)
  {
    TruncatedHolds(n, d);
    QuotientHolds(n, d);
    var q := Quotient(n, d);
    AbsTimes(q, d);
    Larger(Abs(d), 1, Abs(q));
    if Remainder(n, d) != 0 {
      Larger(Abs(d), 2, Abs(q));
    }
  }

  lemma RoundedExists(n: int, d: int, rounding: Rounding) returns (q: int)
    requires d != 0
    ensures Rounded(n, d, rounding, q)
  {
    QuotientHolds(n, d);
    TruncatedHolds(n, d);
    var t, r := Quotient(n, d), Remainder(n, d);
    NearestHolds(n, d, t, r);
    var away := 2 * Abs(r) > Abs(d) || (2 * Abs(r) == Abs(d) && t % 2 != 0);
    q := if rounding.TowardZero? || !away || r == 0 then t else if (n < 0) != (d < 0) then t - 1 else t + 1;
  }

  // --------------------------------------------------------------- operations

  /** A product overflows exactly when the exact product of units does; otherwise it is the
      product of the values, rounded to nine digits. */
  /** Sums are exact wherever they fit: they commute, zero changes nothing, and a difference
      takes back what was added. */
  lemma AddIsExact(a: int, b: int)
    ensures CheckedAdd(a, b) == if MIN <= a + b <= MAX then Ok(a + b) else Err(Overflow)
    ensures CheckedAdd(a, b) == CheckedAdd(b, a)
    ensures Fits(a) ==> CheckedAdd(a, 0) == CheckedSub(a, 0) == Ok(a)
    ensures Fits(a) && CheckedAdd(a, b).Ok? ==> CheckedSub(CheckedAdd(a, b).units, b) == Ok(a)
    ensures CheckedSub(a, b) == if MIN <= a - b <= MAX then Ok(a - b) else Err(Overflow)
  {}

  lemma MulIsExact(a: int, b: int, rounding: Rounding)
    ensures CheckedMul(a, b, rounding) == Err(Overflow) <==> !Fits(a * b)
    ensures Fits(a * b) ==>
              CheckedMul(a, b, rounding).Ok? && Rounded(a * b, ONE, rounding, CheckedMul(a, b, rounding).units)
  {
    var n := a * b;
    if Fits(n) {
      var q := RoundedExists(n, ONE, rounding);
      DivRoundIsExact(n, ONE, rounding, q);
      assert Fits(q) by {
        assert Abs(n - q * ONE) < ONE;
      }
    }
  }

  /** A quotient overflows exactly when the dividend scaled by 10^9 does: the quotient itself
      never does, since the least `i128` is no multiple of 10^9. */
  lemma DivIsExact(a: int, b: int, rounding: Rounding)
    requires Fits(a) && Fits(b)
    ensures CheckedDiv(a, b, rounding) == Err(DivisionByZero) <==> b == 0
    ensures b != 0 ==> (CheckedDiv(a, b, rounding) == Err(Overflow) <==> !Fits(a * ONE))
    ensures b != 0 && Fits(a * ONE) ==>
              CheckedDiv(a, b, rounding).Ok? && Rounded(a * ONE, b, rounding, CheckedDiv(a, b, rounding).units)
  {
    var n := a * ONE;
    if b != 0 && Fits(n) {
      var q := RoundedExists(n, b, rounding);
      DivRoundIsExact(n, b, rounding, q);
      assert MIN % ONE != 0;
      assert n != MIN;
      QuotientOfSmaller(n, b, rounding, q);
    }
  }

  lemma QuotientOfSmaller(n: int, d: int, rounding: Rounding, q: int)
    requires d != 0 && Fits(n) && n != MIN
    requires Rounded(n, d, rounding, q)
    ensures Abs(q) <= Abs(n)
  {
    AbsTimes(q, d);
    if Abs(d) == 1 {
      assert Abs(n - q * d) == 0;
    } else if q != 0 {
      Larger(Abs(d), 2, Abs(q));
      assert Abs(q) * Abs(d) - Abs(n) <= Abs(n - q * d);
      TimesLess(Abs(q), Abs(d));
    }
  }

  lemma TimesLess(q: nat, d: nat)
    requires q >= 1 && d >= 2
    ensures q * d >= q + d - 1
  {
    assert (q - 1) * (d - 1) >= 0;
  }

  /** `a` to `scale` digits: the multiple of `10^(9 - scale)` that is nearest, or next toward
      zero; refused exactly when that multiple does not fit. */
  lemma RoundToScaleIsExact(a: int, scale: nat, rounding: Rounding) returns (q: int)
    requires Fits(a)
    ensures RoundToScale(a, scale, rounding) == Err(InvalidScale) <==> scale > SCALE
    ensures scale <= SCALE ==>
              var f := Pow10(SCALE - scale);
              Rounded(a, f, rounding, q) && RoundToScale(a, scale, rounding) == Checked(q * f)
  {
    q := 0;
    if scale <= SCALE {
      var f := Pow10(SCALE - scale);
      PowFits(SCALE - scale);
      q := RoundedExists(a, f, rounding);
      DivRoundIsExact(a, f, rounding, q);
      if f == 1 {
        assert Abs(a - q * f) == 0;
      } else {
        QuotientOfScale(a, f, rounding, q);
      }
      assert DivRound(a, f, rounding) == Ok(q);
    }
  }

  lemma PowFits(k: nat)
    requires k <= SCALE
    ensures 1 <= Pow10(k) <= ONE
    ensures k > 0 ==> Pow10(k) >= 10
  {
    assert Pow10(1) == 10 && Pow10(2) == 100 && Pow10(3) == 1000 && Pow10(4) == 10_000;
    assert Pow10(5) == 100_000 && Pow10(6) == 1_000_000 && Pow10(7) == 10_000_000;
    assert Pow10(8) == 100_000_000 && Pow10(9) == ONE;
  }

  lemma QuotientOfScale(a: int, f: nat, rounding: Rounding, q: int)
    requires Fits(a) && f >= 10 && Rounded(a, f, rounding, q)
    ensures Fits(q)
  {
    AbsTimes(q, f);
    Larger(f, 10, Abs(q));
    if q != 0 {
      assert Abs(q) * f - Abs(a) <= Abs(a - q * f);
      TimesLess(Abs(q), f);
    }
  }

  /** Rounding what is already rounded changes nothing. */
  lemma RoundToScaleIdempotent(a: int, scale: nat, rounding: Rounding, r: Rounding)
    requires Fits(a) && RoundToScale(a, scale, rounding).Ok?
    ensures RoundToScale(RoundToScale(a, scale, rounding).units, scale, r) == RoundToScale(a, scale, rounding)
  {
    assert scale <= SCALE;
    hide RoundToScale;
    var f := Pow10(SCALE - scale);
    var q := RoundToScaleIsExact(a, scale, rounding);
    var b := q * f;
    assert Rounded(b, f, r, q);
    var p := RoundToScaleIsExact(b, scale, r);
    RoundedUnique(b, f, r, q, p);
  }

  /** Rounding keeps order. */
  lemma RoundToScaleMonotone(a: int, b: int, scale: nat, rounding: Rounding)
    requires Fits(a) && Fits(b) && a <= b
    requires RoundToScale(a, scale, rounding).Ok? && RoundToScale(b, scale, rounding).Ok?
    ensures RoundToScale(a, scale, rounding).units <= RoundToScale(b, scale, rounding).units
  {
    assert scale <= SCALE;
    hide RoundToScale;
    var f := Pow10(SCALE - scale);
    var q := RoundToScaleIsExact(a, scale, rounding);
    var p := RoundToScaleIsExact(b, scale, rounding);
    RoundedMonotone(a, b, f, rounding, q, p);
    Larger'(q, p, f);
  }

  lemma Larger'(q: int, p: int, f: nat)
    requires q <= p
    ensures q * f <= p * f
  {}

  lemma RoundedMonotone(a: int, b: int, f: nat, rounding: Rounding, q: int, p: int)
    requires f > 0 && a <= b && Rounded(a, f, rounding, q) && Rounded(b, f, rounding, p)
    ensures q <= p
  {
    if p < q {
      Distribute(p, 1, f);
      Larger'(p + 1, q, f);
      match rounding
      case HalfEven =>
        if p + 1 < q {
          Distribute(p, 2, f);
          Larger'(p + 2, q, f);
        }
      case TowardZero =>
        TruncatedSigns(a, f, q);
        TruncatedSigns(b, f, p);
        SignOf(q, f);
        SignOf(p, f);
    }
  }

  lemma SignOf(q: int, f: nat)
    requires f > 0
    ensures q > 0 ==> q * f >= f
    ensures q < 0 ==> q * f + f <= 0
  {
    if q > 0 { Larger'(1, q, f); }
    if q < 0 { Larger'(q, -1, f); }
  }
}
