/** Decimals as text: `-?(0|[1-9][0-9]*)(\.[0-9]{1,9})?`, read exactly and written without
    trailing zeros (crates/rustev-contract/src/decimal.rs). */
module DecimalText {
  import opened Wrappers
  import opened Ascii
  import opened JsonGrammar
  import opened JsonLexing
  import Decimal
  import Digits

  datatype DecimalError = NoText | Syntax(offset: nat) | TooPrecise | OutOfRange

  datatype Result = Ok(units: int) | Err(error: DecimalError)

  // ----------------------------------------------------------------- grammar

  /** A number without an exponent, and with any number of fractional digits. */
  predicate IsDecimal(n: Number) {
    ValidNumber(n) && n.exp.None?
  }

  function Places(n: Number): nat { if n.frac.Some? then |n.frac.value| else 0 }

  function FracDigits(n: Number): Bytes { if n.frac.Some? then n.frac.value else [] }

  /** Units in the magnitude of `n`. */
  function Magnitude(n: Number): nat
    requires IsDecimal(n) && Places(n) <= Decimal.SCALE
  {
    Digits.Value(n.whole) * Decimal.ONE + Digits.Value(FracDigits(n)) * Decimal.Pow10(Decimal.SCALE - Places(n))
  }

  function Units(n: Number): int
    requires IsDecimal(n) && Places(n) <= Decimal.SCALE
  {
    var m: int := Magnitude(n);
    if n.minus then -m else m
  }

  /** `s` is a decimal when followed by something, or nothing. */
  ghost predicate Viable(s: Bytes) {
    exists n, y :: IsDecimal(n) && SpellNumber(n) == s + y
  }

  /** A text has one reading. */
  lemma DecimalUnique(n: Number, m: Number)
    requires IsDecimal(n) && IsDecimal(m) && SpellNumber(n) == SpellNumber(m)
    ensures n == m
  {
    NumberGreedy(n, []);
    NumberGreedy(m, []);
    assert SpellNumber(n) + [] == SpellNumber(m) + [];
    NumberUnique(n, [], m, []);
  }

  predicate Spells(n: Number, s: Bytes) {
    IsDecimal(n) && SpellNumber(n) == s
  }

  /** What reading `s` must give: its value, or the first thing wrong with it. Malformed text
      is reported at the byte where no decimal can go on, too many places before the range,
      and the range only for a value that no `i128` holds. */
  ghost predicate Reads(s: Bytes, r: Result) {
    match r
    case Ok(u) => exists n :: Spells(n, s) && Places(n) <= Decimal.SCALE && u == Units(n) && Decimal.Fits(u)
    case Err(TooPrecise) => exists n :: Spells(n, s) && Places(n) > Decimal.SCALE
    case Err(OutOfRange) => exists n :: Spells(n, s) && Places(n) <= Decimal.SCALE && !Decimal.Fits(Units(n))
    case Err(NoText) => s == []
    case Err(Syntax(k)) => Breaks(s, k)
  }

  /** `s[..k]` can go on to a decimal, and `s` does not. */
  ghost predicate Breaks(s: Bytes, k: nat) {
    && s != [] && k <= |s|
    && Viable(s[..k])
    && if k < |s| then !Viable(s[..k + 1]) else forall n :: !Spells(n, s)
  }

  /** There is one right answer for every text. */
  lemma ReadsUnique(s: Bytes, r: Result, q: Result)
    requires Reads(s, r) && Reads(s, q)
    ensures r == q
  {
    hide SpellNumber, IsDecimal, Units, Viable;
    NothingSpellsNothing();
    if exists n :: Spells(n, s) {
      var n :| Spells(n, s);
      forall m | Spells(m, s) ensures m == n {
        DecimalUnique(n, m);
      }
      forall k: nat ensures !Breaks(s, k) {
        if k < |s| {
          assert s == s[..k + 1] + s[k + 1..];
          ViableWith(n, s[k + 1..], s[..k + 1]);
        }
      }
    } else if r.Err? && r.error.Syntax? && q.Err? && q.error.Syntax? {
      BreaksOnce(s, r.error.offset, q.error.offset);
      BreaksOnce(s, q.error.offset, r.error.offset);
    }
  }

  lemma NothingSpellsNothing()
    ensures forall n :: !Spells(n, [])
  {}

  lemma BreaksOnce(s: Bytes, j: nat, k: nat)
    requires Breaks(s, j) && Breaks(s, k)
    ensures j >= k
  {
    if j < k {
      ViablePrefix(s, j + 1, k);
    }
  }

  lemma ViablePrefix(s: Bytes, j: nat, k: nat)
    requires j <= k <= |s| && Viable(s[..k])
    ensures Viable(s[..j])
  {
    hide IsDecimal, SpellNumber;
    var n, y :| IsDecimal(n) && SpellNumber(n) == s[..k] + y;
    assert s[..k] + y == s[..j] + (s[j..k] + y);
  }

  // ------------------------------------------------------------------ layout

  /** What stands at each place of a decimal. */
  lemma Layout(n: Number)
    requires IsDecimal(n)
    ensures var t, a, b := SpellNumber(n), |SpellSign(n)|, |SpellSign(n)| + |n.whole|;
      && |t| == b + |SpellFrac(n)|
      && (n.minus <==> t[0] == MINUS)
      && (forall j | a <= j < b :: IsDigit(t[j]))
      && (t[a] == 0x30 ==> b == a + 1)
      && (|t| > b ==> t[b] == POINT && |t| > b + 1)
      && (forall j | b < j < |t| :: IsDigit(t[j]))
  {
    var t, a, b := SpellNumber(n), |SpellSign(n)|, |SpellSign(n)| + |n.whole|;
    assert forall j | a <= j < b :: t[j] == n.whole[j - a];
    assert forall j | b <= j < |t| :: t[j] == SpellFrac(n)[j - b];
    if n.frac.Some? {
      assert forall j | b < j < |t| :: t[j] == n.frac.value[j - b - 1];
    }
  }

  /** `u` starts no decimal: a sign or nothing, digits, perhaps a point and digits, then
      something else. */
  predicate Broken(u: Bytes, a: nat, b: nat) {
    var k := |u| - 1;
    && a <= b <= k && a <= 1
    && (a == 1 ==> u[0] == MINUS)
    && (a == 0 ==> u[0] != MINUS)
    && (forall j | a <= j < b :: IsDigit(u[j]))
    && (|| (a == b == k && !IsDigit(u[k]))
        || (b == k == a + 1 && u[a] == 0x30 && IsDigit(u[k]))
        || (a < b == k && !IsDigit(u[k]) && u[k] != POINT)
        || (a < b < k && u[b] == POINT && (forall j | b < j < k :: IsDigit(u[j])) && !IsDigit(u[k])))
  }

  lemma PrefixIsNotBroken(n: Number, u: Bytes, a: nat, b: nat)
    requires IsDecimal(n) && u != [] && u <= SpellNumber(n)
    ensures !Broken(u, a, b)
  {
    Layout(n);
    var t := SpellNumber(n);
    assert forall j | 0 <= j < |u| :: t[j] == u[j];
  }

  lemma BrokenIsNotViable(u: Bytes, a: nat, b: nat)
    requires u != [] && Broken(u, a, b)
    ensures !Viable(u)
  {
    forall n, y | IsDecimal(n) ensures SpellNumber(n) != u + y {
      if SpellNumber(n) == u + y {
        PrefixIsNotBroken(n, u, a, b);
      }
    }
  }

  /** `s` stops short of a decimal: after a sign, or after a point. */
  lemma ShortIsNotDecimal(s: Bytes, a: nat)
    requires s != [] && a <= 1 && (a == 1 <==> s[0] == MINUS)
    requires || |s| == a
             || (s[|s| - 1] == POINT && forall j | a <= j < |s| - 1 :: IsDigit(s[j]))
    ensures forall n :: !Spells(n, s)
  {
    forall n ensures !Spells(n, s) {
      if Spells(n, s) {
        Layout(n);
      }
    }
  }

  // ----------------------------------------------------------------- reading

  const U128_MAX: int := 0xFFFF_FFFF_FFFF_FFFF_FFFF_FFFF_FFFF_FFFF

  function Make(negative: bool, whole: Bytes, frac: Option<Bytes>): Number {
    Number(negative, whole, frac, None)
  }

  lemma ViableWith(n: Number, y: Bytes, s: Bytes)
    requires IsDecimal(n) && SpellNumber(n) == s + y
    ensures Viable(s)
  {}

  method Parse(s: Bytes) returns (r: Result)
    ensures Reads(s, r)
  {
    if s == [] {
      return Err(NoText);
    }
    var e, whole, frac := SplitParts(s);
    if e.Some? {
      return Err(e.value);
    }
    var negative := s[0] == MINUS;
    ghost var n := Make(negative, whole, if frac == [] then None else Some(frac));
    var mag := ReadMagnitude(whole, frac);
    var limit := Decimal.MAX;
    if mag.None? {
      return Err(OutOfRange);
    }
    assert mag.value == Magnitude(n);
    if negative {
      if mag.value == limit + 1 {
        return Ok(Decimal.MIN);
      } else if mag.value > limit {
        return Err(OutOfRange);
      }
      return Ok(-mag.value);
    }
    if mag.value > limit {
      return Err(OutOfRange);
    }
    return Ok(mag.value);
  }

  function SignOf(s: Bytes): Bytes { if Starts(s, MINUS) then [MINUS] else [] }

  /** The digits before and after the point, or what is wrong with the text. */
  method SplitParts(s: Bytes) returns (e: Option<DecimalError>, whole: Bytes, frac: Bytes)
    requires s != []
    ensures e.Some? ==> Reads(s, Err(e.value))
    ensures e.None? ==>
              && |frac| <= Decimal.SCALE
              && Spells(Make(s[0] == MINUS, whole, if frac == [] then None else Some(frac)), s)
  {
    hide Breaks, Viable, IsDecimal;
    whole, frac := [], [];
    var bad, i := WholePart(s);
    if bad.Some? {
      return Some(Syntax(bad.value)), whole, frac;
    }
    whole := s[|SignOf(s)|..i];
    if i < |s| {
      var end;
      bad, end := FracPart(s, i);
      if bad.Some? {
        return Some(Syntax(bad.value)), whole, frac;
      }
      frac := s[i + 1..end];
      if |frac| > Decimal.SCALE {
        assert Spells(Make(s[0] == MINUS, whole, Some(frac)), s);
        return Some(TooPrecise), whole, frac;
      }
    }
    return None, whole, frac;
  }

  lemma WholeSpells(s: Bytes, i: nat, n: Number)
    requires s != [] && |SignOf(s)| < i <= |s|
    requires n == Make(s[0] == MINUS, s[|SignOf(s)|..i], None)
    ensures SpellNumber(n) == s[..i] + []
  {}

  /** The end of the digits before the point, or where the text breaks. */
  method WholePart(s: Bytes) returns (bad: Option<nat>, i: nat)
    requires s != []
    ensures bad.Some? ==> Breaks(s, bad.value)
    ensures bad.None? ==>
              && |SignOf(s)| < i <= |s|
              && IsDecimal(Make(s[0] == MINUS, s[|SignOf(s)|..i], None))
              && (i < |s| ==> !IsDigit(s[i]))
              && (i == |s| ==> Spells(Make(s[0] == MINUS, s[|SignOf(s)|..i], None), s))
  {
    hide Breaks, SpellNumber;
    i := 0;
    var negative := s[0] == MINUS;
    if negative {
      i := 1;
    }
    var intStart := i;
    while i < |s| && IsDigit(s[i])
      invariant intStart <= i <= |s|
      invariant forall j | intStart <= j < i :: IsDigit(s[j])
    {
      i := i + 1;
    }
    var whole := s[intStart..i];
    assert intStart == |SignOf(s)|;
    if whole == [] {
      NoDigitBreaks(s);
      return Some(intStart), i;
    }
    if |whole| > 1 && whole[0] == 0x30 {
      SecondDigitBreaks(s);
      return Some(intStart + 1), i;
    }
    assert IsDigits(whole);
    WholeSpells(s, i, Make(negative, whole, None));
    assert i == |s| ==> s[..i] + [] == s;
    return None, i;
  }

  /** A text breaks where its first digit is missing. */
  lemma NoDigitBreaks(s: Bytes)
    requires s != []
    requires var k := |SignOf(s)|; k < |s| ==> !IsDigit(s[k])
    ensures Breaks(s, |SignOf(s)|)
  {
    var k := |SignOf(s)|;
    assert s[..k] == SignOf(s);
    ViableWith(Make(s[0] == MINUS, [0x30], None), [0x30], s[..k]);
    if k < |s| {
      BrokenIsNotViable(s[..k + 1], k, k);
    } else {
      ShortIsNotDecimal(s, k);
    }
  }

  /** A text breaks at a digit after a leading zero. */
  lemma SecondDigitBreaks(s: Bytes)
    requires s != []
    requires var k := |SignOf(s)|; k + 1 < |s| && s[k] == 0x30 && IsDigit(s[k + 1])
    ensures Breaks(s, |SignOf(s)| + 1)
  {
    var k := |SignOf(s)|;
    assert s[..k + 1] == SignOf(s) + [0x30];
    ViableWith(Make(s[0] == MINUS, [0x30], None), [], s[..k + 1]);
    BrokenIsNotViable(s[..k + 2], k, k + 1);
  }

  lemma MakeSpells(negative: bool, whole: Bytes, d: Bytes)
    ensures SpellNumber(Make(negative, whole, Some(d))) == (if negative then [MINUS] else []) + whole + [POINT] + d
  {
    var sign := if negative then [MINUS] else [];
    Associative(sign + whole, [POINT], d);
    assert sign + whole + ([POINT] + d) + [] == sign + whole + ([POINT] + d);
  }

  lemma FracSpells(s: Bytes, i: nat, end: nat, more: Bytes, n: Number)
    requires s != [] && |SignOf(s)| < i < end <= |s| && s[i] == POINT
    requires n == Make(s[0] == MINUS, s[|SignOf(s)|..i], Some(s[i + 1..end] + more))
    ensures SpellNumber(n) == s[..end] + more
  {
    hide SpellNumber;
    var a := |SignOf(s)|;
    MakeSpells(s[0] == MINUS, s[a..i], s[i + 1..end] + more);
    assert SignOf(s) + s[a..i] + [POINT] == s[..i + 1];
    assert s[..i + 1] + s[i + 1..end] == s[..end];
    Associative(s[..i + 1], s[i + 1..end], more);
  }

  lemma PointBreaks(s: Bytes, a: nat, i: nat, end: nat)
    requires s != [] && a == |SignOf(s)| && a < i < end < |s|
    requires forall j | a <= j < i :: IsDigit(s[j])
    requires s[i] == POINT && (forall j | i < j < end :: IsDigit(s[j])) && !IsDigit(s[end])
    ensures !Viable(s[..end + 1])
  {
    BrokenIsNotViable(s[..end + 1], a, i);
  }

  /** The end of the digits after the point that must stand at `i`, or where the text breaks. */
  method FracPart(s: Bytes, i: nat) returns (bad: Option<nat>, end: nat)
    requires s != [] && |SignOf(s)| < i < |s| && !IsDigit(s[i])
    requires IsDecimal(Make(s[0] == MINUS, s[|SignOf(s)|..i], None))
    ensures bad.Some? ==> Breaks(s, bad.value)
    ensures bad.None? ==>
              && i + 1 < end == |s|
              && Spells(Make(s[0] == MINUS, s[|SignOf(s)|..i], Some(s[i + 1..end])), s)
  {
    hide Viable, SpellNumber, Broken;
    var a := |SignOf(s)|;
    var negative, whole := s[0] == MINUS, s[a..i];
    assert forall j | a <= j < i :: s[j] == whole[j - a];
    WholeSpells(s, i, Make(negative, whole, None));
    if s[i] != POINT {
      ViableWith(Make(negative, whole, None), [], s[..i]);
      BrokenIsNotViable(s[..i + 1], a, i);
      return Some(i), i;
    }
    var fracStart := i + 1;
    end := fracStart;
    while end < |s| && IsDigit(s[end])
      invariant fracStart <= end <= |s|
      invariant forall j | fracStart <= j < end :: IsDigit(s[j])
    {
      end := end + 1;
    }
    var frac := s[fracStart..end];
    if frac == [] {
      assert s[i + 1..fracStart] + [0x30] == [0x30];
      FracSpells(s, i, fracStart, [0x30], Make(negative, whole, Some([0x30])));
      ViableWith(Make(negative, whole, Some([0x30])), [0x30], s[..fracStart]);
      if end < |s| {
        PointBreaks(s, a, i, end);
      } else {
        ShortIsNotDecimal(s, a);
      }
      return Some(fracStart), end;
    }
    assert IsDigits(frac);
    assert frac + [] == frac;
    FracSpells(s, i, end, [], Make(negative, whole, Some(frac)));
    if end < |s| {
      ViableWith(Make(negative, whole, Some(frac)), [], s[..end]);
      PointBreaks(s, a, i, end);
      return Some(end), end;
    }
    assert s[..end] + [] == s;
    return None, end;
  }

  /** Units in the magnitude, unless some step of computing it exceeds `u128`, which only
      happens when the magnitude itself is out of range. */
  method ReadMagnitude(whole: Bytes, frac: Bytes) returns (r: Option<int>)
    requires IsDigits(whole) && (frac == [] || IsDigits(frac)) && |frac| <= Decimal.SCALE
    ensures var m := Digits.Value(whole) * Decimal.ONE + Digits.Value(frac) * Decimal.Pow10(Decimal.SCALE - |frac|);
      && (r.Some? ==> r.value == m)
      && (r.None? ==> m > U128_MAX)
  {
    hide Digits.Value, Decimal.Pow10;
    var mag := ReadWhole(whole);
    if mag.None? || mag.value * Decimal.ONE > U128_MAX {
      return None;
    }
    var f := ReadFrac(frac);
    assert f <= U128_MAX;
    var total := mag.value * Decimal.ONE + f;
    return if total > U128_MAX then None else Some(total);
  }

  method ReadWhole(whole: Bytes) returns (r: Option<nat>)
    requires IsDigits(whole)
    ensures r.Some? ==> r.value == Digits.Value(whole)
    ensures r.None? ==> Digits.Value(whole) > U128_MAX
  {
    var mag: nat := 0;
    var i := 0;
    assert whole[..0] == [];
    while i < |whole|
      invariant 0 <= i <= |whole|
      invariant mag == Digits.Value(whole[..i]) <= U128_MAX
    {
      ValueGrows(whole, i + 1);
      assert whole[..i + 1] == whole[..i] + [whole[i]];
      Digits.ValueAppend(whole[..i], whole[i]);
      var d: int := whole[i] - 0x30;
      if mag * 10 > U128_MAX || mag * 10 + d > U128_MAX {
        return None;
      }
      mag := mag * 10 + d;
      i := i + 1;
    }
    assert whole[..i] == whole;
    return Some(mag);
  }

  /** The fraction in units; it is less than one, so nothing here can overflow. */
  method ReadFrac(frac: Bytes) returns (f: nat)
    requires (frac == [] || IsDigits(frac)) && |frac| <= Decimal.SCALE
    ensures f == Digits.Value(frac) * Decimal.Pow10(Decimal.SCALE - |frac|) < Decimal.ONE
  {
    f := 0;
    var i := 0;
    assert frac[..0] == [];
    while i < |frac|
      invariant 0 <= i <= |frac|
      invariant f == Digits.Value(frac[..i])
    {
      assert frac[..i + 1] == frac[..i] + [frac[i]];
      Digits.ValueAppend(frac[..i], frac[i]);
      f := f * 10 + (frac[i] - 0x30);
      i := i + 1;
    }
    assert frac[..i] == frac;
    ValueBound(frac);
    PowSplit(|frac|);
    ScaledBound(f, Decimal.Pow10(|frac|), Decimal.Pow10(Decimal.SCALE - |frac|));
    f := f * Decimal.Pow10(Decimal.SCALE - |frac|);
  }

  lemma ScaledBound(f: nat, p: nat, q: nat)
    requires f < p && q > 0
    ensures f * q < p * q
  {}

  lemma PowSplit(k: nat)
    requires k <= Decimal.SCALE
    ensures Decimal.Pow10(k) * Decimal.Pow10(Decimal.SCALE - k) == Decimal.ONE
  {
    PowTable();
  }

  lemma PowTable()
    ensures Decimal.Pow10(0) == 1 && Decimal.Pow10(1) == 10 && Decimal.Pow10(2) == 100
    ensures Decimal.Pow10(3) == 1000 && Decimal.Pow10(4) == 10_000 && Decimal.Pow10(5) == 100_000
    ensures Decimal.Pow10(6) == 1_000_000 && Decimal.Pow10(7) == 10_000_000
    ensures Decimal.Pow10(8) == 100_000_000 && Decimal.Pow10(9) == Decimal.ONE
  {}

  lemma {:induction false} ValueBound(s: Bytes)
    requires Digits.AllDigits(s)
    ensures Digits.Value(s) < Decimal.Pow10(|s|)
  {
    if s != [] {
      ValueBound(s[..|s| - 1]);
    }
  }

  /** More digits never make a smaller number. */
  lemma {:induction false} ValueGrows(s: Bytes, k: nat)
    requires k <= |s| && Digits.AllDigits(s)
    ensures Digits.Value(s[..k]) <= Digits.Value(s)
  {
    if k == |s| {
      assert s[..k] == s;
    } else {
      assert s[..|s| - 1][..k] == s[..k];
      ValueGrows(s[..|s| - 1], k);
    }
  }

  // ----------------------------------------------------------------- writing

  /** `v` in exactly `k` digits. */
  function Pad(k: nat, v: nat): (s: Bytes)
    ensures |s| == k && Digits.AllDigits(s)
  { if k == 0 then [] else Pad(k - 1, v / 10) + [0x30 + v % 10] }

  /** `s` without the zeros it ends in. */
  function Trim(s: Bytes): (r: Bytes)
    ensures r <= s && (r != [] ==> r[|r| - 1] != 0x30)
    ensures forall i | |r| <= i < |s| :: s[i] == 0x30
  { if s != [] && s[|s| - 1] == 0x30 then Trim(s[..|s| - 1]) else s }

  function PrintedNumber(u: int): Number {
    var mag := Decimal.Abs(u);
    var frac := mag % Decimal.ONE;
    Make(u < 0, Digits.OfNat(mag / Decimal.ONE),
         if frac == 0 then None else Some(Trim(Pad(Decimal.SCALE, frac))))
  }

  /** The canonical text of `u` units. */
  function Print(u: int): Bytes { SpellNumber(PrintedNumber(u)) }

  /** A decimal in canonical form: no trailing zeros after the point, no negative zero. */
  predicate IsCanonical(n: Number) {
    && IsDecimal(n) && Places(n) <= Decimal.SCALE
    && (n.frac.Some? ==> n.frac.value[|n.frac.value| - 1] != 0x30)
    && (n.minus ==> Magnitude(n) != 0)
  }

  lemma {:induction false} PadValue(k: nat, v: nat)
    requires v < Decimal.Pow10(k)
    ensures Digits.Value(Pad(k, v)) == v
  {
    if k > 0 {
      PadValue(k - 1, v / 10);
      Digits.ValueAppend(Pad(k - 1, v / 10), 0x30 + v % 10);
    }
  }

  lemma {:induction false} PadOfValue(s: Bytes)
    requires Digits.AllDigits(s)
    ensures Pad(|s|, Digits.Value(s)) == s
  {
    if s != [] {
      var init, last := s[..|s| - 1], s[|s| - 1];
      PadOfValue(init);
      assert s == init + [last];
      assert Digits.Value(s) == Digits.Value(init) * 10 + (last - 0x30);
    }
  }

  /** Zeros at the end scale the value. */
  lemma {:induction false} ValueOfZeros(s: Bytes, k: nat)
    requires k <= |s| && Digits.AllDigits(s)
    requires forall i | k <= i < |s| :: s[i] == 0x30
    ensures Digits.Value(s) == Digits.Value(s[..k]) * Decimal.Pow10(|s| - k)
  {
    if k == |s| {
      assert s[..k] == s;
    } else {
      var init := s[..|s| - 1];
      ValueOfZeros(init, k);
      assert init[..k] == s[..k];
      Scale10(Digits.Value(s[..k]), Decimal.Pow10(|s| - 1 - k));
    }
  }

  lemma Scale10(v: nat, p: nat)
    ensures v * p * 10 == v * (10 * p)
  {}

  lemma {:induction false} ValueOfSomething(s: Bytes)
    requires Digits.AllDigits(s)
    requires s != [] && s[|s| - 1] != 0x30
    ensures Digits.Value(s) > 0
  {}

  /** The fraction that is printed is the fraction, in as many places as it needs. */
  lemma PrintedFrac(frac: nat)
    requires 0 < frac < Decimal.ONE
    ensures var d := Trim(Pad(Decimal.SCALE, frac));
      && IsDigits(d) && |d| <= Decimal.SCALE
      && Digits.Value(d) * Decimal.Pow10(Decimal.SCALE - |d|) == frac
  {
    PowTable();
    var s := Pad(Decimal.SCALE, frac);
    var d := Trim(s);
    PadValue(Decimal.SCALE, frac);
    ValueOfZeros(s, |d|);
    assert s[..|d|] == d;
    assert d != [] by {
      assert Digits.Value([]) == 0;
    }
  }

  lemma PrintedMagnitude(u: int)
    ensures var n := PrintedNumber(u);
      IsCanonical(n) && Magnitude(n) == Decimal.Abs(u) && Units(n) == u
  {
    hide Pad, Trim, Decimal.Pow10, Digits.OfNat, Digits.Value;
    var mag, n := Decimal.Abs(u), PrintedNumber(u);
    var whole, frac := mag / Decimal.ONE, mag % Decimal.ONE;
    Digits.ValueOfNat(whole);
    WholeIsDigits(whole);
    if frac == 0 {
      NoFrac(n);
    } else {
      PrintedFrac(frac);
    }
    assert IsDecimal(n) && Magnitude(n) == whole * Decimal.ONE + frac;
  }

  lemma WholeIsDigits(whole: nat)
    ensures IsDigits(Digits.OfNat(whole))
    ensures Digits.OfNat(whole)[0] == 0x30 ==> |Digits.OfNat(whole)| == 1
  {
    var d := Digits.OfNat(whole);
    assert forall i | 0 <= i < |d| :: IsDigit(d[i]);
  }

  lemma NoFrac(n: Number)
    requires n.frac.None?
    ensures Digits.Value(FracDigits(n)) == 0
  {}

  /** What is printed reads back as what was printed, whatever the value. */
  lemma PrintReads(u: int)
    requires Decimal.Fits(u)
    ensures Reads(Print(u), Ok(u))
  {
    PrintedMagnitude(u);
    assert Spells(PrintedNumber(u), Print(u));
  }

  /** Printing inverts reading on canonical text: it is the only canonical text of its value. */
  lemma CanonicalIsPrinted(n: Number)
    requires IsCanonical(n)
    ensures PrintedNumber(Units(n)) == n
  {
    hide Decimal.Pow10, Pad, Trim, Digits.OfNat;
    var d := FracDigits(n);
    var whole := Digits.Value(n.whole);
    var frac := Digits.Value(d) * Decimal.Pow10(Decimal.SCALE - |d|);
    Digits.OfNatValue(n.whole);
    assert Digits.Value([]) == 0;
    if n.frac.Some? {
      CanonicalFrac(d);
    }
    DivideBack(whole, frac);
  }

  lemma CanonicalFrac(d: Bytes)
    requires IsDigits(d) && |d| <= Decimal.SCALE && d[|d| - 1] != 0x30
    ensures var frac := Digits.Value(d) * Decimal.Pow10(Decimal.SCALE - |d|);
      0 < frac < Decimal.ONE && Trim(Pad(Decimal.SCALE, frac)) == d
  {
    hide Decimal.Pow10, Pad, Trim, Digits.Value;
    ValueBound(d);
    PowSplit(|d|);
    ScaledBound(Digits.Value(d), Decimal.Pow10(|d|), Decimal.Pow10(Decimal.SCALE - |d|));
    ValueOfSomething(d);
    Positive(Digits.Value(d), Decimal.Pow10(Decimal.SCALE - |d|));
    var s := d + Zeros(Decimal.SCALE - |d|);
    ValueOfZeros(s, |d|);
    assert s[..|d|] == d;
    PadOfValue(s);
    TrimZeros(d, Decimal.SCALE - |d|);
  }

  lemma Positive(v: nat, p: nat)
    requires v > 0 && p > 0
    ensures v * p > 0
  {}

  lemma DivideBack(whole: nat, frac: nat)
    requires frac < Decimal.ONE
    ensures (whole * Decimal.ONE + frac) / Decimal.ONE == whole
    ensures (whole * Decimal.ONE + frac) % Decimal.ONE == frac
  {}

  function Zeros(k: nat): (s: Bytes)
    ensures |s| == k && forall i | 0 <= i < k :: s[i] == 0x30
  { seq(k, _ => 0x30) }

  lemma {:induction false} TrimZeros(d: Bytes, k: nat)
    requires d != [] && d[|d| - 1] != 0x30
    ensures Trim(d + Zeros(k)) == d
  {
    var s := d + Zeros(k);
    if k > 0 {
      assert s[..|s| - 1] == d + Zeros(k - 1);
      TrimZeros(d, k - 1);
    } else {
      assert s == d;
    }
  }

  /** Reading what is written gives it back. */
  method WriteThenRead(u: int) returns (r: Result)
    requires Decimal.Fits(u)
    ensures r == Ok(u)
  {
    r := Parse(Print(u));
    PrintReads(u);
    ReadsUnique(Print(u), r, Ok(u));
  }
}
