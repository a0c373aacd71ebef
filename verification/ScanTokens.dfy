/** Where the bytes of a text stop being a string, a number or a word
    (crates/rustev-contract/src/bounded.rs). */
module ScanTokens {
  import opened Wrappers
  import opened JsonGrammar
  import opened JsonLexing
  import opened JsonResidual
  import opened ScanErrors

  // ---------------------------------------------------------------- strings

  /** No character of a string is spelled at the start of `x`, nor does the string end there. */
  ghost predicate NoChar(x: Bytes) {
    && !Starts(x, QUOTE)
    && forall c, y :: ValidChar(c) ==> SpellChar(c) + y != x
  }

  predicate Hex4At(x: Bytes, i: nat) {
    i + 4 <= |x| && IsHex4(x[i..i + 4])
  }

  predicate EscapeAt(x: Bytes, i: nat) {
    i + 2 <= |x| && x[i] == BACKSLASH && x[i + 1] == LOWER_U
  }

  /** Every way in which the bytes ahead are no character. */
  predicate BrokenChar(x: Bytes) {
    x == [] ||
    if x[0] == BACKSLASH then
      || |x| < 2
      || (x[1] != LOWER_U && !IsEscapeLetter(x[1]))
      || (x[1] == LOWER_U &&
            (|| !Hex4At(x, 2)
             || IsLowSurrogate(Hex4(x[2..6]))
             || (IsHighSurrogate(Hex4(x[2..6])) &&
                   (!EscapeAt(x, 6) || !Hex4At(x, 8) || !IsLowSurrogate(Hex4(x[8..12]))))))
    else
      || x[0] < 0x20
      || (x[0] >= 0x80 &&
            (|| Utf8Width(x[0]) == 0
             || Utf8Width(x[0]) > |x|
             || !IsMultibyte(x[..Utf8Width(x[0])])))
  }

  /** What breaks the escape of a code unit, in terms of where the digits are. */
  lemma EscapeAhead(b: Bytes, at: nat)
    requires EscapeAt(b, at)
    ensures !Hex4At(b, at + 2) ==> BrokenChar(b[at..])
    ensures Hex4At(b, at + 2) && IsLowSurrogate(Hex4(b[at + 2..at + 6])) ==> BrokenChar(b[at..])
    ensures Hex4At(b, at + 2) && IsHighSurrogate(Hex4(b[at + 2..at + 6])) &&
            (!EscapeAt(b, at + 6) || !Hex4At(b, at + 8) || !IsLowSurrogate(Hex4(b[at + 8..at + 12]))) ==>
              BrokenChar(b[at..])
  {
    var x := b[at..];
    SliceAhead(b, at, 2);
    SliceAhead(b, at, 8);
    assert EscapeAt(x, 6) <==> EscapeAt(b, at + 6);
  }

  lemma SliceAhead(b: Bytes, at: nat, k: nat)
    requires at <= |b|
    ensures Hex4At(b[at..], k) <==> Hex4At(b, at + k)
    ensures at + k + 4 <= |b| ==> b[at..][k..k + 4] == b[at + k..at + k + 4]
  {
    if at + k + 4 <= |b| {
      assert b[at..][k..k + 4] == b[at + k..at + k + 4];
    }
  }

  lemma PairSpells(b: Bytes, at: nat)
    requires EscapeAt(b, at) && EscapeAt(b, at + 6) && at + 12 <= |b|
    ensures b[at..at + 12] == SpellChar(Surrogates(b[at + 2..at + 6], b[at + 8..at + 12]))
  {
    SplitSlice(b, at, at + 8, at + 12);
    SplitSlice(b, at, at + 6, at + 8);
    SplitSlice(b, at, at + 2, at + 6);
    assert b[at..at + 2] == [BACKSLASH, LOWER_U] == b[at + 6..at + 8];
  }

  lemma CharIsNotBroken(c: Char, y: Bytes)
    requires ValidChar(c)
    ensures !BrokenChar(SpellChar(c) + y)
  {
    var x := SpellChar(c) + y;
    match c
    case Plain(_) =>
    case Multi(s) => assert x[..|s|] == s;
    case Escaped(_) =>
    case Unicode(h) => assert x[2..6] == h;
    case Surrogates(h, l) => assert x[2..6] == h && x[8..12] == l;
  }

  lemma BrokenIsNoChar(x: Bytes)
    requires BrokenChar(x)
    ensures NoChar(x)
  {
    forall c, y | ValidChar(c) ensures SpellChar(c) + y != x {
      CharIsNotBroken(c, y);
    }
  }

  lemma StringGoesOn(cs: seq<Char>, y: Bytes)
    requires ValidChars(cs)
    ensures !NoChar(SpellChars(cs) + ([QUOTE] + y))
  {
    AtQuote(cs, y);
    CharsStep(cs, [QUOTE] + y);
    assert cs != [] ==> ValidChar(cs[0]);
  }

  /** No string starts at a quotation mark followed by characters `cs` and then `x`. */
  lemma StuckString(p: Policy, s: Bytes, cs: seq<Char>, x: Bytes)
    requires ValidChars(cs)
    requires s == [QUOTE] + (SpellChars(cs) + x)
    requires NoChar(x) || |SpellChars(cs)| > p.limits.maxStringBytes
    ensures NoString(p, s)
  {
    forall ds, y | ValidQuoted(p, ds) ensures SpellQuoted(ds) + y != s {
      if SpellQuoted(ds) + y == s {
        QuotedStep(ds, y);
        Cancel([QUOTE], SpellChars(cs) + x, [QUOTE], SpellChars(ds) + ([QUOTE] + y));
        CharsPrefix(cs, x, ds, y);
        CharsSplit(ds, |cs|);
        StringGoesOn(ds[|cs|..], y);
      }
    }
  }

  /** The string read so far, `cs` from `start` on, goes on with the character `c`. */
  lemma {:induction false} ReadChar(b: Bytes, start: nat, pos: nat, pos': nat, cs: seq<Char>, c: Char)
    requires start <= pos <= pos' <= |b|
    requires ValidChars(cs) && b[start..pos] == SpellChars(cs)
    requires ValidChar(c) && b[pos..pos'] == SpellChar(c)
    ensures ValidChars(cs + [c]) && b[start..pos'] == SpellChars(cs + [c])
    ensures Decode(cs + [c]) == Decode(cs) + [DecodeChar(c)]
  {
    CharsAppend(cs, c);
    DecodeAppend(cs, c);
    SplitSlice(b, start, pos, pos');
  }

  lemma SplitSlice(b: Bytes, i: nat, j: nat, k: nat)
    requires i <= j <= k <= |b|
    ensures b[i..k] == b[i..j] + b[j..k]
  {}

  /** No string starts at `open` when its characters `cs` are too long or lead to no character. */
  lemma NoStringAt(limits: ParseLimits, b: Bytes, open: nat, pos: nat, cs: seq<Char>, e: BoundError)
    requires open < pos <= |b| && b[open] == QUOTE
    requires ValidChars(cs) && b[open + 1..pos] == SpellChars(cs)
    requires BrokenChar(b[pos..]) || (e.StringTooLong? && pos - open - 1 > limits.maxStringBytes)
    ensures forall p | Wider(p, limits) && Keeps(p, limits, e) :: NoString(p, b[open..])
  {
    TailBytes(b, open, pos);
    if BrokenChar(b[pos..]) {
      BrokenIsNoChar(b[pos..]);
    }
    forall p | Wider(p, limits) && Keeps(p, limits, e) ensures NoString(p, b[open..]) {
      StuckString(p, b[open..], cs, b[pos..]);
    }
  }

  lemma TailBytes(b: Bytes, open: nat, at: nat)
    requires open < at <= |b|
    ensures b[open..] == [b[open]] + (b[open + 1..at] + b[at..])
  {}

  lemma QuoteCloses(b: Bytes, open: nat, pos: nat, cs: seq<Char>)
    requires open < pos < |b| && b[open] == QUOTE && b[pos] == QUOTE
    requires b[open + 1..pos] == SpellChars(cs)
    ensures b[open..pos + 1] == SpellQuoted(cs)
  {}

  lemma DecodeAppend(cs: seq<Char>, c: Char)
    requires ValidChars(cs) && ValidChar(c)
    ensures ValidChars(cs + [c]) && Decode(cs + [c]) == Decode(cs) + [DecodeChar(c)]
  {}

  // ---------------------------------------------------------------- numbers

  /** Every way in which the bytes ahead are no number that `p` admits. */
  predicate BrokenNumber(p: Policy, s: Bytes) {
    || !InOrder(s)
    || |s| - |AfterExp(s)| > p.limits.maxNumberBytes
    || (!p.limits.allowFractionalNumbers && (Starts(AfterWhole(s), POINT) || StartsExponent(AfterFrac(s))))
  }

  lemma BrokenIsNoNumber(p: Policy, s: Bytes)
    requires BrokenNumber(p, s)
    ensures NoNumber(p, s)
  {
    forall n, y | ValidNumeral(p, n) && EndsValue(y) ensures SpellNumber(n) + y != s {
      if SpellNumber(n) + y == s {
        NumberInOrder(n, y);
      }
    }
  }

  lemma NumberRead(limits: ParseLimits, b: Bytes, from: nat, to: nat)
    requires from <= to <= |b|
    requires b[to..] == AfterExp(b[from..])
    requires !BrokenNumber(Policy(limits, true), b[from..])
    ensures var n := NumberAt(b[from..]);
      b[from..to] == SpellNumber(n) && ValidNumeral(Policy(limits, true), n) && Greedy(n, b[to..])
  {
    hide SpellNumber, Greedy, ValidNumber, AfterExp, AfterFrac, AfterWhole, AfterSign, InOrder;
    var s := b[from..];
    NumberAtHolds(s);
    var n := NumberAt(s);
    var x := b[to..];
    assert s == b[from..to] + x;
    assert |SpellNumber(n) + x| == |s|;
    Cancel(SpellNumber(n), x, b[from..to], x);
  }

  /** What a refused part of a number, `used` bytes into it, has wrong with it: it is a fraction
      where none may be, or else too long, or else it lacks a digit. */
  predicate PartFault(limits: ParseLimits, e: BoundError, used: nat, length: nat, inOrder: bool, fraction: bool) {
    var barred := fraction && !limits.allowFractionalNumbers;
    match e
    case FractionalNumber(_) => barred
    case NumberTooLong(_, _) => !barred && used + length > limits.maxNumberBytes
    case Syntax(_, _) => !barred && used + length <= limits.maxNumberBytes && !inOrder
    case _ => false
  }

  /** The faults that a part of a number can report. */
  lemma PartFaults(limits: ParseLimits, b: Bytes, start: nat, used: nat, length: nat, inOrder: bool, fraction: bool)
    ensures start < |b| && used + length > limits.maxNumberBytes && (fraction ==> limits.allowFractionalNumbers) ==>
              Reports(limits, b, NumberTooLong(limits.maxNumberBytes, start))
              && PartFault(limits, NumberTooLong(limits.maxNumberBytes, start), used, length, inOrder, fraction)
    ensures !limits.allowFractionalNumbers && fraction ==>
              forall k | 0 <= k < |b| :: Reports(limits, b, FractionalNumber(k))
                                         && PartFault(limits, FractionalNumber(k), used, length, inOrder, fraction)
    ensures !inOrder && used + length <= limits.maxNumberBytes && (fraction ==> limits.allowFractionalNumbers) ==>
              forall k, what | 0 <= k <= |b| :: Reports(limits, b, Syntax(k, what))
                                                && PartFault(limits, Syntax(k, what), used, length, inOrder, fraction)
  {}

  lemma FaultIsBroken(limits: ParseLimits, e: BoundError, s: Bytes)
    requires var w, f, x := AfterSign(s), AfterWhole(s), AfterFrac(s);
      || PartFault(limits, e, 0, SignLength(s), true, false)
      || PartFault(limits, e, |s| - |w|, WholeLength(w), WholeLength(w) > 0, false)
      || PartFault(limits, e, |s| - |f|, FracLength(f), FracInOrder(f), Starts(f, POINT))
      || PartFault(limits, e, |s| - |x|, ExpLength(x), ExpInOrder(x), StartsExponent(x))
    ensures forall p | Wider(p, limits) && Keeps(p, limits, e) :: BrokenNumber(p, s)
  {}

  /** Parts that were read without a fault make a number that is not broken. */
  lemma AllPartsRead(limits: ParseLimits, s: Bytes)
    requires WholeLength(AfterSign(s)) > 0 && FracInOrder(AfterWhole(s)) && ExpInOrder(AfterFrac(s))
    requires |s| - |AfterExp(s)| <= limits.maxNumberBytes
    requires Starts(AfterWhole(s), POINT) || StartsExponent(AfterFrac(s)) ==> limits.allowFractionalNumbers
    ensures !BrokenNumber(Policy(limits, true), s)
  {}

  lemma OtherWord(x: Bytes, word: Bytes)
    requires word == TRUE || word == FALSE || word == NULL
    requires x != [] && x[0] == word[0] && !(word <= x)
    ensures NoWord(x)
  {
    forall y ensures TRUE + y != x && FALSE + y != x && NULL + y != x {
      assert word + y != x;
      assert (TRUE + y)[0] == TRUE[0] && (FALSE + y)[0] == FALSE[0] && (NULL + y)[0] == NULL[0];
    }
  }

  // -------------------------------------------------------- unfinished tokens

  /** Some character, string or number starts with `x`. */
  ghost predicate StartsChar(x: Bytes) {
    exists c :: ValidChar(c) && x <= SpellChar(c)
  }

  ghost predicate StartsString(x: Bytes) {
    exists cs :: ValidChars(cs) && x <= [QUOTE] + SpellChars(cs)
  }

  ghost predicate StartsNumber(x: Bytes) {
    exists n :: ValidNumber(n) && x <= SpellNumber(n)
  }

  lemma NothingStarts()
    ensures StartsNumber([]) && StartsString([]) && StartsChar([])
  {
    var zero := Number(false, [0x30], None, None);
    assert ValidNumber(zero) && [] <= SpellNumber(zero);
    assert ValidChars([]) && [] <= [QUOTE] + SpellChars([]);
    assert ValidChar(Plain(0x61)) && [] <= SpellChar(Plain(0x61));
  }

  predicate AllHex(d: Bytes) {
    forall i | 0 <= i < |d| :: IsHex(d[i])
  }

  /** The first digits of a code unit are those of a low surrogate. */
  predicate LeadsLow(d: Bytes)
    requires AllHex(d)
  {
    (|d| >= 1 ==> HexDigit(d[0]) == 0xD) && (|d| >= 2 ==> HexDigit(d[1]) >= 0xC)
  }

  /** The first digits of a code unit rule it out: a low surrogate has to follow a high one, and
      nothing else may. */
  predicate NoUnit(d: Bytes, afterHigh: bool)
    requires AllHex(d)
  {
    if afterHigh then !LeadsLow(d) else |d| >= 2 && LeadsLow(d)
  }

  /** Backslashes that stand directly before `i`. */
  function Slashes(b: Bytes, i: nat): nat
    requires i <= |b|
  {
    if i == 0 || b[i - 1] != BACKSLASH then 0 else 1 + Slashes(b, i - 1)
  }

  /** Inside a string, the escape of a code unit starts at `i`. */
  predicate UnitAt(b: Bytes, i: nat) {
    EscapeAt(b, i) && Slashes(b, i) % 2 == 0
  }

  /** A high surrogate is spelled at `i`. */
  predicate HighUnit(b: Bytes, i: nat) {
    EscapeAt(b, i) && Hex4At(b, i + 2) && IsHighSurrogate(Hex4(b[i + 2..i + 6]))
  }

  /** Inside a string, the escape of a high surrogate ends at `i`. */
  predicate AfterHigh(b: Bytes, i: nat) {
    i >= 6 && UnitAt(b, i - 6) && HighUnit(b, i - 6)
  }

  /** Inside a string, the digits of the code unit that starts at `i` rule it out before `k`. */
  predicate RulesOut(b: Bytes, i: nat, k: nat) {
    && UnitAt(b, i) && i + 2 <= k < i + 6 && k <= |b|
    && AllHex(b[i + 2..k]) && NoUnit(b[i + 2..k], AfterHigh(b, i))
  }

  /** The error asks for a digit of a code unit that the digits before have ruled out. */
  predicate Late(b: Bytes, e: BoundError) {
    e.Syntax? && e.expected == HEX_DIGIT && exists i | 0 <= i < |b| :: RulesOut(b, i, e.offset)
  }

  /** A digit is missing at `k` from the escape that starts at `at`, or from its second half. */
  predicate DigitMissing(b: Bytes, at: nat, k: nat) {
    && EscapeAt(b, at) && k <= |b|
    && if k < at + 6 then at + 2 <= k && AllHex(b[at + 2..k])
       else
         && at + 8 <= k < at + 12
         && HighUnit(b, at) && EscapeAt(b, at + 6) && AllHex(b[at + 8..k])
  }

  /** An error in the character at `at` points to what does not belong to one, or to the missing
      digit of an escape. */
  ghost predicate CharStops(b: Bytes, at: nat, e: BoundError) {
    && Offset(e).Some?
    && var k := Offset(e).value;
    && at <= k <= |b|
    && if e.Syntax? && e.expected == HEX_DIGIT then DigitMissing(b, at, k) else StartsChar(b[at..k])
  }

  /** An error in the string at `open` points to where no string can go on, or it is late. */
  ghost predicate StringStops(b: Bytes, open: nat, e: BoundError) {
    && Offset(e).Some?
    && var k := Offset(e).value;
    && open <= k <= |b|
    && if Late(b, e) then open < k && forall p, y :: NoString(p, b[open..k] + y) else StartsString(b[open..k])
  }

  lemma SurrogateDigits(h: Bytes)
    requires IsHex4(h)
    ensures IsLowSurrogate(Hex4(h)) <==> HexDigit(h[0]) == 0xD && HexDigit(h[1]) >= 0xC
    ensures IsHighSurrogate(Hex4(h)) <==> HexDigit(h[0]) == 0xD && 0x8 <= HexDigit(h[1]) < 0xC
  {
    hide HexDigit;
    DigitRange(h[0]);
    DigitRange(h[1]);
    DigitRange(h[2]);
    DigitRange(h[3]);
  }

  lemma DigitRange(b: Byte)
    requires IsHex(b)
    ensures HexDigit(b) < 16
  {}

  /** Digits completed with zeros. */
  function Filled(d: Bytes): (h: Bytes)
    requires AllHex(d) && |d| <= 4
    ensures IsHex4(h) && d <= h
  {
    d + seq(4 - |d|, _ => 0x30)
  }

  const LOWEST_LOW: Bytes := [0x44, 0x43, 0x30, 0x30]

  lemma FirstUnit(b: Bytes, at: nat, k: nat)
    requires DigitMissing(b, at, k) && k < at + 6
    ensures var d := b[at + 2..k];
      if NoUnit(d, false) then forall y :: BrokenChar(b[at..k] + y) else StartsChar(b[at..k])
  {
    var d := b[at + 2..k];
    assert b[at..k] == [BACKSLASH, LOWER_U] + d;
    if NoUnit(d, false) {
      forall y ensures BrokenChar(b[at..k] + y) {
        var x := b[at..k] + y;
        if Hex4At(x, 2) {
          SurrogateDigits(x[2..6]);
        }
      }
    } else {
      var h := Filled(d);
      SurrogateDigits(h);
      var c := if IsHighSurrogate(Hex4(h)) then Surrogates(h, LOWEST_LOW) else Unicode(h);
      SurrogateDigits(LOWEST_LOW);
      assert ValidChar(c) && b[at..k] <= SpellChar(c);
    }
  }

  lemma SecondUnit(b: Bytes, at: nat, k: nat)
    requires DigitMissing(b, at, k) && k >= at + 6
    ensures var d := b[at + 8..k];
      if NoUnit(d, true) then forall y :: BrokenChar(b[at..k] + y) else StartsChar(b[at..k])
  {
    var d := b[at + 8..k];
    var h := b[at + 2..at + 6];
    assert b[at..k] == [BACKSLASH, LOWER_U] + h + [BACKSLASH, LOWER_U] + d;
    if NoUnit(d, true) {
      forall y ensures BrokenChar(b[at..k] + y) {
        NotLow(b[at..k], h, d, y);
      }
    } else {
      var l := LowFilled(d);
      assert ValidChar(Surrogates(h, l)) && b[at..k] <= SpellChar(Surrogates(h, l));
    }
  }

  lemma NotLow(c: Bytes, h: Bytes, d: Bytes, y: Bytes)
    requires IsHex4(h) && IsHighSurrogate(Hex4(h)) && AllHex(d) && |d| < 4 && NoUnit(d, true)
    requires c == [BACKSLASH, LOWER_U] + h + [BACKSLASH, LOWER_U] + d
    ensures BrokenChar(c + y)
  {
    hide Hex4, HexDigit;
    var x := c + y;
    assert x[2..6] == h && Hex4At(x, 2) && EscapeAt(x, 6);
    assert |x| >= 12 && |d| >= 1 ==> x[8..12][0] == d[0];
    assert |x| >= 12 && |d| >= 2 ==> x[8..12][1] == d[1];
    if Hex4At(x, 8) {
      SurrogateDigits(x[8..12]);
    }
  }

  /** Digits completed to a low surrogate. */
  function LowFilled(d: Bytes): (h: Bytes)
    requires AllHex(d) && |d| < 4 && LeadsLow(d)
    ensures IsHex4(h) && d <= h && IsLowSurrogate(Hex4(h))
  {
    var h := d + LOWEST_LOW[|d|..];
    SurrogateDigits(h);
    h
  }

  /** The characters before the end of some are read up to where the last one starts. */
  lemma LastChar(b: Bytes, open: nat, j: nat, cs: seq<Char>)
    requires open < j <= |b| && cs != [] && ValidChars(cs) && b[open + 1..j] == SpellChars(cs)
    ensures var c, ds := cs[|cs| - 1], cs[..|cs| - 1];
      var m := j - |SpellChar(c)|;
      open < m < j && ValidChars(ds) && b[open + 1..m] == SpellChars(ds) && b[m..j] == SpellChar(c)
  {
    hide SpellChar, ValidChar, SpellChars;
    var c, ds := cs[|cs| - 1], cs[..|cs| - 1];
    assert cs == ds + [c];
    CharsAppend(ds, c);
    CharStart(c);
    var m := j - |SpellChar(c)|;
    SplitSlice(b, open + 1, m, j);
    Cancel(b[open + 1..m], b[m..j], SpellChars(ds), SpellChar(c));
  }

  /** How a character that was read ends. */
  lemma CharEnd(b: Bytes, m: nat, j: nat, c: Char)
    requires m < j <= |b| && ValidChar(c) && b[m..j] == SpellChar(c)
    ensures match c
      case Plain(_) => m == j - 1 && b[j - 1] != BACKSLASH
      case Multi(_) => b[j - 1] >= 0x80
      case Escaped(l) => m == j - 2 && b[j - 2] == BACKSLASH && b[j - 1] == l && l != LOWER_U && !IsHex(BACKSLASH)
      case Unicode(_) => j >= 6 && EscapeAt(b, j - 6) && Hex4At(b, j - 4) && !HighUnit(b, j - 6)
      case Surrogates(_, _) => j >= 6 && EscapeAt(b, j - 6) && Hex4At(b, j - 4) && !HighUnit(b, j - 6)
  {
    var s := SpellChar(c);
    assert b[m] == s[0] && b[j - 1] == s[|s| - 1];
    match c
    case Plain(_) =>
    case Multi(x) => assert s[|s| - 1] == x[|x| - 1];
    case Escaped(_) =>
    case Unicode(h) =>
      assert b[m + 1] == s[1];
      assert b[j - 4..j] == b[m..j][2..6] == h;
    case Surrogates(_, l) =>
      assert b[m..j][6] == s[6] && b[m..j][7] == s[7];
      assert b[j - 4..j] == b[m..j][8..12] == l;
  }

  /** Where a character of a string starts, the backslashes before are in pairs. */
  lemma {:induction false} EvenSlashes(b: Bytes, open: nat, j: nat, cs: seq<Char>)
    requires open < j <= |b| && b[open] == QUOTE && ValidChars(cs) && b[open + 1..j] == SpellChars(cs)
    ensures Slashes(b, j) % 2 == 0
  {
    hide SpellChar, SpellChars, ValidChar, IsHex, HighUnit;
    if cs == [] {
      assert SpellChars(cs) == [] by { CharsStep(cs, []); }
      assert j == open + 1;
    } else {
      LastChar(b, open, j, cs);
      var c, ds := cs[|cs| - 1], cs[..|cs| - 1];
      CharEnd(b, j - |SpellChar(c)|, j, c);
      if c == Escaped(BACKSLASH) {
        EvenSlashes(b, open, j - 2, ds);
      } else if c.Unicode? || c.Surrogates? {
        HexIsNoSlash(b, j - 4);
      }
    }
  }

  lemma HexIsNoSlash(b: Bytes, i: nat)
    requires Hex4At(b, i)
    ensures b[i] != BACKSLASH && b[i + 1] != BACKSLASH && b[i + 2] != BACKSLASH && b[i + 3] != BACKSLASH
    ensures b[i] != LOWER_U && b[i + 1] != LOWER_U && b[i + 2] != LOWER_U && b[i + 3] != LOWER_U
    ensures b[i] != QUOTE && b[i + 1] != QUOTE && b[i + 2] != QUOTE && b[i + 3] != QUOTE
    ensures b[i] < 0x80 && b[i + 1] < 0x80 && b[i + 2] < 0x80 && b[i + 3] < 0x80
  {
    assert b[i] == b[i..i + 4][0] && b[i + 1] == b[i..i + 4][1] && b[i + 2] == b[i..i + 4][2] && b[i + 3] == b[i..i + 4][3];
  }

  /** No character of a string ends within the escape of a high surrogate, or at its end. */
  lemma {:induction false} InsideHigh(b: Bytes, open: nat, u: nat, j: nat, cs: seq<Char>)
    requires open < j <= |b| && b[open] == QUOTE && ValidChars(cs) && b[open + 1..j] == SpellChars(cs)
    requires u < j <= u + 6
    ensures !(HighUnit(b, u) && UnitAt(b, u))
    decreases |cs|
  {
    hide SpellChar, SpellChars, ValidChar, IsHex, Hex4;
    if HighUnit(b, u) && UnitAt(b, u) {
      HexIsNoSlash(b, u + 2);
      if cs == [] {
        assert SpellChars(cs) == [] by { CharsStep(cs, []); }
        assert false;
      } else {
        LastChar(b, open, j, cs);
        var c, ds := cs[|cs| - 1], cs[..|cs| - 1];
        CharEnd(b, j - |SpellChar(c)|, j, c);
        if c.Plain? {
          InsideHigh(b, open, u, j - 1, ds);
        } else if c.Escaped? {
          if j == u + 1 {
            EvenSlashes(b, open, j - 2, ds);
          }
          assert false;
        } else if c.Multi? {
          assert false;
        } else {
          HexIsNoSlash(b, j - 4);
          assert false;
        }
      }
    }
  }

  lemma RulesOutOnce(b: Bytes, i: nat, j: nat, k: nat)
    requires EscapeAt(b, i) && EscapeAt(b, j)
    requires i + 2 <= k < i + 6 && j + 2 <= k < j + 6 && k <= |b|
    requires AllHex(b[i + 2..k]) && AllHex(b[j + 2..k])
    ensures i == j
  {
    assert forall n | i + 2 <= n < k :: b[n] == b[i + 2..k][n - i - 2];
    assert forall n | j + 2 <= n < k :: b[n] == b[j + 2..k][n - j - 2];
  }

  /** An error is late exactly when the digits of its escape rule out the code unit. */
  lemma LateUnit(b: Bytes, open: nat, at: nat, cs: seq<Char>, e: BoundError)
    requires open < at <= |b| && b[open] == QUOTE && ValidChars(cs) && b[open + 1..at] == SpellChars(cs)
    requires e.Syntax? && e.expected == HEX_DIGIT && DigitMissing(b, at, e.offset)
    ensures var k := e.offset;
      Late(b, e) <==> if k < at + 6 then NoUnit(b[at + 2..k], false) else NoUnit(b[at + 8..k], true)
  {
    hide SpellChar, ValidChar, SpellChars, Hex4, NoUnit;
    var k := e.offset;
    var i := if k < at + 6 then at else at + 6;
    EvenSlashes(b, open, at, cs);
    if k < at + 6 {
      if at >= 6 {
        InsideHigh(b, open, at - 6, at, cs);
      }
    } else {
      HexIsNoSlash(b, at + 2);
    }
    assert UnitAt(b, i) && (AfterHigh(b, i) <==> k >= at + 6);
    if Late(b, e) {
      var j :| 0 <= j < |b| && RulesOut(b, j, k);
      RulesOutOnce(b, i, j, k);
    }
    assert RulesOut(b, i, k) <==> NoUnit(b[i + 2..k], k >= at + 6);
  }

  lemma StringStopsAt(b: Bytes, open: nat, at: nat, cs: seq<Char>, e: BoundError)
    requires open < at <= |b| && b[open] == QUOTE && ValidChars(cs) && b[open + 1..at] == SpellChars(cs)
    requires CharStops(b, at, e)
    ensures StringStops(b, open, e)
  {
    hide BrokenChar, DigitMissing, RulesOut, NoUnit;
    var k := Offset(e).value;
    if e.Syntax? && e.expected == HEX_DIGIT {
      LateUnit(b, open, at, cs, e);
      if k < at + 6 {
        FirstUnit(b, at, k);
      } else {
        SecondUnit(b, at, k);
      }
    }
    if Late(b, e) {
      DeadString(b, open, at, k, cs);
    } else {
      LiveString(b, open, at, k, cs);
    }
  }

  lemma TooLongStops(b: Bytes, open: nat, limit: nat)
    requires open <= |b|
    ensures StringStops(b, open, StringTooLong(limit, open))
  {
    NothingStarts();
    assert b[open..open] == [];
  }

  lemma BackslashStarts(b: Bytes, at: nat)
    requires at < |b| && b[at] == BACKSLASH
    ensures StartsChar(b[at..at + 1])
  {
    assert ValidChar(Escaped(BACKSLASH)) && b[at..at + 1] <= SpellChar(Escaped(BACKSLASH));
  }

  lemma DeadString(b: Bytes, open: nat, at: nat, k: nat, cs: seq<Char>)
    requires open < at <= k <= |b| && b[open] == QUOTE && ValidChars(cs) && b[open + 1..at] == SpellChars(cs)
    requires forall y :: BrokenChar(b[at..k] + y)
    ensures forall p, y :: NoString(p, b[open..k] + y)
  {
    hide BrokenChar, NoString, NoChar, SpellChar, ValidChar, SpellChars;
    forall p, y ensures NoString(p, b[open..k] + y) {
      var x := b[at..k] + y;
      BrokenIsNoChar(x);
      StringBytes(b, open, at, k, y);
      StuckString(p, b[open..k] + y, cs, x);
    }
  }

  lemma StringBytes(b: Bytes, open: nat, at: nat, k: nat, y: Bytes)
    requires open < at <= k <= |b|
    ensures b[open..k] + y == [b[open]] + (b[open + 1..at] + (b[at..k] + y))
  {
    SplitSlice(b, open + 1, at, k);
    SplitSlice(b, open, open + 1, k);
    assert b[open..open + 1] == [b[open]];
    Associative([b[open]], b[open + 1..k], y);
    Associative(b[open + 1..at], b[at..k], y);
  }

  lemma PrefixAfter(a: Bytes, x: Bytes, y: Bytes)
    requires x <= y
    ensures a + x <= a + y
  {
    assert y == x + y[|x|..];
    Associative(a, x, y[|x|..]);
  }

  lemma LiveString(b: Bytes, open: nat, at: nat, k: nat, cs: seq<Char>)
    requires open < at <= k <= |b| && b[open] == QUOTE && ValidChars(cs) && b[open + 1..at] == SpellChars(cs)
    requires StartsChar(b[at..k])
    ensures StartsString(b[open..k])
  {
    hide SpellChar, ValidChar, SpellChars;
    var c :| ValidChar(c) && b[at..k] <= SpellChar(c);
    CharsAppend(cs, c);
    var a := [QUOTE] + SpellChars(cs);
    assert b[open..k] == a + b[at..k];
    assert [QUOTE] + SpellChars(cs + [c]) == a + SpellChar(c);
    PrefixAfter(a, b[at..k], SpellChar(c));
    assert ValidChars(cs + [c]);
  }

  /** An error in a part of the number at `start` points to the number, to the part at `from`, or
      to where a digit is missing in it, `inner` bytes further. */
  predicate PartStops(e: BoundError, start: nat, from: nat, inner: nat) {
    match e
    case NumberTooLong(_, k) => k == start
    case FractionalNumber(k) => k == from
    case Syntax(k, expected) => k == from + inner && expected == "digit"
    case _ => false
  }

  /** An error in the number at `start` points to where a number can still go on. */
  ghost predicate NumberStops(b: Bytes, start: nat, e: BoundError) {
    && Offset(e).Some? && !Late(b, e)
    && start <= Offset(e).value <= |b|
    && StartsNumber(b[start..Offset(e).value])
  }

  /** What comes of reading an exponent, if there is one, from `from` up to `to`. */
  predicate ExpRead(limits: ParseLimits, b: Bytes, start: nat, from: nat, to: nat, r: Result<()>)
    requires start <= from <= to <= |b|
  {
    var e := b[from..];
    match r
    case Ok(_) =>
      && b[to..] == e[ExpLength(e)..] && ExpInOrder(e) && to - start <= limits.maxNumberBytes
      && (StartsExponent(e) ==> limits.allowFractionalNumbers)
    case Err(error) =>
      && Reports(limits, b, error)
      && PartFault(limits, error, from - start, ExpLength(e), ExpInOrder(e), StartsExponent(e))
      && PartStops(error, start, from, if e == [] then 0 else ExpDigits(e))
  }

  /** Bytes of an exponent before its digits. */
  function ExpMark(b: Bytes, from: nat): nat
    requires from < |b|
  { if StartsWithSign(b[from + 1..]) then 2 else 1 }

  lemma ExpShape(b: Bytes, from: nat)
    requires from <= |b|
    ensures var e := b[from..];
      && (!StartsExponent(e) ==> ExpLength(e) == 0 && e[0..] == b[from..])
      && (StartsExponent(e) ==>
            && ExpDigits(e) == ExpMark(b, from)
            && from + ExpMark(b, from) <= |b|
            && ExpLength(e) == ExpMark(b, from) + DigitRun(b[from + ExpMark(b, from)..])
            && e[ExpLength(e)..] == b[from + ExpLength(e)..])
  {
    var e := b[from..];
    if StartsExponent(e) {
      assert e[1..] == b[from + 1..];
      assert e[ExpDigits(e)..] == b[from + ExpDigits(e)..];
      var n := ExpLength(e);
      assert e[n..] == b[from + n..];
    }
  }

  /** What each way to read an exponent comes to, in terms of its mark and digits. */
  lemma ExpAhead(limits: ParseLimits, b: Bytes, start: nat, from: nat)
    requires start <= from <= |b|
    ensures !StartsExponent(b[from..]) && from - start <= limits.maxNumberBytes ==> ExpRead(limits, b, start, from, from, Ok(()))
    ensures StartsExponent(b[from..]) ==>
              var digits := from + ExpMark(b, from);
              var run := DigitRun(b[digits..]);
              && (!limits.allowFractionalNumbers ==> ExpRead(limits, b, start, from, from, Err(FractionalNumber(from))))
              && (limits.allowFractionalNumbers && run == 0 && digits - start <= limits.maxNumberBytes ==>
                    ExpRead(limits, b, start, from, digits, Err(Syntax(digits, "digit"))))
              && (limits.allowFractionalNumbers && run > 0 && digits + run - start <= limits.maxNumberBytes ==>
                    ExpRead(limits, b, start, from, digits + run, Ok(())))
              && (forall to | from <= to <= digits + run && to - start > limits.maxNumberBytes && limits.allowFractionalNumbers ::
                    ExpRead(limits, b, start, from, to, Err(NumberTooLong(limits.maxNumberBytes, start))))
  {
    hide ExpLength, ExpDigits, ExpMark, DigitRun;
    ExpShape(b, from);
  }

  /** The number with the sign and the whole part that start `s`. */
  function WithWhole(s: Bytes, frac: Option<Bytes>, exp: Option<Exponent>): (n: Number)
    ensures n.frac == frac && n.exp == exp
  {
    var w := AfterSign(s);
    Number(SignLength(s) == 1, w[..WholeLength(w)], frac, exp)
  }

  lemma WithWholeSpells(s: Bytes, frac: Option<Bytes>, exp: Option<Exponent>)
    requires WholeLength(AfterSign(s)) > 0
    ensures var n := WithWhole(s, frac, exp);
      && SpellNumber(n) == s[..|s| - |AfterWhole(s)|] + SpellFrac(n) + SpellExp(n)
      && IsDigits(n.whole) && (n.whole[0] == 0x30 ==> |n.whole| == 1)
  {
    hide WholeLength, SpellFrac, SpellExp, IsDigits;
    var w, n := AfterSign(s), WithWhole(s, frac, exp);
    WholeAtHolds(w);
    assert s[..|s| - |AfterWhole(s)|] == s[..SignLength(s)] + w[..WholeLength(w)];
    assert SpellSign(n) == s[..SignLength(s)];
  }

  /** What stands before the whole part. */
  lemma SignStops(s: Bytes)
    ensures StartsNumber(s[..|s| - |AfterSign(s)|])
  {
    var zero := Number(SignLength(s) == 1, [0x30], None, None);
    assert s[..|s| - |AfterSign(s)|] == SpellSign(zero);
    assert ValidNumber(zero) && SpellSign(zero) <= SpellNumber(zero);
  }

  /** What stands after the whole part, and before the digits of a fraction. */
  lemma WholeStops(s: Bytes)
    requires WholeLength(AfterSign(s)) > 0
    ensures StartsNumber(s[..|s| - |AfterWhole(s)|])
    ensures Starts(AfterWhole(s), POINT) ==> StartsNumber(s[..|s| - |AfterWhole(s)| + 1])
  {
    hide WholeLength, WithWhole, SpellNumber;
    var k := |s| - |AfterWhole(s)|;
    var n := WithWhole(s, None, None);
    WithWholeSpells(s, None, None);
    assert SpellFrac(n) == [] && SpellExp(n) == [];
    assert ValidNumber(n) && s[..k] <= SpellNumber(n);
    if Starts(AfterWhole(s), POINT) {
      var m := WithWhole(s, Some([0x30]), None);
      WithWholeSpells(s, Some([0x30]), None);
      assert s[k] == POINT && s[..k + 1] == s[..k] + [POINT];
      assert SpellFrac(m) == [POINT] + [0x30] && SpellExp(m) == [];
      assert ValidNumber(m) && s[..k + 1] <= SpellNumber(m);
    }
  }

  /** What stands before an exponent, and before its digits. */
  lemma ExpStops(s: Bytes)
    requires WholeLength(AfterSign(s)) > 0 && FracInOrder(AfterWhole(s))
    ensures StartsNumber(s[..|s| - |AfterFrac(s)|])
    ensures var x := AfterFrac(s);
      StartsExponent(x) ==> StartsNumber(s[..|s| - |x| + ExpDigits(x)])
  {
    hide WholeLength, FracLength, WithWhole, SpellNumber, FracAt, SpellFrac;
    var f, x := AfterWhole(s), AfterFrac(s);
    var frac, k := FracAt(f), |s| - |x|;
    var n := WithWhole(s, frac, None);
    WithWholeSpells(s, frac, None);
    FracAtSpells(s, n, frac);
    assert SpellExp(n) == [];
    assert ValidNumber(n) && s[..k] <= SpellNumber(n);
    if StartsExponent(x) {
      var j := ExpDigits(x);
      var exp := Exponent(x[0], if j == 2 then Some(x[1]) else None, [0x30]);
      var m := WithWhole(s, frac, Some(exp));
      WithWholeSpells(s, frac, Some(exp));
      FracAtSpells(s, m, frac);
      assert s[..k + j] == s[..k] + x[..j];
      assert x[1..] != [] ==> x[1..][0] == x[1];
      assert SpellExp(m) == x[..j] + [0x30];
      assert ValidNumber(m) && s[..k + j] <= SpellNumber(m);
    }
  }

  lemma FracAtSpells(s: Bytes, n: Number, frac: Option<Bytes>)
    requires FracInOrder(AfterWhole(s)) && frac == FracAt(AfterWhole(s)) && n.frac == frac
    ensures s[..|s| - |AfterWhole(s)|] + SpellFrac(n) == s[..|s| - |AfterFrac(s)|]
    ensures frac.Some? ==> IsDigits(frac.value)
  {
    hide AfterWhole, FracLength, FracInOrder, FracAt, SpellFrac, IsDigits;
    var f := AfterWhole(s);
    FracAtHolds(n, f);
    WholeEnds(s);
    var k, m := |s| - |f|, FracLength(f);
    SplitSlice(s, 0, k, k + m);
    assert f[..m] == s[k..k + m];
    assert s[..k] == s[0..k] && s[..k + m] == s[0..k + m];
  }

  lemma WholeEnds(s: Bytes)
    ensures AfterWhole(s) == s[|s| - |AfterWhole(s)|..]
  {}

  lemma NumberStopsAt(b: Bytes, start: nat, e: BoundError, k: nat)
    requires start <= |b|
    requires Offset(e) == Some(k) && (e.Syntax? ==> e.expected == "digit")
    requires var s := b[start..];
      var w, f, x := AfterSign(s), AfterWhole(s), AfterFrac(s);
      || k == start || k == |b| - |w|
      || (WholeLength(w) > 0 && (k == |b| - |f| || (k == |b| - |f| + 1 && Starts(f, POINT))))
      || (WholeLength(w) > 0 && FracInOrder(f)
          && (k == |b| - |x| || (StartsExponent(x) && k == |b| - |x| + ExpDigits(x))))
    ensures NumberStops(b, start, e)
  {
    hide WholeLength, FracInOrder, RulesOut, StartsNumber, AfterSign, AfterWhole, AfterFrac, ExpDigits, SpellNumber,
         ValidNumber;
    var s := b[start..];
    if k == start {
      NothingStarts();
    } else if k == |b| - |AfterSign(s)| {
      SignStops(s);
    } else if WholeLength(AfterSign(s)) > 0 && k <= |b| - |AfterWhole(s)| + 1
              && (k == |b| - |AfterWhole(s)| || Starts(AfterWhole(s), POINT)) {
      WholeStops(s);
    } else {
      ExpStops(s);
    }
    SliceFrom(b, start, k);
  }

  /** An error in a part of a number stops where a number can still go on. */
  lemma PartStopsAt(limits: ParseLimits, b: Bytes, start: nat, e: BoundError)
    requires start <= |b|
    requires var s := b[start..];
      var w, f, x := AfterSign(s), AfterWhole(s), AfterFrac(s);
      || PartStops(e, start, start, 0)
      || PartStops(e, start, |b| - |w|, 0)
      || (WholeLength(w) > 0 && PartStops(e, start, |b| - |f|, 1)
          && PartFault(limits, e, |s| - |f|, FracLength(f), FracInOrder(f), Starts(f, POINT)))
      || (WholeLength(w) > 0 && FracInOrder(f) && PartStops(e, start, |b| - |x|, if x == [] then 0 else ExpDigits(x))
          && PartFault(limits, e, |s| - |x|, ExpLength(x), ExpInOrder(x), StartsExponent(x)))
    ensures NumberStops(b, start, e)
  {
    hide WholeLength, FracLength, ExpLength, NumberStops, AfterSign, AfterWhole, AfterFrac, ExpDigits;
    NumberStopsAt(b, start, e, Offset(e).value);
  }

  lemma SliceFrom(b: Bytes, start: nat, k: nat)
    requires start <= k <= |b|
    ensures b[start..k] == b[start..][..k - start]
    ensures k == start ==> b[start..k] == []
  {}
}
