/** At which byte, and with which error, a scan that has read a text up to some state comes to a
    halt there (crates/rustev-contract/src/bounded.rs). */
module ScanHalts {
  import opened Wrappers
  import opened Ascii
  import opened JsonGrammar
  import opened JsonLexing
  import opened JsonResidual
  import opened ScanErrors
  import opened ScanTokens

  // ---------------------------------------------------------------- strings

  /** The escape of a code unit at `at` is all there, but it is half of a surrogate pair whose
      other half is not where it belongs. */
  predicate Unpaired(b: Bytes, at: nat) {
    && EscapeAt(b, at) && Hex4At(b, at + 2)
    && var unit := Hex4(b[at + 2..at + 6]);
    || IsLowSurrogate(unit)
    || (IsHighSurrogate(unit) &&
          (|| !EscapeAt(b, at + 6)
           || (Hex4At(b, at + 8) && !IsLowSurrogate(Hex4(b[at + 8..at + 12])))))
  }

  /** No UTF-8 sequence is at `at`. */
  predicate NotUtf8(b: Bytes, at: nat) {
    && at < |b| && b[at] >= 0x80
    && var width := Utf8Width(b[at]);
    (width == 0 || at + width > |b| || !IsMultibyte(b[at..at + width]))
  }

  /** Inside a string, at the start `at` of a character that is not one. */
  predicate CharHalts(b: Bytes, at: nat, e: BoundError)
    requires at <= |b|
  {
    match e
    case Syntax(k, what) =>
      && k <= |b|
      && if what == HEX_DIGIT then DigitMissing(b, at, k) && (k < |b| ==> !IsHex(b[k]))
         else if what == PAIR then k == at && Unpaired(b, at)
         else if at == |b| then k == at && what == "closing '\"'"
         else if b[at] == BACKSLASH then
           && k == at + 1 && what == "escape character"
           && (k < |b| ==> b[k] != LOWER_U && !IsEscapeLetter(b[k]))
         else k == at && b[at] < 0x20 && what == "escaped control character"
    case InvalidUtf8(k) => k == at && NotUtf8(b, at)
    case _ => false
  }

  lemma DigitHalts(b: Bytes, at: nat, k: nat)
    requires EscapeAt(b, at) && k <= |b| && (k < |b| ==> !IsHex(b[k]))
    requires if k < at + 6 then at + 2 <= k && forall i | at + 2 <= i < k :: IsHex(b[i])
             else at + 8 <= k < at + 12 && HighUnit(b, at) && EscapeAt(b, at + 6)
                  && forall i | at + 8 <= i < k :: IsHex(b[i])
    ensures CharHalts(b, at, Syntax(k, HEX_DIGIT))
  {}

  lemma UnpairedHalts(b: Bytes, at: nat)
    requires EscapeAt(b, at)
    ensures Unpaired(b, at) ==> CharHalts(b, at, Syntax(at, PAIR))
  {}

  lemma EndHalts(b: Bytes)
    ensures CharHalts(b, |b|, Syntax(|b|, "closing '\"'"))
  {}

  /** The characters `cs` stand between `open`, where a string opens, and `at`. */
  predicate StringTo(b: Bytes, open: nat, at: nat, cs: seq<Char>) {
    open < at <= |b| && b[open] == QUOTE && ValidChars(cs) && b[open + 1..at] == SpellChars(cs)
  }

  /** All characters but the last are within the limit. */
  predicate FitsButLast(limits: ParseLimits, cs: seq<Char>) {
    cs != [] ==> |SpellChars(cs[..|cs| - 1])| <= limits.maxStringBytes
  }

  /** The string at `open` becomes too long with its last character before `at`, or breaks there. */
  predicate BreaksAt(limits: ParseLimits, b: Bytes, open: nat, at: nat, cs: seq<Char>, e: BoundError) {
    && StringTo(b, open, at, cs) && FitsButLast(limits, cs)
    && if |SpellChars(cs)| > limits.maxStringBytes then e == StringTooLong(limits.maxStringBytes, open)
       else CharHalts(b, at, e)
  }

  /** At `open`, the start of a string, the scan halts with `e`. */
  ghost predicate StringHalts(limits: ParseLimits, b: Bytes, open: nat, e: BoundError) {
    exists at, cs :: BreaksAt(limits, b, open, at, cs, e)
  }

  lemma CharIsBroken(b: Bytes, at: nat, e: BoundError)
    requires at <= |b| && CharHalts(b, at, e)
    ensures BrokenChar(b[at..])
  {
    hide Hex4, IsMultibyte, IsHex;
    var x := b[at..];
    if e.InvalidUtf8? {
      var width := Utf8Width(b[at]);
      assert at + width <= |b| ==> x[..width] == b[at..at + width];
    } else if EscapeAt(b, at) {
      UnitIsBroken(b, at, e);
    } else if at + 1 < |b| {
      assert x[1] == b[at + 1];
    }
  }

  lemma UnitIsBroken(b: Bytes, at: nat, e: BoundError)
    requires EscapeAt(b, at) && CharHalts(b, at, e)
    ensures BrokenChar(b[at..])
  {
    hide BrokenChar, Hex4;
    EscapeAhead(b, at);
    if e.expected == HEX_DIGIT {
      var k := e.offset;
      if k < at + 6 {
        NotHex4(b, at + 2, k);
      } else {
        NotHex4(b, at + 8, k);
        SurrogateDigits(b[at + 2..at + 6]);
      }
    }
  }

  lemma NotHex4(b: Bytes, i: nat, k: nat)
    requires i <= k < i + 4 && k <= |b|
    requires k < |b| ==> !IsHex(b[k])
    ensures !Hex4At(b, i)
  {
    assert i + 4 <= |b| ==> b[i..i + 4][k - i] == b[k];
  }

  lemma CharStopsAt(b: Bytes, at: nat, e: BoundError)
    requires at <= |b| && CharHalts(b, at, e)
    ensures CharStops(b, at, e)
  {
    hide BrokenChar, Unpaired, NotUtf8, StartsChar;
    NothingStarts();
    assert b[at..at] == [];
    if at < |b| && b[at] == BACKSLASH {
      BackslashStarts(b, at);
    }
  }

  /** No character starts with the bytes up to and including the one that the error names. */
  lemma CharIsDead(b: Bytes, at: nat, e: BoundError, y: Bytes)
    requires at <= |b| && CharHalts(b, at, e) && e.Syntax? && e.expected != PAIR && e.offset < |b|
    ensures at <= e.offset && BrokenChar(b[at..e.offset + 1] + y)
  {
    hide Hex4, IsHex;
    var k := e.offset;
    var x := b[at..k + 1] + y;
    assert forall i | at <= i <= k :: x[i - at] == b[i];
    if e.expected == HEX_DIGIT {
      if k < at + 6 {
        NotHex4(x, 2, k - at);
      } else {
        NotHex4(x, 8, k - at);
        assert x[2..6] == b[at + 2..at + 6];
        SurrogateDigits(x[2..6]);
      }
    }
  }

  /** No string starts with `b[open..k]`, whatever follows. */
  ghost predicate DeadIn(b: Bytes, open: nat, k: nat) {
    open < k <= |b| && forall p, y :: NoString(p, b[open..k] + y)
  }

  /** What a halt in a string comes to. */
  lemma StringRefuses(limits: ParseLimits, b: Bytes, open: nat, e: BoundError)
    requires StringHalts(limits, b, open, e)
    ensures open < |b| && b[open] == QUOTE && Reports(limits, b, e) && StringStops(b, open, e) && !e.TrailingData?
    ensures forall p | Wider(p, limits) && Keeps(p, limits, e) :: NoString(p, b[open..])
    ensures e.Syntax? && e.expected != PAIR && e.offset < |b| ==> DeadIn(b, open, e.offset + 1)
  {
    hide CharHalts, BrokenChar, StringStops, NoString, SpellChars, ValidChars;
    var at: nat, cs :| BreaksAt(limits, b, open, at, cs, e);
    if |SpellChars(cs)| > limits.maxStringBytes {
      TooLongStops(b, open, limits.maxStringBytes);
    } else {
      CharReports(limits, b, at, e);
      CharIsBroken(b, at, e);
      CharStopsAt(b, at, e);
      StringStopsAt(b, open, at, cs, e);
      if e.Syntax? && e.expected != PAIR && e.offset < |b| {
        var k := e.offset + 1;
        forall y ensures BrokenChar(b[at..k] + y) { CharIsDead(b, at, e, y); }
        DeadString(b, open, at, k, cs);
      }
    }
    NoStringAt(limits, b, open, at, cs, e);
  }

  lemma CharReports(limits: ParseLimits, b: Bytes, at: nat, e: BoundError)
    requires at <= |b| && CharHalts(b, at, e)
    ensures Reports(limits, b, e) && (e.Syntax? ==> at <= e.offset) && !e.TrailingData?
  {}

  // ---------------------------------------------------------------- numbers

  /** In the number that starts at `start`, the scan halts with `e`: with the parts before read
      and within the limits, it is the first part that has a fault. */
  predicate NumberHalts(limits: ParseLimits, b: Bytes, start: nat, e: BoundError)
    requires start <= |b|
  {
    var s, max := b[start..], limits.maxNumberBytes;
    var w, f, x := AfterSign(s), AfterWhole(s), AfterFrac(s);
    && Reports(limits, b, e)
    && (|| (PartFault(limits, e, 0, SignLength(s), true, false) && PartStops(e, start, start, 0))
        || (&& |s| - |w| <= max
            && PartFault(limits, e, |s| - |w|, WholeLength(w), WholeLength(w) > 0, false)
            && PartStops(e, start, |b| - |w|, 0))
        || (&& |s| - |f| <= max && WholeLength(w) > 0
            && PartFault(limits, e, |s| - |f|, FracLength(f), FracInOrder(f), Starts(f, POINT))
            && PartStops(e, start, |b| - |f|, 1))
        || (&& |s| - |x| <= max && WholeLength(w) > 0 && FracInOrder(f) && (Starts(f, POINT) ==> limits.allowFractionalNumbers)
            && PartFault(limits, e, |s| - |x|, ExpLength(x), ExpInOrder(x), StartsExponent(x))
            && PartStops(e, start, |b| - |x|, if x == [] then 0 else ExpDigits(x))))
  }

  // Where a number is cut off after a byte that does not belong to it, with anything behind, its
  // parts up to there are the same.

  lemma {:induction false} CutRun(t: Bytes, i: nat, y: Bytes)
    requires DigitRun(t) < i <= |t|
    ensures DigitRun(t[..i] + y) == DigitRun(t)
  {
    var n := DigitRun(t);
    var u := t[n..i] + y;
    assert t[..i] + y == t[..n] + u;
    DigitRunOn(t[..n], u);
  }

  lemma DropThen(s: Bytes, i: nat, m: nat, y: Bytes)
    requires m <= i <= |s|
    ensures (s[..i] + y)[m..] == s[m..][..i - m] + y
  {}

  lemma CutSign(s: Bytes, i: nat, y: Bytes)
    requires |s| - |AfterSign(s)| < i <= |s|
    ensures AfterSign(s[..i] + y) == AfterSign(s)[..i - (|s| - |AfterSign(s)|)] + y
  {}

  lemma CutWhole(s: Bytes, i: nat, y: Bytes)
    requires |s| - |AfterWhole(s)| < i <= |s|
    ensures AfterWhole(s[..i] + y) == AfterWhole(s)[..i - (|s| - |AfterWhole(s)|)] + y
  {
    hide DigitRun, AfterSign;
    var w := AfterSign(s);
    var j, m := i - (|s| - |w|), WholeLength(w);
    CutSign(s, i, y);
    var u := w[..j] + y;
    assert u[0] == w[0];
    if !Starts(w, 0x30) {
      CutRun(w, j, y);
    }
    assert WholeLength(u) == m;
    DropThen(w, j, m, y);
  }

  lemma CutFrac(s: Bytes, i: nat, y: Bytes)
    requires |s| - |AfterFrac(s)| < i <= |s|
    ensures AfterFrac(s[..i] + y) == AfterFrac(s)[..i - (|s| - |AfterFrac(s)|)] + y
  {
    hide AfterWhole, DigitRun;
    var f := AfterWhole(s);
    var j, m := i - (|s| - |f|), FracLength(f);
    CutWhole(s, i, y);
    var u := f[..j] + y;
    assert u[0] == f[0];
    if Starts(f, POINT) {
      DropThen(f, j, 1, y);
      CutRun(f[1..], j - 1, y);
    }
    assert FracLength(u) == m;
    DropThen(f, j, m, y);
  }

  lemma NoDigitThere(t: Bytes, y: Bytes)
    requires t != [] && DigitRun(t) == 0
    ensures DigitRun([t[0]] + y) == 0
  {}

  lemma ExpIsDead(x: Bytes, y: Bytes)
    requires x != [] && !ExpInOrder(x) && ExpDigits(x) < |x|
    ensures !ExpInOrder(x[..ExpDigits(x) + 1] + y)
  {
    var d := ExpDigits(x);
    var u := x[..d + 1] + y;
    assert u[0] == x[0] && u[1] == x[1] && u[1..][0] == u[1] && x[1..][0] == x[1];
    assert u[d..] == [x[d]] + y && x[d..][0] == x[d];
    NoDigitThere(x[d..], y);
  }

  lemma FracIsDead(f: Bytes, y: Bytes)
    requires !FracInOrder(f) && |f| > 1
    ensures !FracInOrder(f[..2] + y)
  {
    assert (f[..2] + y)[1..] == [f[1]] + y && f[1..][0] == f[1];
    NoDigitThere(f[1..], y);
  }

  /** No number starts with the bytes up to and including the one where a digit is missing. */
  lemma NumberIsDead(limits: ParseLimits, b: Bytes, start: nat, e: BoundError, y: Bytes)
    requires start <= |b| && NumberHalts(limits, b, start, e) && e.Syntax? && e.offset < |b|
    ensures start <= e.offset && !InOrder(b[start..e.offset + 1] + y)
  {
    hide WholeLength, FracLength, ExpLength, ExpDigits, AfterSign, AfterWhole, AfterFrac, StartsExponent;
    var s, i := b[start..], e.offset + 1 - start;
    var w, f, x := AfterSign(s), AfterWhole(s), AfterFrac(s);
    assert b[start..e.offset + 1] == s[..i];
    if i == |s| - |w| + 1 && WholeLength(w) == 0 {
      CutSign(s, i, y);
      WholeIsDead(w, y);
    } else if !FracInOrder(f) {
      CutWhole(s, i, y);
      FracIsDead(f, y);
    } else {
      CutFrac(s, i, y);
      ExpIsDead(x, y);
    }
  }

  lemma WholeIsDead(w: Bytes, y: Bytes)
    requires w != [] && WholeLength(w) == 0
    ensures WholeLength(w[..1] + y) == 0
  {
    assert w[..1] == [w[0]];
    NoDigitThere(w, y);
  }

  /** No number starts with `b[start..k]`, whatever follows. */
  ghost predicate DeadNumber(b: Bytes, start: nat, k: nat) {
    start < k <= |b| && forall p, y :: NoNumber(p, b[start..k] + y)
  }

  /** What a halt in a number comes to. */
  lemma NumberRefuses(limits: ParseLimits, b: Bytes, start: nat, e: BoundError)
    requires start <= |b| && NumberHalts(limits, b, start, e)
    ensures Reports(limits, b, e) && NumberStops(b, start, e) && !e.TrailingData?
    ensures forall p | Wider(p, limits) && Keeps(p, limits, e) :: NoNumber(p, b[start..])
    ensures e.Syntax? && e.offset < |b| ==> DeadNumber(b, start, e.offset + 1)
  {
    hide NumberStops, NoNumber, WholeLength, FracLength, ExpLength, ExpDigits, AfterSign, AfterWhole, AfterFrac,
         AfterExp, InOrder, FracInOrder, ExpInOrder, StartsExponent, Starts, Keeps;
    FaultIsBroken(limits, e, b[start..]);
    forall p | Wider(p, limits) && Keeps(p, limits, e) ensures NoNumber(p, b[start..]) {
      BrokenIsNoNumber(p, b[start..]);
    }
    PartStopsAt(limits, b, start, e);
    if e.Syntax? && e.offset < |b| {
      var k := e.offset + 1;
      NumberIsDead(limits, b, start, e, []);
      forall p, y ensures NoNumber(p, b[start..k] + y) {
        NumberIsDead(limits, b, start, e, y);
        BrokenIsNoNumber(p, b[start..k] + y);
      }
    }
  }

  // ----------------------------------------------------------------- states

  /** A value may start with `c`. */
  predicate StartsValue(c: Byte) {
    c == OpenByte(Array) || c == OpenByte(Object) || c == QUOTE || c == MINUS || IsDigit(c) || c in {0x74, 0x66, 0x6E}
  }

  /** At most the first 64 characters of a key are reported. */
  function Shown(key: Text): Text {
    if |key| > 64 then key[..64] else key
  }

  /** A whole key is read from `pos` up to `k1`, and it is one of `keys`; or else no colon follows
      it at `k2`, after whitespace. */
  predicate KeyBreaks(limits: ParseLimits, b: Bytes, pos: nat, keys: set<Text>, key: seq<Char>, k1: nat, k2: nat, e: BoundError) {
    && pos <= k1 <= k2 <= |b| && ValidQuoted(Policy(limits, true), key)
    && b[pos..k1] == SpellQuoted(key) && IsGap(b[k1..k2])
    && if Decode(key) in keys then e == DuplicateKey(Shown(Decode(key)), pos)
       else !StartsWithSpace(b[k2..]) && !Starts(b[k2..], COLON) && e == Syntax(k2, "':'")
  }

  ghost predicate KeyHalts(limits: ParseLimits, b: Bytes, pos: nat, keys: set<Text>, e: BoundError) {
    exists key, k1, k2 :: KeyBreaks(limits, b, pos, keys, key, k1, k2, e)
  }

  function Separators(s: Shape): string {
    if s.Array? then "',' or ']'" else "',' or '}'"
  }

  // With `b[..pos]` read, the scan halts in state `s` with `e`, whichever step it is at.

  ghost predicate HaltsAtValue(limits: ParseLimits, b: Bytes, pos: nat, s: State, e: BoundError)
    requires pos <= |b|
  {
    if pos == |b| || !StartsValue(b[pos]) then
      e == Syntax(pos, "value")
    else if s.values + 1 > limits.maxTotalValues then
      e == TooManyValues(limits.maxTotalValues, pos)
    else if b[pos] == OpenByte(Array) || b[pos] == OpenByte(Object) then
      |s.frames| >= limits.maxDepth && e == TooDeep(limits.maxDepth, pos)
    else if b[pos] == QUOTE then
      StringHalts(limits, b, pos, e)
    else if b[pos] == MINUS || IsDigit(b[pos]) then
      NumberHalts(limits, b, pos, e)
    else
      NoWord(b[pos..]) && e == Syntax(pos, LITERAL)
  }

  ghost predicate HaltsAtMember(limits: ParseLimits, b: Bytes, pos: nat, f: Frame, e: BoundError)
    requires pos <= |b|
  {
    if f.ObjectFrame? && !Starts(b[pos..], QUOTE) then
      e == Syntax(pos, "object key")
    else if f.len + 1 > limits.maxCollectionLen then
      e == CollectionTooLong(limits.maxCollectionLen, pos)
    else
      f.ObjectFrame? && (StringHalts(limits, b, pos, e) || KeyHalts(limits, b, pos, f.keys, e))
  }

  predicate HaltsAfter(b: Bytes, pos: nat, frames: seq<Frame>, e: BoundError)
    requires pos <= |b|
  {
    && !StartsWithSpace(b[pos..])
    && if frames == [] then pos < |b| && e == TrailingData(pos)
       else
         var shape := Top(frames).Shape();
         !Starts(b[pos..], COMMA) && !Starts(b[pos..], CloseByte(shape)) && e == Syntax(pos, Separators(shape))
  }

  ghost predicate Halts(limits: ParseLimits, b: Bytes, pos: nat, s: State, e: BoundError) {
    && pos <= |b|
    && match s.step
       case AtValue => HaltsAtValue(limits, b, pos, s, e)
       case AtMember => s.frames != [] && HaltsAtMember(limits, b, pos, Top(s.frames), e)
       case AfterValue => HaltsAfter(b, pos, s.frames, e)
  }
}
