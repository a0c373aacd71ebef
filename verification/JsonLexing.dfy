/** How much of a byte sequence a token occupies: tokens of the JSON grammar are determined
    by the bytes they start at, so a scanner that reads from left to right has no choice. */
module JsonLexing {
  import opened Wrappers
  import opened Ascii
  import opened JsonGrammar

  lemma Cancel(a: Bytes, x: Bytes, b: Bytes, y: Bytes)
    requires a + x == b + y
    requires |a| == |b|
    ensures a == b && x == y
  {
    assert a == (a + x)[..|a|] && b == (b + y)[..|b|];
    assert x == (a + x)[|a|..] && y == (b + y)[|b|..];
  }

  lemma Associative(a: Bytes, b: Bytes, c: Bytes)
    ensures (a + b) + c == a + (b + c)
  {}

  /** `x` is empty where `y` is, and elsewhere starts with the same byte. */
  predicate SameStart(x: Bytes, y: Bytes) {
    if y == [] then x == [] else x != [] && x[0] == y[0]
  }

  // -------------------------------------------------------------- whitespace

  /** Length of the whitespace `s` starts with. */
  function GapRun(s: Bytes): (n: nat)
    ensures n <= |s|
    ensures IsGap(s[..n]) && !StartsWithSpace(s[n..])
  {
    if !StartsWithSpace(s) then 0 else
      var n := GapRun(s[1..]);
      assert s[..n + 1] == [s[0]] + s[1..][..n];
      assert s[n + 1..] == s[1..][n..];
      n + 1
  }

  lemma {:induction false} GapRunOf(g: Bytes, x: Bytes)
    requires IsGap(g) && !StartsWithSpace(x)
    ensures GapRun(g + x) == |g|
  {
    if g == [] {
      assert g + x == x;
    } else {
      assert (g + x)[1..] == g[1..] + x;
      GapRunOf(g[1..], x);
    }
  }

  /** Two gaps before the same non-space are equal. */
  lemma GapUnique(g: Bytes, x: Bytes, h: Bytes, y: Bytes)
    requires IsGap(g) && IsGap(h)
    requires !StartsWithSpace(x) && !StartsWithSpace(y)
    requires g + x == h + y
    ensures g == h && x == y
  {
    GapRunOf(g, x);
    GapRunOf(h, y);
    Cancel(g, x, h, y);
  }

  // ----------------------------------------------------------------- strings

  /** How many bytes a character takes, read off the bytes at its start. */
  function CharWidth(s: Bytes): nat {
    if s == [] then 0
    else if s[0] != BACKSLASH then (if s[0] < 0x80 then 1 else Utf8Width(s[0]))
    else if |s| < 6 || s[1] != LOWER_U then 2
    else if IsHex4(s[2..6]) && IsHighSurrogate(Hex4(s[2..6])) then 12
    else 6
  }

  lemma WidthOfChar(c: Char, x: Bytes)
    requires ValidChar(c)
    ensures |SpellChar(c)| > 0
    ensures CharWidth(SpellChar(c) + x) == |SpellChar(c)|
  {
    var s := SpellChar(c) + x;
    if c.Unicode? {
      assert s[2..6] == c.hex;
    } else if c.Surrogates? {
      assert s[2..6] == c.high;
    }
  }

  /** A character is determined by the bytes it starts. */
  lemma CharUnique(c: Char, x: Bytes, d: Char, y: Bytes)
    requires ValidChar(c) && ValidChar(d)
    requires SpellChar(c) + x == SpellChar(d) + y
    ensures c == d && x == y
  {
    WidthOfChar(c, x);
    WidthOfChar(d, y);
    Cancel(SpellChar(c), x, SpellChar(d), y);
    var s := SpellChar(c);
    assert s == SpellChar(d);
    assert s[0] == SpellChar(c)[0] == SpellChar(d)[0];
    if c.Unicode? {
      assert s[2..6] == c.hex;
    } else if c.Surrogates? {
      assert s[2..6] == c.high && s[8..12] == c.low;
    }
    if d.Unicode? {
      assert s[2..6] == d.hex;
    } else if d.Surrogates? {
      assert s[2..6] == d.high && s[8..12] == d.low;
    }
  }

  lemma {:induction false} CharsAppend(cs: seq<Char>, c: Char)
    ensures SpellChars(cs + [c]) == SpellChars(cs) + SpellChar(c)
  {
    hide SpellChar;
    if cs == [] {
      assert cs + [c] == [c];
    } else {
      assert (cs + [c])[1..] == cs[1..] + [c];
      CharsAppend(cs[1..], c);
    }
  }

  lemma {:induction false} CharsSplit(cs: seq<Char>, k: nat)
    requires k <= |cs|
    ensures SpellChars(cs) == SpellChars(cs[..k]) + SpellChars(cs[k..])
  {
    hide SpellChar;
    if k > 0 {
      CharsSplit(cs[1..], k - 1);
      assert cs[1..][..k - 1] == cs[..k][1..];
      assert cs[1..][k - 1..] == cs[k..];
    } else {
      assert cs[..0] == [] && cs[0..] == cs;
    }
  }

  /** The first byte of a valid character is not a quotation mark. */
  lemma CharStart(c: Char)
    requires ValidChar(c)
    ensures |SpellChar(c)| > 0 && SpellChar(c)[0] != QUOTE
  {}

  /** Only the end of a string looks like it. */
  lemma {:induction false} AtQuote(cs: seq<Char>, y: Bytes)
    requires ValidChars(cs)
    ensures var s := SpellChars(cs) + ([QUOTE] + y); s != [] && (s[0] == QUOTE <==> cs == [])
  {
    CharsStep(cs, [QUOTE] + y);
    if cs != [] {
      CharStart(cs[0]);
    }
  }

  /** Characters already read are the first characters of any string spelled by the bytes. */
  lemma {:induction false} CharsPrefix(cs: seq<Char>, x: Bytes, ds: seq<Char>, y: Bytes)
    requires ValidChars(cs) && ValidChars(ds)
    requires SpellChars(cs) + x == SpellChars(ds) + ([QUOTE] + y)
    ensures |cs| <= |ds| && cs == ds[..|cs|]
    ensures x == SpellChars(ds[|cs|..]) + ([QUOTE] + y)
  {
    hide SpellChar, ValidChar;
    if cs == [] {
      assert ds[0..] == ds;
      assert SpellChars(cs) + x == x;
    } else {
      CharsStep(cs, x);
      CharsStep(ds, [QUOTE] + y);
      CharStart(cs[0]);
      assert (SpellChars(cs) + x)[0] == SpellChar(cs[0])[0];
      AtQuote(ds, y);
      CharUnique(cs[0], SpellChars(cs[1..]) + x, ds[0], SpellChars(ds[1..]) + ([QUOTE] + y));
      CharsPrefix(cs[1..], x, ds[1..], y);
      assert ds[1..][|cs| - 1..] == ds[|cs|..];
      assert cs == [cs[0]] + cs[1..];
      assert ds[..|cs|] == [ds[0]] + ds[1..][..|cs| - 1];
    }
  }

  lemma {:induction false} CharsStep(cs: seq<Char>, x: Bytes)
    ensures cs != [] ==> SpellChars(cs) + x == SpellChar(cs[0]) + (SpellChars(cs[1..]) + x)
    ensures cs == [] ==> SpellChars(cs) + x == x
  {
    if cs != [] {
      Associative(SpellChar(cs[0]), SpellChars(cs[1..]), x);
    }
  }

  /** A string is determined by the bytes it starts. */
  lemma QuotedUnique(cs: seq<Char>, x: Bytes, ds: seq<Char>, y: Bytes)
    requires ValidChars(cs) && ValidChars(ds)
    requires SpellQuoted(cs) + x == SpellQuoted(ds) + y
    ensures cs == ds && x == y
  {
    QuotedStep(cs, x);
    QuotedStep(ds, y);
    Cancel([QUOTE], SpellChars(cs) + ([QUOTE] + x), [QUOTE], SpellChars(ds) + ([QUOTE] + y));
    CharsPrefix(cs, [QUOTE] + x, ds, y);
    AtQuote(ds[|cs|..], y);
    assert |cs| == |ds|;
    assert ds == ds[..|cs|];
    Cancel(SpellQuoted(cs), x, SpellQuoted(ds), y);
  }

  lemma {:induction false} QuotedStep(cs: seq<Char>, x: Bytes)
    ensures SpellQuoted(cs) + x == [QUOTE] + (SpellChars(cs) + ([QUOTE] + x))
  {}

  /** The text a byte sequence spells in UTF-8, if it is valid. */
  function FromUtf8(s: Bytes): Option<Text> {
    if s == [] then Some([])
    else
      var w := if s[0] < 0x80 then 1 else Utf8Width(s[0]);
      if w == 0 || w > |s| || (w > 1 && !IsMultibyte(s[..w])) then None
      else
        var head := if w == 1 then s[0] else Utf8Scalar(s[..w]);
        match FromUtf8(s[w..])
        case None => None
        case Some(t) => Some([head] + t)
  }

  lemma OneCharacter(s: Bytes)
    requires s != [] && |s| == Utf8Width(s[0])
    ensures FromUtf8(s) == if IsMultibyte(s) then Some([Utf8Scalar(s)]) else None
  {
    var w := Utf8Width(s[0]);
    assert s[..w] == s && s[w..] == [];
    assert FromUtf8([]) == Some([]);
    if IsMultibyte(s) {
      assert FromUtf8(s) == Some([Utf8Scalar(s[..w])] + []);
      assert [Utf8Scalar(s)] + [] == [Utf8Scalar(s)];
    }
  }

  // ----------------------------------------------------------------- numbers

  /** Length of the longest run of digits `s` starts with. */
  function DigitRun(s: Bytes): (n: nat)
    ensures n <= |s|
    ensures forall i | 0 <= i < n :: IsDigit(s[i])
    ensures n < |s| ==> !IsDigit(s[n])
  {
    if s == [] || !IsDigit(s[0]) then 0 else 1 + DigitRun(s[1..])
  }

  predicate Starts(s: Bytes, b: Byte) { s != [] && s[0] == b }

  predicate StartsWithDigit(s: Bytes) { s != [] && IsDigit(s[0]) }

  predicate StartsExponent(s: Bytes) { Starts(s, 0x65) || Starts(s, 0x45) }

  predicate StartsWithSign(s: Bytes) { Starts(s, PLUS) || Starts(s, MINUS) }

  lemma {:induction false} DigitRunOn(d: Bytes, x: Bytes)
    requires forall i | 0 <= i < |d| :: IsDigit(d[i])
    ensures DigitRun(d + x) == |d| + DigitRun(x)
    ensures DigitRun(x) > 0 <==> StartsWithDigit(x)
  {
    if d == [] {
      assert d + x == x;
    } else {
      assert (d + x)[1..] == d[1..] + x;
      DigitRunOn(d[1..], x);
    }
  }

  // How many bytes each part of a number takes, read off the bytes at its start.

  function SignLength(s: Bytes): (n: nat)
    ensures n <= |s|
  { if Starts(s, MINUS) then 1 else 0 }

  /** A zero stands alone. */
  function WholeLength(s: Bytes): (n: nat)
    ensures n <= |s|
  { if Starts(s, 0x30) then 1 else DigitRun(s) }

  function FracLength(s: Bytes): (n: nat)
    ensures n <= |s|
  { if Starts(s, POINT) then 1 + DigitRun(s[1..]) else 0 }

  function ExpDigits(s: Bytes): (n: nat)
    requires s != []
    ensures n <= |s|
  { if StartsWithSign(s[1..]) then 2 else 1 }

  function ExpLength(s: Bytes): (n: nat)
    ensures n <= |s|
  {
    if StartsExponent(s) then
      var k := ExpDigits(s); k + DigitRun(s[k..])
    else 0
  }

  /** What may follow a value: whitespace, a comma, a closing bracket or the end. */
  predicate EndsValue(x: Bytes) {
    x == [] || IsSpace(x[0]) || x[0] == COMMA || x[0] == 0x5D || x[0] == 0x7D
  }

  /** The bytes at which the parts of `n` start when it is followed by `x`. */
  function FromExp(n: Number, x: Bytes): Bytes { SpellExp(n) + x }
  function FromFrac(n: Number, x: Bytes): Bytes { SpellFrac(n) + FromExp(n, x) }
  function FromWhole(n: Number, x: Bytes): Bytes { n.whole + FromFrac(n, x) }

  lemma NumberStep(n: Number, x: Bytes)
    ensures SpellNumber(n) + x == SpellSign(n) + FromWhole(n, x)
    ensures |SpellNumber(n)| == |SpellSign(n)| + |n.whole| + |SpellFrac(n)| + |SpellExp(n)|
  {}

  /** No part of `n` can be read further into `x`. */
  predicate Greedy(n: Number, x: Bytes) {
    && |n.whole| == WholeLength(FromWhole(n, x))
    && |SpellFrac(n)| == FracLength(FromFrac(n, x))
    && |SpellExp(n)| == ExpLength(FromExp(n, x))
  }

  /** How far a number is read depends on no more than the first byte ahead. */
  lemma GreedyFirst(n: Number, x: Bytes, y: Bytes)
    requires Greedy(n, x) && SameStart(y, x) && ValidNumber(n)
    ensures Greedy(n, y)
  {
    hide WholeLength, FracLength, ExpLength;
    ExpFirst(n, x, y);
    FracFirst(n, x, y);
    WholeFirst(n, x, y);
  }

  lemma ExpFirst(n: Number, x: Bytes, y: Bytes)
    requires ValidNumber(n) && SameStart(y, x)
    requires |SpellExp(n)| == ExpLength(FromExp(n, x))
    ensures |SpellExp(n)| == ExpLength(FromExp(n, y)) && SameStart(FromExp(n, y), FromExp(n, x))
  {
    ExpLengthOn(n, x);
    ExpLengthOn(n, y);
  }

  lemma ExpLengthOn(n: Number, x: Bytes)
    requires ValidNumber(n)
    ensures var s := FromExp(n, x);
      if n.exp.Some? then
        s != [] && s[0] == n.exp.value.mark && ExpLength(s) == |SpellExp(n)| + DigitRun(x)
      else s == x
    ensures DigitRun(x) > 0 <==> StartsWithDigit(x)
  {
    if n.exp.Some? {
      hide DigitRun, SpellExp, FromExp;
      ExpParts(n, x);
      DigitRunOn(n.exp.value.digits, x);
    } else {
      assert FromExp(n, x) == x;
    }
  }

  /** Where the mark, the sign and the digits of an exponent are. */
  lemma ExpParts(n: Number, x: Bytes)
    requires ValidNumber(n) && n.exp.Some?
    ensures var s, e := FromExp(n, x), n.exp.value;
      var k := if e.sign.Some? then 2 else 1;
      && |s| > k && s[0] == e.mark && ExpDigits(s) == k
      && s[k..] == e.digits + x && |SpellExp(n)| == k + |e.digits|
  {
    var s, e := FromExp(n, x), n.exp.value;
    var sign := if e.sign.Some? then [e.sign.value] else [];
    assert s == [e.mark] + (sign + (e.digits + x));
    assert s[1..] == sign + (e.digits + x);
    assert s[1 + |sign|..] == e.digits + x;
  }

  lemma FracFirst(n: Number, x: Bytes, y: Bytes)
    requires ValidNumber(n) && SameStart(FromExp(n, y), FromExp(n, x))
    requires |SpellFrac(n)| == FracLength(FromFrac(n, x))
    ensures |SpellFrac(n)| == FracLength(FromFrac(n, y)) && SameStart(FromFrac(n, y), FromFrac(n, x))
  {
    FracLengthOn(n, x);
    FracLengthOn(n, y);
  }

  lemma FracLengthOn(n: Number, x: Bytes)
    requires ValidNumber(n)
    ensures var s := FromFrac(n, x);
      if n.frac.Some? then
        s != [] && s[0] == POINT && FracLength(s) == |SpellFrac(n)| + DigitRun(FromExp(n, x))
      else s == FromExp(n, x)
    ensures DigitRun(FromExp(n, x)) > 0 <==> StartsWithDigit(FromExp(n, x))
  {
    var s, rest := FromFrac(n, x), FromExp(n, x);
    if n.frac.Some? {
      assert s[1..] == n.frac.value + rest;
      DigitRunOn(n.frac.value, rest);
    } else {
      assert s == rest;
    }
  }

  lemma WholeFirst(n: Number, x: Bytes, y: Bytes)
    requires ValidNumber(n) && SameStart(FromFrac(n, y), FromFrac(n, x))
    requires |n.whole| == WholeLength(FromWhole(n, x))
    ensures |n.whole| == WholeLength(FromWhole(n, y))
  {
    DigitRunOn(n.whole, FromFrac(n, x));
    DigitRunOn(n.whole, FromFrac(n, y));
  }

  lemma ExpGreedy(n: Number, x: Bytes)
    requires ValidNumber(n)
    requires !StartsWithDigit(x) && !StartsExponent(x)
    ensures |SpellExp(n)| == ExpLength(FromExp(n, x))
  {
    ExpLengthOn(n, x);
  }

  lemma FracGreedy(n: Number, x: Bytes)
    requires ValidNumber(n)
    requires !StartsWithDigit(x) && !Starts(x, POINT)
    ensures |SpellFrac(n)| == FracLength(FromFrac(n, x))
  {
    ExpLengthOn(n, x);
    FracLengthOn(n, x);
  }

  lemma WholeGreedy(n: Number, x: Bytes)
    requires ValidNumber(n)
    requires !StartsWithDigit(x)
    ensures |n.whole| == WholeLength(FromWhole(n, x))
  {
    ExpLengthOn(n, x);
    FracLengthOn(n, x);
    DigitRunOn(n.whole, FromFrac(n, x));
  }

  /** A number followed by the end of a value is read greedily. */
  lemma NumberGreedy(n: Number, x: Bytes)
    requires ValidNumber(n)
    requires EndsValue(x)
    ensures Greedy(n, x)
  {
    ExpGreedy(n, x);
    FracGreedy(n, x);
    WholeGreedy(n, x);
  }

  lemma ExpUnique(n: Number, m: Number)
    requires ValidNumber(n) && ValidNumber(m)
    requires SpellExp(n) == SpellExp(m)
    ensures n.exp == m.exp
  {
    if n.exp.Some? {
      var e, f := n.exp.value, m.exp.value;
      var s := SpellExp(n);
      assert e.sign.Some? ==> s[1] == e.sign.value;
      assert e.sign.None? ==> s[1] == e.digits[0];
      assert f.sign.Some? ==> s[1] == f.sign.value;
      assert f.sign.None? ==> s[1] == f.digits[0];
      var k := if e.sign.Some? then 2 else 1;
      assert e.digits == s[k..] == f.digits;
      assert s[0] == e.mark == f.mark;
    }
  }

  lemma FracUnique(n: Number, m: Number)
    requires SpellFrac(n) == SpellFrac(m)
    ensures n.frac == m.frac
  {
    if n.frac.Some? {
      assert n.frac.value == SpellFrac(n)[1..] == SpellFrac(m)[1..] == m.frac.value;
    }
  }

  /** Two numbers read greedily from the same bytes are equal. */
  lemma NumberUnique(n: Number, x: Bytes, m: Number, y: Bytes)
    requires ValidNumber(n) && ValidNumber(m)
    requires SpellNumber(n) + x == SpellNumber(m) + y
    requires Greedy(n, x) && Greedy(m, y)
    ensures n == m && x == y
  {
    NumberStep(n, x);
    NumberStep(m, y);
    var s := SpellNumber(n) + x;
    assert s[0] == if n.minus then MINUS else n.whole[0];
    assert s[0] == if m.minus then MINUS else m.whole[0];
    assert n.minus == m.minus;
    Cancel(SpellSign(n), FromWhole(n, x), SpellSign(m), FromWhole(m, y));
    Cancel(n.whole, FromFrac(n, x), m.whole, FromFrac(m, y));
    Cancel(SpellFrac(n), FromExp(n, x), SpellFrac(m), FromExp(m, y));
    Cancel(SpellExp(n), x, SpellExp(m), y);
    FracUnique(n, m);
    ExpUnique(n, m);
  }

  // What is left of `s` after each part of the number that starts it.

  function AfterSign(s: Bytes): (x: Bytes)
    ensures |x| <= |s|
  { s[SignLength(s)..] }

  function AfterWhole(s: Bytes): (x: Bytes)
    ensures |x| <= |AfterSign(s)|
  { AfterSign(s)[WholeLength(AfterSign(s))..] }

  function AfterFrac(s: Bytes): (x: Bytes)
    ensures |x| <= |AfterWhole(s)|
  { AfterWhole(s)[FracLength(AfterWhole(s))..] }

  function AfterExp(s: Bytes): (x: Bytes)
    ensures |x| <= |AfterFrac(s)|
  { AfterFrac(s)[ExpLength(AfterFrac(s))..] }

  lemma DropPrefix(a: Bytes, x: Bytes)
    ensures (a + x)[|a|..] == x
  {}

  lemma AfterSignOf(n: Number, y: Bytes)
    requires ValidNumber(n)
    ensures AfterSign(SpellNumber(n) + y) == FromWhole(n, y)
  {
    NumberStep(n, y);
    var s := SpellNumber(n) + y;
    assert s[0] == if n.minus then MINUS else n.whole[0];
    DropPrefix(SpellSign(n), FromWhole(n, y));
  }

  /** The parts of a number a value can be are what is read off its bytes. */
  lemma AfterParts(n: Number, y: Bytes)
    requires ValidNumber(n) && EndsValue(y)
    ensures var s := SpellNumber(n) + y;
      && AfterSign(s) == FromWhole(n, y)
      && AfterWhole(s) == FromFrac(n, y)
      && AfterFrac(s) == FromExp(n, y)
      && AfterExp(s) == y
  {
    AfterSignOf(n, y);
    NumberGreedy(n, y);
    DropPrefix(n.whole, FromFrac(n, y));
    DropPrefix(SpellFrac(n), FromExp(n, y));
    DropPrefix(SpellExp(n), y);
  }

  lemma ExpStart(n: Number, y: Bytes)
    requires ValidNumber(n) && EndsValue(y)
    ensures var e := FromExp(n, y);
      && (n.exp.Some? <==> StartsExponent(e))
      && (n.exp.Some? ==> |SpellExp(n)| > ExpDigits(e))
      && (n.exp.None? ==> !Starts(e, POINT) && e == y)
  {
    var e := FromExp(n, y);
    if n.exp.Some? {
      var x := n.exp.value;
      assert e[0] == x.mark;
      assert x.sign.Some? ==> e[1] == x.sign.value;
      assert x.sign.None? ==> e[1] == x.digits[0];
      assert e[1..][0] == e[1];
    } else {
      assert e == y;
    }
  }

  lemma FracStart(n: Number, y: Bytes)
    requires ValidNumber(n) && EndsValue(y)
    ensures n.frac.Some? <==> Starts(FromFrac(n, y), POINT)
    ensures n.frac.Some? ==> |SpellFrac(n)| > 1
  {
    ExpStart(n, y);
    if n.frac.Some? {
      assert FromFrac(n, y)[0] == SpellFrac(n)[0];
    } else {
      assert FromFrac(n, y) == FromExp(n, y);
    }
  }

  predicate FracInOrder(s: Bytes) {
    Starts(s, POINT) ==> FracLength(s) > 1
  }

  predicate ExpInOrder(s: Bytes) {
    StartsExponent(s) ==> ExpLength(s) > ExpDigits(s)
  }

  predicate InOrder(s: Bytes) {
    WholeLength(AfterSign(s)) > 0 && FracInOrder(AfterWhole(s)) && ExpInOrder(AfterFrac(s))
  }

  /** A number a value can be is in order, as long as what it takes up, and shows its parts. */
  lemma NumberInOrder(n: Number, y: Bytes)
    requires ValidNumber(n) && EndsValue(y)
    ensures var s := SpellNumber(n) + y;
      && InOrder(s)
      && |SpellNumber(n)| == |s| - |AfterExp(s)|
      && (n.frac.Some? <==> Starts(AfterWhole(s), POINT))
      && (n.exp.Some? <==> StartsExponent(AfterFrac(s)))
  {
    AfterParts(n, y);
    NumberGreedy(n, y);
    FracStart(n, y);
    ExpStart(n, y);
  }

  // The number that starts `s`.

  function FracAt(s: Bytes): Option<Bytes>
    requires FracInOrder(s)
  { if Starts(s, POINT) then Some(s[1..FracLength(s)]) else None }

  function ExpAt(s: Bytes): Option<Exponent>
    requires ExpInOrder(s)
  {
    if StartsExponent(s) then
      var k := ExpDigits(s);
      Some(Exponent(s[0], if k == 2 then Some(s[1]) else None, s[k..ExpLength(s)]))
    else None
  }

  function NumberAt(s: Bytes): Number
    requires InOrder(s)
  {
    var w := AfterSign(s);
    Number(SignLength(s) == 1, w[..WholeLength(w)], FracAt(AfterWhole(s)), ExpAt(AfterFrac(s)))
  }

  lemma FracAtHolds(n: Number, s: Bytes)
    requires FracInOrder(s) && n.frac == FracAt(s)
    ensures SpellFrac(n) == s[..FracLength(s)]
    ensures n.frac.Some? ==> IsDigits(n.frac.value)
  {
    if n.frac.Some? {
      var d := n.frac.value;
      assert forall i | 0 <= i < |d| :: d[i] == s[1..][i];
    }
  }

  lemma ExpAtHolds(n: Number, s: Bytes)
    requires ExpInOrder(s) && n.exp == ExpAt(s)
    ensures SpellExp(n) == s[..ExpLength(s)]
    ensures n.exp.Some? ==>
              && (n.exp.value.mark == 0x65 || n.exp.value.mark == 0x45)
              && (n.exp.value.sign.Some? ==> n.exp.value.sign.value == PLUS || n.exp.value.sign.value == MINUS)
              && IsDigits(n.exp.value.digits)
  {
    if n.exp.Some? {
      var k, m := ExpDigits(s), ExpLength(s);
      var d := n.exp.value.digits;
      DigitsAt(s, k);
      assert d == s[k..m] && s[..m] == s[..k] + d;
      if k == 2 {
        assert s[1..][0] == s[1];
        assert s[..2] == [s[0]] + [s[1]];
      } else {
        assert s[..1] == [s[0]] + [];
      }
    } else {
      assert s[..0] == [];
    }
  }

  lemma DigitsAt(s: Bytes, k: nat)
    requires k <= |s|
    ensures forall i | k <= i < k + DigitRun(s[k..]) :: IsDigit(s[i])
  {
    forall i | k <= i < k + DigitRun(s[k..]) ensures IsDigit(s[i]) {
      assert s[i] == s[k..][i - k];
    }
  }

  lemma SplitAt(s: Bytes, k: nat)
    requires k <= |s|
    ensures s[..k] + s[k..] == s
  {}

  /** The parts read off `s` spell it back. */
  lemma NumberAtSpells(s: Bytes)
    requires InOrder(s)
    ensures var n := NumberAt(s);
      && FromExp(n, AfterExp(s)) == AfterFrac(s)
      && FromFrac(n, AfterExp(s)) == AfterWhole(s)
      && FromWhole(n, AfterExp(s)) == AfterSign(s)
      && SpellSign(n) + AfterSign(s) == s
  {
    var n := NumberAt(s);
    var w, f, e := AfterSign(s), AfterWhole(s), AfterFrac(s);
    FracAtHolds(n, f);
    ExpAtHolds(n, e);
    SplitAt(e, ExpLength(e));
    SplitAt(f, FracLength(f));
    SplitAt(w, WholeLength(w));
    SplitAt(s, SignLength(s));
    assert SpellSign(n) == s[..SignLength(s)];
  }

  lemma NumberAtHolds(s: Bytes)
    requires InOrder(s)
    ensures var n := NumberAt(s);
      && ValidNumber(n)
      && SpellNumber(n) + AfterExp(s) == s
      && Greedy(n, AfterExp(s))
  {
    var n := NumberAt(s);
    NumberAtSpells(s);
    FracAtHolds(n, AfterWhole(s));
    ExpAtHolds(n, AfterFrac(s));
    WholeAtHolds(AfterSign(s));
    NumberStep(n, AfterExp(s));
  }

  lemma WholeAtHolds(w: Bytes)
    requires WholeLength(w) > 0
    ensures var d := w[..WholeLength(w)]; IsDigits(d) && (d[0] == 0x30 ==> |d| == 1)
  {
    var d := w[..WholeLength(w)];
    assert forall i | 0 <= i < |d| :: d[i] == w[i];
  }
}
