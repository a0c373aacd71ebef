/** The JSON grammar of RFC 8259, sections 2 to 7, as parse trees and the bytes they spell.

    A text is in the language when some valid tree spells it. Every run of insignificant
    whitespace between two tokens is held once, as a gap, so a text has one tree. The
    predicates take a `Policy`: the scanner's limits, and whether keys must be distinct.
    Under a policy with limits at least as large as the text they are the plain grammar. */
module JsonGrammar {
  import opened Wrappers
  import opened Ascii

  type Byte = b: int | 0 <= b < 256
  type Bytes = seq<Byte>

  /** Decoded text, as Unicode scalar values. */
  type Text = seq<int>

  const QUOTE: Byte := 0x22
  const BACKSLASH: Byte := 0x5C
  const COMMA: Byte := 0x2C
  const COLON: Byte := 0x3A
  const MINUS: Byte := 0x2D
  const PLUS: Byte := 0x2B
  const POINT: Byte := 0x2E
  const LOWER_U: Byte := 0x75

  const TRUE: Bytes := [0x74, 0x72, 0x75, 0x65]
  const FALSE: Bytes := [0x66, 0x61, 0x6C, 0x73, 0x65]
  const NULL: Bytes := [0x6E, 0x75, 0x6C, 0x6C]

  // ------------------------------------------------------------------ limits

  datatype ParseLimits = ParseLimits(
    maxBytes: nat,
    maxDepth: nat,
    maxStringBytes: nat,
    maxCollectionLen: nat,
    maxTotalValues: nat,
    maxNumberBytes: nat,
    allowFractionalNumbers: bool)

  datatype ScanStats = ScanStats(bytes: nat, maxDepthSeen: nat, values: nat)

  /** What a reader of JSON may demand beyond the grammar. */
  datatype Policy = Policy(limits: ParseLimits, distinctKeys: bool)

  /** `p` admits every text that `limits` and the duplicate-key rule admit. */
  predicate Wider(p: Policy, limits: ParseLimits) {
    && p.limits.maxBytes >= limits.maxBytes
    && p.limits.maxDepth >= limits.maxDepth
    && p.limits.maxStringBytes >= limits.maxStringBytes
    && p.limits.maxCollectionLen >= limits.maxCollectionLen
    && p.limits.maxTotalValues >= limits.maxTotalValues
    && p.limits.maxNumberBytes >= limits.maxNumberBytes
    && (limits.allowFractionalNumbers ==> p.limits.allowFractionalNumbers)
  }

  // -------------------------------------------------------------- whitespace

  predicate IsSpace(b: Byte) {
    b == 0x20 || b == 0x09 || b == 0x0A || b == 0x0D
  }

  predicate IsGap(s: Bytes) {
    forall i | 0 <= i < |s| :: IsSpace(s[i])
  }

  predicate StartsWithSpace(s: Bytes) {
    s != [] && IsSpace(s[0])
  }

  // ----------------------------------------------------------------- strings

  datatype Char =
    | Plain(byte: Byte)              // an unescaped ASCII character
    | Multi(bytes: Bytes)            // an unescaped character beyond ASCII, in UTF-8
    | Escaped(letter: Byte)          // a two-character escape
    | Unicode(hex: Bytes)            // \uXXXX, not a surrogate
    | Surrogates(high: Bytes, low: Bytes)

  predicate IsEscapeLetter(b: Byte) {
    b in {0x22, 0x5C, 0x2F, 0x62, 0x66, 0x6E, 0x72, 0x74}
  }

  predicate IsHex(b: Byte) {
    0x30 <= b <= 0x39 || 0x61 <= b <= 0x66 || 0x41 <= b <= 0x46
  }

  function HexDigit(b: Byte): nat
    requires IsHex(b)
  {
    if b <= 0x39 then b - 0x30 else if b <= 0x46 then b - 0x41 + 10 else b - 0x61 + 10
  }

  predicate IsHex4(s: Bytes) {
    |s| == 4 && IsHex(s[0]) && IsHex(s[1]) && IsHex(s[2]) && IsHex(s[3])
  }

  function Hex4(s: Bytes): nat
    requires IsHex4(s)
  {
    ((HexDigit(s[0]) * 16 + HexDigit(s[1])) * 16 + HexDigit(s[2])) * 16 + HexDigit(s[3])
  }

  predicate IsContinuation(b: Byte) { 0x80 <= b <= 0xBF }

  /** Length of the UTF-8 sequence a lead byte announces; 0 for a byte that leads none. */
  function Utf8Width(lead: Byte): nat {
    if 0xC2 <= lead <= 0xDF then 2
    else if 0xE0 <= lead <= 0xEF then 3
    else if 0xF0 <= lead <= 0xF4 then 4
    else 0
  }

  /** UTF8-2, UTF8-3 or UTF8-4 of RFC 3629, section 4. */
  predicate IsMultibyte(s: Bytes) {
    && |s| >= 2
    && |s| == Utf8Width(s[0])
    && (forall i | 1 <= i < |s| :: IsContinuation(s[i]))
    && (s[0] == 0xE0 ==> s[1] >= 0xA0)
    && (s[0] == 0xED ==> s[1] <= 0x9F)
    && (s[0] == 0xF0 ==> s[1] >= 0x90)
    && (s[0] == 0xF4 ==> s[1] <= 0x8F)
  }

  function Utf8Scalar(s: Bytes): int
    requires IsMultibyte(s)
  {
    var b: seq<int> := s;
    if |b| == 2 then (b[0] - 0xC0) * 0x40 + (b[1] - 0x80)
    else if |b| == 3 then ((b[0] - 0xE0) * 0x40 + (b[1] - 0x80)) * 0x40 + (b[2] - 0x80)
    else (((b[0] - 0xF0) * 0x40 + (b[1] - 0x80)) * 0x40 + (b[2] - 0x80)) * 0x40 + (b[3] - 0x80)
  }

  predicate IsHighSurrogate(v: int) { 0xD800 <= v <= 0xDBFF }
  predicate IsLowSurrogate(v: int) { 0xDC00 <= v <= 0xDFFF }

  predicate ValidChar(c: Char) {
    match c
    case Plain(b) => 0x20 <= b <= 0x7F && b != QUOTE && b != BACKSLASH
    case Multi(s) => IsMultibyte(s)
    case Escaped(l) => IsEscapeLetter(l)
    case Unicode(h) => IsHex4(h) && !IsHighSurrogate(Hex4(h)) && !IsLowSurrogate(Hex4(h))
    case Surrogates(h, l) =>
      IsHex4(h) && IsHex4(l) && IsHighSurrogate(Hex4(h)) && IsLowSurrogate(Hex4(l))
  }

  function SpellChar(c: Char): Bytes {
    match c
    case Plain(b) => [b]
    case Multi(s) => s
    case Escaped(l) => [BACKSLASH, l]
    case Unicode(h) => [BACKSLASH, LOWER_U] + h
    case Surrogates(h, l) => [BACKSLASH, LOWER_U] + h + [BACKSLASH, LOWER_U] + l
  }

  function EscapeMeaning(letter: Byte): int {
    if letter == 0x62 then 0x08
    else if letter == 0x66 then 0x0C
    else if letter == 0x6E then 0x0A
    else if letter == 0x72 then 0x0D
    else if letter == 0x74 then 0x09
    else letter
  }

  /** The scalar value a character stands for (RFC 8259, section 7). */
  function DecodeChar(c: Char): int
    requires ValidChar(c)
  {
    match c
    case Plain(b) => b
    case Multi(s) => Utf8Scalar(s)
    case Escaped(l) => EscapeMeaning(l)
    case Unicode(h) => Hex4(h)
    case Surrogates(h, l) => 0x10000 + (Hex4(h) - 0xD800) * 0x400 + (Hex4(l) - 0xDC00)
  }

  predicate ValidChars(cs: seq<Char>) {
    forall i | 0 <= i < |cs| :: ValidChar(cs[i])
  }

  function SpellChars(cs: seq<Char>): Bytes {
    if cs == [] then [] else SpellChar(cs[0]) + SpellChars(cs[1..])
  }

  function Decode(cs: seq<Char>): Text
    requires ValidChars(cs)
  {
    seq(|cs|, i requires 0 <= i < |cs| => DecodeChar(cs[i]))
  }

  // ----------------------------------------------------------------- numbers

  datatype Number = Number(minus: bool, whole: Bytes, frac: Option<Bytes>, exp: Option<Exponent>)

  datatype Exponent = Exponent(mark: Byte, sign: Option<Byte>, digits: Bytes)

  predicate IsDigits(s: Bytes) {
    s != [] && forall i | 0 <= i < |s| :: IsDigit(s[i])
  }

  predicate ValidNumber(n: Number) {
    && IsDigits(n.whole)
    && (n.whole[0] == 0x30 ==> |n.whole| == 1)
    && (n.frac.Some? ==> IsDigits(n.frac.value))
    && (n.exp.Some? ==>
          && (n.exp.value.mark == 0x65 || n.exp.value.mark == 0x45)
          && (n.exp.value.sign.Some? ==> n.exp.value.sign.value == PLUS || n.exp.value.sign.value == MINUS)
          && IsDigits(n.exp.value.digits))
  }

  function SpellSign(n: Number): Bytes { if n.minus then [MINUS] else [] }

  function SpellFrac(n: Number): Bytes {
    match n.frac
    case None => []
    case Some(d) => [POINT] + d
  }

  function SpellExp(n: Number): Bytes {
    match n.exp
    case None => []
    case Some(e) => [e.mark] + (if e.sign.Some? then [e.sign.value] else []) + e.digits
  }

  function SpellNumber(n: Number): Bytes {
    SpellSign(n) + n.whole + SpellFrac(n) + SpellExp(n)
  }

  // ------------------------------------------------------------------ values

  datatype Token =
    | Word(word: Bytes)
    | Quoted(chars: seq<Char>)
    | Numeral(number: Number)

  datatype Shape = Array | Object

  datatype Value =
    | Atom(token: Token)
    | Empty(shape: Shape, gap: Bytes)
    | Full(shape: Shape, gap: Bytes, first: Item, rest: Tail)

  /** A member: an array's are unlabelled, an object's carry their key and colon. */
  datatype Item = Item(head: Label, value: Value)

  datatype Label =
    | Unlabelled
    | Labelled(key: seq<Char>, beforeColon: Bytes, afterColon: Bytes)

  /** What follows a member up to and including the closing bracket. */
  datatype Tail =
    | Close(gap: Bytes)
    | More(beforeComma: Bytes, afterComma: Bytes, item: Item, rest: Tail)

  function OpenByte(s: Shape): Byte { if s.Array? then 0x5B else 0x7B }
  function CloseByte(s: Shape): Byte { if s.Array? then 0x5D else 0x7D }

  function SpellQuoted(cs: seq<Char>): Bytes { [QUOTE] + SpellChars(cs) + [QUOTE] }

  function SpellToken(t: Token): Bytes {
    match t
    case Word(w) => w
    case Quoted(cs) => SpellQuoted(cs)
    case Numeral(n) => SpellNumber(n)
  }

  /** The bytes of `v` followed by `after`. */
  function SpellValue(v: Value, after: Bytes): Bytes
    decreases v
  {
    match v
    case Atom(t) => SpellToken(t) + after
    case Empty(s, gap) => [OpenByte(s)] + (gap + ([CloseByte(s)] + after))
    case Full(s, gap, first, rest) =>
      [OpenByte(s)] + (gap + SpellItem(first, SpellTail(s, rest, after)))
  }

  function SpellItem(it: Item, after: Bytes): Bytes
    decreases it
  {
    match it.head
    case Unlabelled => SpellValue(it.value, after)
    case Labelled(key, g1, g2) => SpellQuoted(key) + (g1 + ([COLON] + (g2 + SpellValue(it.value, after))))
  }

  function SpellTail(s: Shape, t: Tail, after: Bytes): Bytes
    decreases t
  {
    match t
    case Close(gap) => gap + ([CloseByte(s)] + after)
    case More(g1, g2, it, rest) => g1 + ([COMMA] + (g2 + SpellItem(it, SpellTail(s, rest, after))))
  }

  // ---------------------------------------------------------------- validity

  predicate ValidQuoted(p: Policy, cs: seq<Char>) {
    ValidChars(cs) && |SpellChars(cs)| <= p.limits.maxStringBytes
  }

  predicate ValidNumeral(p: Policy, n: Number) {
    && ValidNumber(n)
    && |SpellNumber(n)| <= p.limits.maxNumberBytes
    && (!p.limits.allowFractionalNumbers ==> n.frac.None? && n.exp.None?)
  }

  predicate ValidToken(p: Policy, t: Token) {
    match t
    case Word(w) => w == TRUE || w == FALSE || w == NULL
    case Quoted(cs) => ValidQuoted(p, cs)
    case Numeral(n) => ValidNumeral(p, n)
  }

  function Keys(it: Item): set<Text>
    requires it.head.Labelled? ==> ValidChars(it.head.key)
  {
    match it.head
    case Unlabelled => {}
    case Labelled(key, _, _) => {Decode(key)}
  }

  predicate ValidLabel(p: Policy, s: Shape, l: Label) {
    match l
    case Unlabelled => s.Array?
    case Labelled(key, g1, g2) => s.Object? && ValidQuoted(p, key) && IsGap(g1) && IsGap(g2)
  }

  predicate ValidValue(p: Policy, v: Value)
    decreases v
  {
    match v
    case Atom(t) => ValidToken(p, t)
    case Empty(_, gap) => IsGap(gap)
    case Full(s, gap, first, rest) =>
      && IsGap(gap)
      && ValidItem(p, s, first, 0, {})
      && ValidTail(p, s, rest, 1, Keys(first))
  }

  /** `it` may follow `len` members whose keys are `keys`. */
  predicate ValidItem(p: Policy, s: Shape, it: Item, len: nat, keys: set<Text>)
    decreases it
  {
    && ValidLabel(p, s, it.head)
    && len + 1 <= p.limits.maxCollectionLen
    && (p.distinctKeys ==> Keys(it) !! keys)
    && ValidValue(p, it.value)
  }

  /** `t` may follow `len` members whose keys are `keys`. */
  predicate ValidTail(p: Policy, s: Shape, t: Tail, len: nat, keys: set<Text>)
    decreases t
  {
    match t
    case Close(gap) => IsGap(gap)
    case More(g1, g2, it, rest) =>
      && IsGap(g1) && IsGap(g2)
      && ValidItem(p, s, it, len, keys)
      && ValidTail(p, s, rest, len + 1, keys + Keys(it))
  }

  // ------------------------------------------------------------------- sizes

  function Max(a: nat, b: nat): nat { if a >= b then a else b }

  /** Values in a tree; keys are not values. */
  function Nodes(v: Value): nat {
    match v
    case Atom(_) => 1
    case Empty(_, _) => 1
    case Full(_, _, first, rest) => 1 + Nodes(first.value) + NodesTail(rest)
  }

  function NodesTail(t: Tail): nat {
    match t
    case Close(_) => 0
    case More(_, _, it, rest) => Nodes(it.value) + NodesTail(rest)
  }

  /** Container nesting; an atom has none. */
  function Height(v: Value): nat {
    match v
    case Atom(_) => 0
    case Empty(_, _) => 1
    case Full(_, _, first, rest) => 1 + Max(Height(first.value), HeightTail(rest))
  }

  function HeightTail(t: Tail): nat {
    match t
    case Close(_) => 0
    case More(_, _, it, rest) => Max(Height(it.value), HeightTail(rest))
  }

  // --------------------------------------------------------------- documents

  datatype Size = Size(values: nat, depth: nat)

  predicate FitsSize(p: Policy, z: Size) {
    z.values <= p.limits.maxTotalValues && z.depth <= p.limits.maxDepth
  }

  ghost predicate IsTree(p: Policy, b: Bytes, z: Size, lead: Bytes, v: Value, trail: Bytes) {
    && b == lead + SpellValue(v, trail)
    && IsGap(lead) && IsGap(trail)
    && ValidValue(p, v)
    && z == Size(Nodes(v), Height(v))
  }

  /** `b` is one JSON text of size `z`, within every bound of `p` but `maxBytes`. */
  ghost predicate Document(p: Policy, b: Bytes, z: Size) {
    FitsSize(p, z) && exists lead, v, trail :: IsTree(p, b, z, lead, v, trail)
  }

  /** `p` accepts `b`, whose tree has size `z`. */
  ghost predicate Accepts(p: Policy, b: Bytes, z: Size) {
    |b| <= p.limits.maxBytes && Document(p, b, z)
  }
}
