/** Text in UTF-8, in JSON strings, and in byte order. */
module JsonText {
  import opened Wrappers
  import opened JsonGrammar
  import opened JsonLexing

  predicate IsScalar(v: int) {
    0 <= v <= 0x10FFFF && !IsHighSurrogate(v) && !IsLowSurrogate(v)
  }

  predicate IsText(t: Text) {
    forall i | 0 <= i < |t| :: IsScalar(t[i])
  }

  // ------------------------------------------------------------------- UTF-8

  // The UTF-8 bytes of a scalar value (RFC 3629, section 3), by their number.

  function Encode2(v: int): (s: Bytes)
    requires 0x80 <= v < 0x800
    ensures IsMultibyte(s) && Utf8Scalar(s) == v
  { [0xC0 + v / 0x40, 0x80 + v % 0x40] }

  function Encode3(v: int): (s: Bytes)
    requires 0x800 <= v < 0x10000 && IsScalar(v)
    ensures IsMultibyte(s) && Utf8Scalar(s) == v
  {
    var w := v / 0x40;
    [0xE0 + w / 0x40, 0x80 + w % 0x40, 0x80 + v % 0x40]
  }

  function Encode4(v: int): (s: Bytes)
    requires 0x10000 <= v && IsScalar(v)
    ensures IsMultibyte(s) && Utf8Scalar(s) == v
  {
    var w := v / 0x40;
    var u := w / 0x40;
    [0xF0 + u / 0x40, 0x80 + u % 0x40, 0x80 + w % 0x40, 0x80 + v % 0x40]
  }

  function EncodeScalar(v: int): (s: Bytes)
    requires IsScalar(v)
    ensures v < 0x80 ==> s == [v]
    ensures v >= 0x80 ==> IsMultibyte(s) && Utf8Scalar(s) == v
  {
    if v < 0x80 then [v]
    else if v < 0x800 then Encode2(v)
    else if v < 0x10000 then Encode3(v)
    else Encode4(v)
  }

  function Encode(t: Text): Bytes
    requires IsText(t)
  {
    if t == [] then [] else EncodeScalar(t[0]) + Encode(t[1..])
  }

  /** Reading UTF-8 inverts writing it. */
  lemma {:induction false} EncodeReads(t: Text)
    requires IsText(t)
    ensures FromUtf8(Encode(t)) == Some(t)
  {
    if t != [] {
      EncodeReads(t[1..]);
      var s := EncodeScalar(t[0]);
      var b := Encode(t);
      assert b[0] == s[0];
      assert b[..|s|] == s && b[|s|..] == Encode(t[1..]);
      assert t == [t[0]] + t[1..];
    }
  }

  lemma EncodeInjective(t: Text, u: Text)
    requires IsText(t) && IsText(u)
    requires Encode(t) == Encode(u)
    ensures t == u
  {
    EncodeReads(t);
    EncodeReads(u);
  }

  // ------------------------------------------------------------ JSON strings

  function HexByte(d: nat): Byte
    requires d < 16
  { if d < 10 then 0x30 + d else 0x61 + (d - 10) }

  /** How a scalar value is written in a string: escaped when it must be, briefly if it can. */
  function CharOf(v: int): (c: Char)
    requires IsScalar(v)
    ensures ValidChar(c) && DecodeChar(c) == v
  {
    if v == 0x22 || v == 0x5C then Escaped(v)
    else if v == 0x08 then Escaped(0x62)
    else if v == 0x0C then Escaped(0x66)
    else if v == 0x0A then Escaped(0x6E)
    else if v == 0x0D then Escaped(0x72)
    else if v == 0x09 then Escaped(0x74)
    else if v < 0x20 then Unicode([0x30, 0x30, HexByte(v / 16), HexByte(v % 16)])
    else if v < 0x80 then Plain(v)
    else Multi(EncodeScalar(v))
  }

  function Chars(t: Text): (cs: seq<Char>)
    requires IsText(t)
    ensures ValidChars(cs) && Decode(cs) == t
  {
    seq(|t|, i requires 0 <= i < |t| => CharOf(t[i]))
  }

  // -------------------------------------------------------------- byte order

  predicate Less(x: Bytes, y: Bytes) {
    y != [] && (x == [] || x[0] < y[0] || (x[0] == y[0] && Less(x[1..], y[1..])))
  }

  lemma {:induction false} LessTransitive(x: Bytes, y: Bytes, z: Bytes)
    requires Less(x, y) && Less(y, z)
    ensures Less(x, z)
  {
    if x != [] && x[0] == y[0] && y[0] == z[0] {
      LessTransitive(x[1..], y[1..], z[1..]);
    }
  }

  lemma {:induction false} LessIrreflexive(x: Bytes)
    ensures !Less(x, x)
  {
    if x != [] {
      LessIrreflexive(x[1..]);
    }
  }

  lemma {:induction false} LessTotal(x: Bytes, y: Bytes)
    requires x != y
    ensures Less(x, y) || Less(y, x)
  {
    if x != [] && y != [] && x[0] == y[0] {
      assert x == [x[0]] + x[1..] && y == [y[0]] + y[1..];
      LessTotal(x[1..], y[1..]);
    }
  }

  /** Keys in strict byte order. */
  predicate Ascending(ks: seq<Text>) {
    && (forall i | 0 <= i < |ks| :: IsText(ks[i]))
    && (forall i, j | 0 <= i < j < |ks| :: Less(Encode(ks[i]), Encode(ks[j])))
  }

  function Insert(k: Text, ks: seq<Text>): seq<Text>
    requires IsText(k) && forall i | 0 <= i < |ks| :: IsText(ks[i])
  {
    if ks == [] then [k]
    else if Less(Encode(k), Encode(ks[0])) then [k] + ks
    else [ks[0]] + Insert(k, ks[1..])
  }

  /** `ks` in byte order. */
  function Sort(ks: seq<Text>): (r: seq<Text>)
    requires forall i | 0 <= i < |ks| :: IsText(ks[i])
    ensures |r| == |ks| && forall k :: k in r <==> k in ks
  {
    if ks == [] then [] else
      var rest := Sort(ks[1..]);
      assert ks == [ks[0]] + ks[1..];
      assert forall k | k in ks :: IsText(k);
      assert forall i | 0 <= i < |rest| :: rest[i] in rest;
      InsertHolds(ks[0], rest);
      Insert(ks[0], rest)
  }

  lemma {:induction false} InsertHolds(k: Text, ks: seq<Text>)
    requires IsText(k) && forall i | 0 <= i < |ks| :: IsText(ks[i])
    ensures var r := Insert(k, ks); |r| == |ks| + 1 && (forall u :: u in r <==> u == k || u in ks)
    ensures Ascending(ks) && k !in ks ==> Ascending(Insert(k, ks))
  {
    if ks != [] {
      assert ks == [ks[0]] + ks[1..];
      InsertHolds(k, ks[1..]);
      if Ascending(ks) && k !in ks {
        if Encode(k) == Encode(ks[0]) { EncodeInjective(k, ks[0]); }
        LessTotal(Encode(k), Encode(ks[0]));
        InsertAscends(k, ks);
      }
    }
  }

  lemma InsertAscends(k: Text, ks: seq<Text>)
    requires IsText(k) && ks != [] && Ascending(ks)
    requires Ascending(Insert(k, ks[1..])) && (forall u :: u in Insert(k, ks[1..]) <==> u == k || u in ks[1..])
    requires Less(Encode(k), Encode(ks[0])) || Less(Encode(ks[0]), Encode(k))
    ensures Ascending(Insert(k, ks))
  {
    if Less(Encode(k), Encode(ks[0])) {
      forall j | 0 <= j < |ks| ensures Less(Encode(k), Encode(ks[j])) {
        if j > 0 {
          LessTransitive(Encode(k), Encode(ks[0]), Encode(ks[j]));
        }
      }
      ConsAscends(k, ks);
    } else {
      var rest := Insert(k, ks[1..]);
      forall j | 0 <= j < |rest| ensures Less(Encode(ks[0]), Encode(rest[j])) {
        assert rest[j] in rest;
        if rest[j] != k {
          var i :| 0 <= i < |ks[1..]| && ks[1..][i] == rest[j];
          assert rest[j] == ks[i + 1];
        }
      }
      ConsAscends(ks[0], rest);
    }
  }

  lemma ConsAscends(k: Text, ks: seq<Text>)
    requires IsText(k) && Ascending(ks)
    requires forall j | 0 <= j < |ks| :: Less(Encode(k), Encode(ks[j]))
    ensures Ascending([k] + ks)
  {
    hide IsText, Less, Encode;
    var r := [k] + ks;
    assert forall j | 0 < j < |r| :: r[j] == ks[j - 1];
  }

  lemma {:induction false} SortAscends(ks: seq<Text>)
    requires forall i | 0 <= i < |ks| :: IsText(ks[i])
    requires Distinct(ks)
    ensures Ascending(Sort(ks))
  {
    if ks != [] {
      SortAscends(ks[1..]);
      InsertHolds(ks[0], Sort(ks[1..]));
      assert ks[0] !in ks[1..];
    }
  }

  /** There is one way to put the same keys in strict order. */
  lemma {:induction false} AscendingUnique(a: seq<Text>, b: seq<Text>)
    requires Ascending(a) && Ascending(b)
    requires forall k :: k in a <==> k in b
    ensures a == b
  {
    HasFirst(a);
    HasFirst(b);
    if a != [] {
      FirstIsLeast(a, b[0]);
      FirstIsLeast(b, a[0]);
      if a[0] != b[0] {
        LessTransitive(Encode(a[0]), Encode(b[0]), Encode(a[0]));
        LessIrreflexive(Encode(a[0]));
      }
      assert a == [a[0]] + a[1..] && b == [b[0]] + b[1..];
      forall i | 0 <= i < |a| - 1 ensures a[1..][i] != a[0] { LessIrreflexive(Encode(a[0])); }
      forall i | 0 <= i < |b| - 1 ensures b[1..][i] != b[0] { LessIrreflexive(Encode(b[0])); }
      forall k ensures k in a[1..] <==> k in b[1..] {
        assert k in a <==> k == a[0] || k in a[1..];
        assert k in b <==> k == b[0] || k in b[1..];
      }
      AscendingUnique(a[1..], b[1..]);
    }
  }

  lemma HasFirst(ks: seq<Text>)
    ensures ks != [] ==> ks[0] in ks
  {}

  lemma FirstIsLeast(ks: seq<Text>, k: Text)
    requires Ascending(ks) && k in ks
    ensures k == ks[0] || Less(Encode(ks[0]), Encode(k))
  {
    var i :| 0 <= i < |ks| && ks[i] == k;
  }
}
