/** What a JSON text means, which texts are canonical, and that the canonical form of a value is
    the one canonical text that means it (crates/rustev-contract/src/canonical.rs). Nothing here
    is defined by way of the order in which the form sorts keys or the tree it builds. */
module CanonicalMeaning {
  import opened Wrappers
  import opened Ascii
  import opened JsonGrammar
  import opened JsonText
  import opened Canonical
  import Digits

  // ----------------------------------------------------------------- meaning

  /** The members of a container, as they stand in the text. */
  function Members(t: Value): (its: seq<Item>)
    ensures forall i | 0 <= i < |its| :: t decreases to its[i]
  {
    if t.Full? then [t.first] + ItemsIn(t.rest) else []
  }

  function ItemsIn(t: Tail): (its: seq<Item>)
    ensures forall i | 0 <= i < |its| :: t decreases to its[i]
  {
    match t
    case Close(_) => []
    case More(_, _, it, rest) => [it] + ItemsIn(rest)
  }

  function TextOf(cs: seq<Char>): Text {
    if ValidChars(cs) then Decode(cs) else []
  }

  function KeyOf(it: Item): Text {
    if it.head.Labelled? then TextOf(it.head.key) else []
  }

  function Labels(its: seq<Item>): seq<Text> {
    seq(|its|, i requires 0 <= i < |its| => KeyOf(its[i]))
  }

  /** A numeral without a fraction or an exponent is an integer if one of 64 bits holds it;
      everything else, and minus zero, is a float. */
  function NumeralMeaning(n: Number): Json {
    if !Digits.AllDigits(n.whole) || n.frac.Some? || n.exp.Some? then JFloat else
      var magnitude: int := Digits.Value(n.whole);
      var v := JInt(if n.minus then -magnitude else magnitude);
      if (n.minus && magnitude == 0) || !IsJson(v) then JFloat else v
  }

  function TokenMeaning(t: Token): Json {
    match t
    case Word(w) => if w == TRUE then JBool(true) else if w == FALSE then JBool(false) else JNull
    case Quoted(cs) => JString(TextOf(cs))
    case Numeral(n) => NumeralMeaning(n)
  }

  /** The value that a tree stands for. */
  function Meaning(t: Value): Json {
    if t.Atom? then TokenMeaning(t.token) else
      var its := Members(t);
      if t.shape.Array? then
        JArray(seq(|its|, i requires 0 <= i < |its| => Meaning(its[i].value)))
      else
        JObject(seq(|its|, i requires 0 <= i < |its| => Member(KeyOf(its[i]), Meaning(its[i].value))))
  }

  // --------------------------------------------------------------- canonical

  /** No character of the same value is spelled shorter, and hexadecimal digits are lower-case. */
  ghost predicate Brief(c: Char) {
    && ValidChar(c)
    && (forall d | ValidChar(d) && DecodeChar(d) == DecodeChar(c) :: |SpellChar(c)| <= |SpellChar(d)|)
    && (c.Unicode? ==> forall i | 0 <= i < |c.hex| :: !(0x41 <= c.hex[i] <= 0x46))
  }

  ghost predicate BriefChars(cs: seq<Char>) {
    forall i | 0 <= i < |cs| :: Brief(cs[i])
  }

  predicate NoGaps(t: Value) {
    match t
    case Atom(_) => true
    case Empty(_, gap) => gap == []
    case Full(_, gap, _, rest) => gap == [] && NoGapsIn(rest)
  }

  predicate NoGapsIn(t: Tail) {
    match t
    case Close(gap) => gap == []
    case More(g1, g2, _, rest) => g1 == [] && g2 == [] && NoGapsIn(rest)
  }

  ghost predicate TightLabel(s: Shape, l: Label) {
    match l
    case Unlabelled => s.Array?
    case Labelled(key, g1, g2) => s.Object? && BriefChars(key) && g1 == [] && g2 == []
  }

  ghost predicate TightToken(t: Token) {
    match t
    case Word(w) => w == TRUE || w == FALSE || w == NULL
    case Quoted(cs) => BriefChars(cs)
    case Numeral(n) => ValidNumber(n) && NumeralMeaning(n).JInt?
  }

  /** No whitespace between tokens, no fraction, every character as brief as it can be, and the
      keys of every object in strict order of their UTF-8 bytes. */
  ghost predicate Tight(t: Value) {
    if t.Atom? then TightToken(t.token) else
      var its := Members(t);
      && NoGaps(t)
      && (t.shape.Object? ==> Ascending(Labels(its)))
      && (forall i | 0 <= i < |its| :: TightLabel(t.shape, its[i].head) && Tight(its[i].value))
  }

  /** `b` is a canonical text of `v`. */
  ghost predicate IsCanonical(b: Bytes, v: Json) {
    exists t :: b == SpellValue(t, []) && Tight(t) && Same(v, Meaning(t))
  }

  // -------------------------------------------------------------- characters

  /** The written form of a character is as brief as any. */
  lemma CharOfIsBrief(v: int)
    requires IsScalar(v)
    ensures Brief(CharOf(v))
  {
    hide Utf8Scalar, IsMultibyte, Encode2, Encode3, Encode4, Hex4;
    var c := CharOf(v);
    if v >= 0x80 {
      Utf8Wide(c.bytes);
    }
    forall d | ValidChar(d) && DecodeChar(d) == v ensures |SpellChar(c)| <= |SpellChar(d)| {
      if d.Multi? {
        Utf8Wide(d.bytes);
      }
    }
  }

  // Each UTF-8 sequence is the encoding of its scalar value, by its length.

  lemma LastSix(w: int, r: int)
    requires 0 <= r < 0x40
    ensures (w * 0x40 + r) / 0x40 == w && (w * 0x40 + r) % 0x40 == r
  {}

  lemma Utf8Two(s: Bytes)
    requires IsMultibyte(s) && |s| == 2
    ensures 0x80 <= Utf8Scalar(s) < 0x800 && Encode2(Utf8Scalar(s)) == s
  {
    var b: seq<int> := s;
    LastSix(b[0] - 0xC0, b[1] - 0x80);
  }

  lemma Utf8Three(s: Bytes)
    requires IsMultibyte(s) && |s| == 3
    ensures var v := Utf8Scalar(s); 0x800 <= v < 0x10000 && IsScalar(v) && Encode3(v) == s
  {
    var b: seq<int> := s;
    var w := (b[0] - 0xE0) * 0x40 + (b[1] - 0x80);
    LastSix(b[0] - 0xE0, b[1] - 0x80);
    LastSix(w, b[2] - 0x80);
  }

  lemma Utf8Four(s: Bytes)
    requires IsMultibyte(s) && |s| == 4
    ensures var v := Utf8Scalar(s); 0x10000 <= v && IsScalar(v) && Encode4(v) == s
  {
    var b: seq<int> := s;
    var u := (b[0] - 0xF0) * 0x40 + (b[1] - 0x80);
    var w := u * 0x40 + (b[2] - 0x80);
    LastSix(b[0] - 0xF0, b[1] - 0x80);
    LastSix(u, b[2] - 0x80);
    LastSix(w, b[3] - 0x80);
  }

  lemma Utf8Wide(s: Bytes)
    requires IsMultibyte(s)
    ensures var v := Utf8Scalar(s);
      && IsScalar(v) && v >= 0x80 && EncodeScalar(v) == s
      && |s| == if v < 0x800 then 2 else if v < 0x10000 then 3 else 4
  {
    hide Encode2, Encode3, Encode4, Utf8Scalar;
    if |s| == 2 {
      Utf8Two(s);
    } else if |s| == 3 {
      Utf8Three(s);
    } else {
      Utf8Four(s);
    }
  }

  /** And the only form that is. */
  lemma BriefIsCharOf(c: Char)
    requires Brief(c)
    ensures IsScalar(DecodeChar(c)) && CharOf(DecodeChar(c)) == c
  {
    match c
    case Plain(b) =>
    case Multi(s) => Utf8Wide(s);
    case Escaped(l) =>
      var d := CharOf(EscapeMeaning(l));
      assert |SpellChar(c)| <= |SpellChar(d)|;
    case Unicode(h) => LowerHexIsCharOf(h);
    case Surrogates(h, l) =>
      var d := CharOf(DecodeChar(c));
      assert false;
  }

  lemma LowerHexIsCharOf(h: Bytes)
    requires Brief(Unicode(h))
    ensures IsScalar(Hex4(h)) && CharOf(Hex4(h)) == Unicode(h)
  {
    hide Encode2, Encode3, Encode4, Utf8Scalar, Hex4;
    HexRange(h);
    BriefControl(Unicode(h), CharOf(Hex4(h)));
    HexOfControl(h);
  }

  lemma HexOfControl(h: Bytes)
    requires IsHex4(h) && Hex4(h) < 0x20
    requires forall i | 0 <= i < |h| :: !(0x41 <= h[i] <= 0x46)
    ensures h == [0x30, 0x30, HexByte(Hex4(h) / 16), HexByte(Hex4(h) % 16)]
  {
    var v := Hex4(h);
    assert HexDigit(h[0]) == 0 && HexDigit(h[1]) == 0;
    assert HexDigit(h[2]) == v / 16 && HexDigit(h[3]) == v % 16;
    assert forall i | 0 <= i < 4 :: h[i] == HexByte(HexDigit(h[i]));
  }

  lemma BriefControl(c: Char, d: Char)
    requires Brief(c) && c.Unicode? && ValidChar(d) && DecodeChar(d) == DecodeChar(c)
    ensures |SpellChar(d)| >= 6
  {}

  lemma HexRange(h: Bytes)
    requires IsHex4(h)
    ensures 0 <= Hex4(h) <= 0xFFFF
  {}

  lemma BriefTexts(cs: seq<Char>)
    requires BriefChars(cs)
    ensures IsText(TextOf(cs)) && Chars(TextOf(cs)) == cs
  {
    hide Brief, CharOf, IsScalar;
    forall i | 0 <= i < |cs| ensures ValidChar(cs[i]) && IsScalar(DecodeChar(cs[i])) && CharOf(DecodeChar(cs[i])) == cs[i] {
      BriefIsValid(cs[i]);
      BriefIsCharOf(cs[i]);
    }
  }

  lemma BriefIsValid(c: Char)
    requires Brief(c)
    ensures ValidChar(c)
  {}

  lemma CharsAreBrief(t: Text)
    requires IsText(t)
    ensures BriefChars(Chars(t)) && TextOf(Chars(t)) == t
  {
    hide Brief, CharOf;
    forall i | 0 <= i < |t| ensures Brief(Chars(t)[i]) {
      CharOfIsBrief(t[i]);
    }
  }

  // -------------------------------------------------------------- containers

  lemma {:induction false} TailHolds(its: seq<Item>)
    ensures ItemsIn(TailOf(its)) == its && NoGapsIn(TailOf(its))
  {
    if its != [] {
      TailHolds(its[1..]);
      assert its == [its[0]] + its[1..];
    }
  }

  /** A container made of members holds them, without gaps. */
  lemma ContainerHolds(s: Shape, its: seq<Item>)
    ensures Members(ContainerOf(s, its)) == its && NoGaps(ContainerOf(s, its))
  {
    if its != [] {
      TailHolds(its[1..]);
      assert its == [its[0]] + its[1..];
    }
  }

  lemma {:induction false} TailIsOf(t: Tail)
    requires NoGapsIn(t)
    ensures t == TailOf(ItemsIn(t))
  {
    match t
    case Close(_) =>
    case More(_, _, it, rest) =>
      TailIsOf(rest);
      assert ItemsIn(t)[1..] == ItemsIn(rest);
  }

  /** A container without gaps is made of its members. */
  lemma ContainerIsOf(t: Value)
    requires !t.Atom? && NoGaps(t)
    ensures t == ContainerOf(t.shape, Members(t))
  {
    if t.Full? {
      TailIsOf(t.rest);
      assert Members(t)[1..] == ItemsIn(t.rest);
    }
  }

  // ------------------------------------------- the form means the value

  lemma NumberMeans(n: int)
    requires IsJson(JInt(n))
    ensures NumeralMeaning(NumberOf(n)) == JInt(n) && ValidNumber(NumberOf(n))
  {
    NumberOfIsValid(n);
    Digits.ValueOfNat(if n < 0 then -n else n);
  }

  /** The canonical tree of a value is tight and means the value. */
  lemma {:induction false} TreeMeans(v: Json)
    requires IsJson(v) && IsWhole(v)
    ensures Tight(Tree(v)) && Same(v, Meaning(Tree(v)))
    decreases v, 1
  {
    match v
    case JInt(n) => NumberMeans(n);
    case JString(s) => CharsAreBrief(s);
    case JArray(xs) =>
      var its := ItemsOf(v);
      ContainerHolds(Array, its);
      forall i | 0 <= i < |xs| ensures Tight(its[i].value) && Same(xs[i], Meaning(its[i].value)) {
        TreeMeans(xs[i]);
      }
    case JObject(_) => ObjectMeans(v);
    case _ =>
  }

  lemma {:induction false} ObjectMeans(v: Json)
    requires v.JObject? && IsJson(v) && IsWhole(v)
    ensures Tight(Tree(v)) && Same(v, Meaning(Tree(v)))
    decreases v, 0
  {
    hide Brief, CharOf, Same, Ascending, Tight, TightLabel, Meaning;
    var ms, ks, its := v.members, SortedKeys(v.members), ItemsOf(v);
    SortAscends(KeysOf(ms));
    forall i | 0 <= i < |its|
      ensures KeyOf(its[i]) == ks[i] && TightLabel(Object, its[i].head)
      ensures HasKey(ms, ks[i]) && Tight(its[i].value) && Same(ms[IndexOf(ms, ks[i])].value, Meaning(its[i].value))
    {
      assert ks[i] in ks && its[i] == ItemOf(v, ks[i]);
      LabelIsTight(ks[i]);
      TreeMeans(ms[IndexOf(ms, ks[i])].value);
    }
    assert Labels(its) == ks;
    var ns := ObjectIsTight(its);
    ReorderedSame(ms, ks, ns);
  }

  lemma LabelIsTight(k: Text)
    requires IsText(k)
    ensures TightLabel(Object, Labelled(Chars(k), [], [])) && TextOf(Chars(k)) == k
  {
    CharsAreBrief(k);
  }

  /** An object made of tight members in order is tight and means its members in that order. */
  lemma ObjectIsTight(its: seq<Item>) returns (ns: seq<Member>)
    requires Ascending(Labels(its))
    requires forall i | 0 <= i < |its| :: TightLabel(Object, its[i].head) && Tight(its[i].value)
    ensures Tight(ContainerOf(Object, its)) && Meaning(ContainerOf(Object, its)) == JObject(ns)
    ensures |ns| == |its| && forall i | 0 <= i < |ns| :: ns[i] == Member(KeyOf(its[i]), Meaning(its[i].value))
  {
    hide Brief, Ascending, TightLabel;
    ContainerHolds(Object, its);
    ns := Meaning(ContainerOf(Object, its)).members;
  }

  /** The same members under the same keys, in another order. */
  lemma ReorderedSame(ms: seq<Member>, ks: seq<Text>, ns: seq<Member>)
    requires Distinct(KeysOf(ms)) && (forall k :: k in ks <==> HasKey(ms, k))
    requires |ns| == |ks|
    requires forall i | 0 <= i < |ks| ::
               HasKey(ms, ks[i]) && ns[i].key == ks[i] && Same(ms[IndexOf(ms, ks[i])].value, ns[i].value)
    ensures Same(JObject(ms), JObject(ns))
  {
    forall i | 0 <= i < |ms| ensures HasKey(ns, ms[i].key) && Same(ms[i].value, ns[IndexOf(ns, ms[i].key)].value) {
      var k := ms[i].key;
      assert k in ks;
      var j :| 0 <= j < |ks| && ks[j] == k;
      assert ns[j].key == k;
      var h := IndexOf(ns, k);
      assert ks[h] == k;
      IndexOfItself(ms, i);
    }
  }

  // ---------------------------------------- and is the one text that does

  lemma AscendingDistinct(ks: seq<Text>)
    requires Ascending(ks)
    ensures Distinct(ks)
  {
    forall i, j | 0 <= i < j < |ks| ensures ks[i] != ks[j] {
      LessIrreflexive(Encode(ks[i]));
    }
  }

  lemma NumeralIsOf(n: Number)
    requires ValidNumber(n) && NumeralMeaning(n).JInt?
    ensures IsJson(NumeralMeaning(n)) && NumberOf(NumeralMeaning(n).n) == n
  {
    Digits.OfNatValue(n.whole);
  }

  /** A tight tree is the canonical tree of what it means. */
  lemma {:induction false} TightIsTree(t: Value)
    requires Tight(t)
    ensures IsJson(Meaning(t)) && IsWhole(Meaning(t)) && Tree(Meaning(t)) == t
    decreases t, 1
  {
    if t.Atom? {
      match t.token
      case Word(_) =>
      case Quoted(cs) => BriefTexts(cs);
      case Numeral(n) => NumeralIsOf(n);
    } else {
      ContainerIsOf(t);
      if t.shape.Array? {
        var its, v := Members(t), Meaning(t);
        forall i | 0 <= i < |its| ensures IsJson(v.items[i]) && IsWhole(v.items[i]) && Tree(v.items[i]) == its[i].value {
          TightIsTree(its[i].value);
        }
        assert ItemsOf(v) == its;
      } else {
        TightIsObject(t);
      }
    }
  }

  lemma {:induction false} TightIsObject(t: Value)
    requires !t.Atom? && t.shape.Object? && Tight(t) && t == ContainerOf(Object, Members(t))
    ensures IsJson(Meaning(t)) && IsWhole(Meaning(t)) && Tree(Meaning(t)) == t
    decreases t, 0
  {
    hide BriefChars, CharOf, Less, Encode;
    var its, ls := Members(t), Labels(Members(t));
    forall i | 0 <= i < |its|
      ensures its[i].head == Labelled(Chars(ls[i]), [], [])
      ensures IsJson(Meaning(its[i].value)) && IsWhole(Meaning(its[i].value))
      ensures Tree(Meaning(its[i].value)) == its[i].value
    {
      BriefTexts(its[i].head.key);
      TightIsTree(its[i].value);
    }
    OrderedTree(its, Meaning(t));
  }

  /** The canonical tree of an object whose members are in order has them in that order. */
  lemma OrderedTree(its: seq<Item>, v: Json)
    requires v.JObject? && |v.members| == |its| && Ascending(Labels(its))
    requires forall i | 0 <= i < |its| ::
               && v.members[i] == Member(Labels(its)[i], Meaning(its[i].value))
               && its[i].head == Labelled(Chars(Labels(its)[i]), [], [])
               && IsJson(v.members[i].value) && IsWhole(v.members[i].value) && Tree(v.members[i].value) == its[i].value
    ensures IsJson(v) && IsWhole(v) && Tree(v) == ContainerOf(Object, its)
  {
    hide CharOf, Less, Encode, Meaning;
    var ms, ls := v.members, Labels(its);
    assert KeysOf(ms) == ls;
    AscendingDistinct(ls);
    assert IsJson(v) && IsWhole(v);
    SortAscends(ls);
    AscendingUnique(Sort(ls), ls);
    forall i | 0 <= i < |its| ensures ItemOf(v, ls[i]) == its[i] {
      IndexOfItself(ms, i);
    }
    assert ItemsOf(v) == its;
  }

  /** The canonical form of a value is the one canonical text of it. */
  lemma PrintedIsCanonical(v: Json, b: Bytes)
    requires IsJson(v) && IsWhole(v)
    ensures IsCanonical(b, v) <==> b == Printed(v)
  {
    TreeMeans(v);
    if IsCanonical(b, v) {
      var t :| b == SpellValue(t, []) && Tight(t) && Same(v, Meaning(t));
      TightIsTree(t);
      SameTree(v, Meaning(t));
    }
  }
}
