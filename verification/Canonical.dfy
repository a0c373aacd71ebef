/** The canonical form of a JSON value: object keys in byte order, no insignificant
    whitespace, no fractions (crates/rustev-contract/src/canonical.rs). */
module Canonical {
  import opened Wrappers
  import opened Ascii
  import opened JsonGrammar
  import opened JsonText
  import JsonUnique
  import Digits

  /** A value as a caller holds it; an object's members are in the order its map yields them. */
  datatype Json =
    | JNull
    | JBool(b: bool)
    | JInt(n: int)
    | JFloat
    | JString(s: Text)
    | JArray(items: seq<Json>)
    | JObject(members: seq<Member>)

  datatype Member = Member(key: Text, value: Json)

  function KeysOf(ms: seq<Member>): seq<Text> {
    seq(|ms|, i requires 0 <= i < |ms| => ms[i].key)
  }

  /** What `serde_json` can hold: integers that fit `i64` or `u64`, texts, unrepeated keys. */
  predicate IsJson(v: Json) {
    match v
    case JInt(n) => -0x8000_0000_0000_0000 <= n <= 0xFFFF_FFFF_FFFF_FFFF
    case JString(s) => IsText(s)
    case JArray(items) => forall i | 0 <= i < |items| :: IsJson(items[i])
    case JObject(ms) =>
      && Distinct(KeysOf(ms))
      && forall i | 0 <= i < |ms| :: IsText(ms[i].key) && IsJson(ms[i].value)
    case _ => true
  }

  /** No number in it is fractional. */
  predicate IsWhole(v: Json) {
    match v
    case JFloat => false
    case JArray(items) => forall i | 0 <= i < |items| :: IsWhole(items[i])
    case JObject(ms) => forall i | 0 <= i < |ms| :: IsWhole(ms[i].value)
    case _ => true
  }

  predicate HasKey(ms: seq<Member>, k: Text) {
    exists i | 0 <= i < |ms| :: ms[i].key == k
  }

  function IndexOf(ms: seq<Member>, k: Text): (i: nat)
    requires HasKey(ms, k)
    ensures i < |ms| && ms[i].key == k
  {
    if ms[0].key == k then 0 else
      assert HasKey(ms[1..], k) by {
        var j :| 0 <= j < |ms| && ms[j].key == k;
        assert ms[1..][j - 1].key == k;
      }
      1 + IndexOf(ms[1..], k)
  }

  /** Equality of JSON values: the order of an object's members does not matter. */
  predicate Same(v: Json, w: Json) {
    match (v, w)
    case (JArray(xs), JArray(ys)) =>
      |xs| == |ys| && forall i | 0 <= i < |xs| :: Same(xs[i], ys[i])
    case (JObject(ms), JObject(ns)) =>
      && (forall i | 0 <= i < |ns| :: HasKey(ms, ns[i].key))
      && (forall i | 0 <= i < |ms| :: HasKey(ns, ms[i].key) && Same(ms[i].value, ns[IndexOf(ns, ms[i].key)].value))
    case _ => v == w
  }

  // ---------------------------------------------------------------- the form

  /** The object's keys in the order they are written. */
  function SortedKeys(ms: seq<Member>): (ks: seq<Text>)
    requires forall i | 0 <= i < |ms| :: IsText(ms[i].key)
    ensures forall k :: k in ks <==> HasKey(ms, k)
  {
    var keys := KeysOf(ms);
    assert forall k :: k in keys <==> HasKey(ms, k) by {
      forall k ensures k in keys <==> HasKey(ms, k) {
        if HasKey(ms, k) {
          var i :| 0 <= i < |ms| && ms[i].key == k;
          assert keys[i] == k;
        }
      }
    }
    Sort(keys)
  }

  function TailOf(items: seq<Item>): Tail {
    if items == [] then Close([]) else More([], [], items[0], TailOf(items[1..]))
  }

  function ContainerOf(shape: Shape, items: seq<Item>): Value {
    if items == [] then Empty(shape, []) else Full(shape, [], items[0], TailOf(items[1..]))
  }

  function ItemsOf(v: Json): seq<Item>
    requires IsJson(v) && IsWhole(v) && (v.JArray? || v.JObject?)
    decreases v, 1
  {
    match v
    case JArray(items) =>
      seq(|items|, i requires 0 <= i < |items| => Item(Unlabelled, Tree(items[i])))
    case JObject(ms) =>
      var ks := SortedKeys(ms);
      assert forall i | 0 <= i < |ks| :: ks[i] in ks;
      seq(|ks|, i requires 0 <= i < |ks| => ItemOf(v, ks[i]))
  }

  function ItemOf(v: Json, k: Text): Item
    requires v.JObject? && IsJson(v) && IsWhole(v) && HasKey(v.members, k)
    decreases v, 0
  {
    var m := v.members[IndexOf(v.members, k)];
    Item(Labelled(Chars(m.key), [], []), Tree(m.value))
  }

  function NumberOf(n: int): Number {
    Number(n < 0, Digits.OfNat(if n < 0 then -n else n), None, None)
  }

  /** The parse tree of the canonical text. */
  function Tree(v: Json): Value
    requires IsJson(v) && IsWhole(v)
    decreases v, 2
  {
    match v
    case JNull => Atom(Word(NULL))
    case JBool(b) => Atom(Word(if b then TRUE else FALSE))
    case JInt(n) => Atom(Numeral(NumberOf(n)))
    case JString(s) => Atom(Quoted(Chars(s)))
    case JArray(_) => ContainerOf(Array, ItemsOf(v))
    case JObject(_) => ContainerOf(Object, ItemsOf(v))
  }

  /** The canonical text. */
  function Printed(v: Json): Bytes
    requires IsJson(v) && IsWhole(v)
  {
    SpellValue(Tree(v), [])
  }

  // -------------------------------------------------------- what it demands

  /** The least limits that admit the canonical text. */
  function Join(a: ParseLimits, b: ParseLimits): ParseLimits {
    ParseLimits(Max(a.maxBytes, b.maxBytes), Max(a.maxDepth, b.maxDepth), Max(a.maxStringBytes, b.maxStringBytes),
                Max(a.maxCollectionLen, b.maxCollectionLen), Max(a.maxTotalValues, b.maxTotalValues),
                Max(a.maxNumberBytes, b.maxNumberBytes), false)
  }

  const NOTHING := ParseLimits(0, 0, 0, 0, 0, 0, false)

  function StringNeeds(t: Text): ParseLimits
    requires IsText(t)
  { NOTHING.(maxStringBytes := |SpellChars(Chars(t))|) }

  /** Needs of the parts of `v`: of each string, number and collection in it. */
  function PartNeeds(v: Json): (n: ParseLimits)
    requires IsJson(v)
    ensures !n.allowFractionalNumbers
    decreases v, 1
  {
    match v
    case JInt(n) => NOTHING.(maxNumberBytes := |SpellNumber(NumberOf(n))|)
    case JString(s) => StringNeeds(s)
    case JArray(items) => Join(NOTHING.(maxCollectionLen := |items|), ItemNeeds(v, |items|))
    case JObject(ms) => Join(NOTHING.(maxCollectionLen := |ms|), ItemNeeds(v, |ms|))
    case _ => NOTHING
  }

  function ItemNeeds(v: Json, k: nat): (n: ParseLimits)
    requires IsJson(v) && (v.JArray? || v.JObject?)
    requires k <= if v.JArray? then |v.items| else |v.members|
    ensures !n.allowFractionalNumbers
    decreases v, 0, k
  {
    if k == 0 then NOTHING
    else if v.JArray? then Join(ItemNeeds(v, k - 1), PartNeeds(v.items[k - 1]))
    else
      var m := v.members[k - 1];
      Join(ItemNeeds(v, k - 1), Join(StringNeeds(m.key), PartNeeds(m.value)))
  }

  /** Limits as large as the value. */
  predicate AsLargeAs(limits: ParseLimits, v: Json)
    requires IsJson(v) && IsWhole(v)
  {
    && Wider(Policy(limits, true), PartNeeds(v))
    && limits.maxBytes >= |Printed(v)|
    && limits.maxDepth >= Height(Tree(v))
    && limits.maxTotalValues >= Nodes(Tree(v))
  }

  lemma WiderThanJoin(p: Policy, a: ParseLimits, b: ParseLimits)
    requires Wider(p, Join(a, b)) && !a.allowFractionalNumbers && !b.allowFractionalNumbers
    ensures Wider(p, a) && Wider(p, b)
  {}

  lemma {:induction false} WiderThanItem(p: Policy, v: Json, k: nat, i: nat)
    requires IsJson(v) && (v.JArray? || v.JObject?)
    requires i < k <= if v.JArray? then |v.items| else |v.members|
    requires Wider(p, ItemNeeds(v, k))
    ensures v.JArray? ==> Wider(p, PartNeeds(v.items[i]))
    ensures v.JObject? ==> Wider(p, StringNeeds(v.members[i].key)) && Wider(p, PartNeeds(v.members[i].value))
    decreases k
  {
    hide Wider, PartNeeds;
    if v.JArray? {
      WiderThanJoin(p, ItemNeeds(v, k - 1), PartNeeds(v.items[k - 1]));
    } else {
      var m := v.members[k - 1];
      WiderThanJoin(p, ItemNeeds(v, k - 1), Join(StringNeeds(m.key), PartNeeds(m.value)));
      WiderThanJoin(p, StringNeeds(m.key), PartNeeds(m.value));
    }
    if i < k - 1 {
      WiderThanItem(p, v, k - 1, i);
    }
  }

  // ------------------------------------------------------------- acceptance

  lemma NumberOfIsValid(n: int)
    ensures ValidNumber(NumberOf(n))
  {
    var d := NumberOf(n).whole;
    assert forall i | 0 <= i < |d| :: IsDigit(d[i]);
  }

  /** The tree is valid under any policy that admits its parts. */
  lemma {:induction false} TreeIsValid(p: Policy, v: Json)
    requires IsJson(v) && IsWhole(v)
    requires Wider(p, PartNeeds(v))
    ensures ValidValue(p, Tree(v))
    decreases v, 1
  {
    match v
    case JInt(n) => NumberOfIsValid(n);
    case JString(s) =>
    case JArray(items) =>
      var its := ItemsOf(v);
      WiderThanJoin(p, NOTHING.(maxCollectionLen := |items|), ItemNeeds(v, |items|));
      forall i | 0 <= i < |its| ensures Standalone(p, Array, its[i]) {
        WiderThanItem(p, v, |items|, i);
        TreeIsValid(p, items[i]);
      }
      ContainerIsValid(p, Array, its);
    case JObject(_) => ObjectIsValid(p, v);
    case _ =>
  }

  lemma {:induction false} ObjectIsValid(p: Policy, v: Json)
    requires v.JObject? && IsJson(v) && IsWhole(v)
    requires Wider(p, PartNeeds(v))
    ensures ValidValue(p, Tree(v))
    decreases v, 0
  {
    var ms, its, ks := v.members, ItemsOf(v), SortedKeys(v.members);
    WiderThanJoin(p, NOTHING.(maxCollectionLen := |ms|), ItemNeeds(v, |ms|));
    forall i | 0 <= i < |its| ensures Standalone(p, Object, its[i]) && Keys(its[i]) == {ks[i]} {
      assert ks[i] in ks;
      var j := IndexOf(ms, ks[i]);
      WiderThanItem(p, v, |ms|, j);
      TreeIsValid(p, ms[j].value);
      assert its[i] == ItemOf(v, ks[i]);
    }
    SortAscends(KeysOf(ms));
    forall i, j | 0 <= i < j < |its| ensures Keys(its[i]) !! Keys(its[j]) {
      LessIrreflexive(Encode(ks[i]));
    }
    ContainerIsValid(p, Object, its);
  }

  /** A member that is valid but for its place among the others. */
  predicate Standalone(p: Policy, s: Shape, it: Item) {
    && ValidLabel(p, s, it.head)
    && ValidValue(p, it.value)
  }

  lemma ContainerIsValid(p: Policy, s: Shape, its: seq<Item>)
    requires |its| <= p.limits.maxCollectionLen
    requires forall i | 0 <= i < |its| :: Standalone(p, s, its[i])
    requires forall i | 0 <= i < |its| :: its[i].head.Labelled? ==> ValidChars(its[i].head.key)
    requires forall i, j | 0 <= i < j < |its| :: Keys(its[i]) !! Keys(its[j])
    ensures ValidValue(p, ContainerOf(s, its))
  {
    if its != [] {
      assert forall i | 0 <= i < |its| - 1 :: its[1..][i] == its[i + 1] && Standalone(p, s, its[i + 1]);
      TailIsValid(p, s, its[1..], 1, Keys(its[0]));
    }
  }

  lemma {:induction false} TailIsValid(p: Policy, s: Shape, its: seq<Item>, len: nat, keys: set<Text>)
    requires len + |its| <= p.limits.maxCollectionLen
    requires forall i | 0 <= i < |its| :: Standalone(p, s, its[i])
    requires forall i | 0 <= i < |its| :: its[i].head.Labelled? ==> ValidChars(its[i].head.key)
    requires forall i, j | 0 <= i < j < |its| :: Keys(its[i]) !! Keys(its[j])
    requires forall i | 0 <= i < |its| :: Keys(its[i]) !! keys
    ensures ValidTail(p, s, TailOf(its), len, keys)
  {
    if its != [] {
      assert forall i | 0 <= i < |its| - 1 :: its[1..][i] == its[i + 1] && Standalone(p, s, its[i + 1]);
      TailIsValid(p, s, its[1..], len + 1, keys + Keys(its[0]));
    }
  }

  /** The canonical text of a value is a document, of the value's own size, under any limits
      as large as the value. */
  lemma PrintedIsAccepted(v: Json, limits: ParseLimits)
    requires IsJson(v) && IsWhole(v) && AsLargeAs(limits, v)
    ensures Accepts(Policy(limits, true), Printed(v), Size(Nodes(Tree(v)), Height(Tree(v))))
  {
    var p := Policy(limits, true);
    TreeIsValid(p, v);
    assert [] + Printed(v) == Printed(v);
    assert IsTree(p, Printed(v), Size(Nodes(Tree(v)), Height(Tree(v))), [], Tree(v), []);
  }

  // --------------------------------------------------------------- identity

  /** Members listed in order say which tail holds them. */
  lemma {:induction false} TailInjective(a: seq<Item>, b: seq<Item>)
    requires TailOf(a) == TailOf(b)
    ensures a == b
  {
    if a != [] {
      TailInjective(a[1..], b[1..]);
      assert a == [a[0]] + a[1..] && b == [b[0]] + b[1..];
    }
  }

  lemma ContainerInjective(s: Shape, a: seq<Item>, t: Shape, b: seq<Item>)
    requires ContainerOf(s, a) == ContainerOf(t, b)
    ensures s == t && a == b
  {
    if a != [] {
      TailInjective(a[1..], b[1..]);
      assert a == [a[0]] + a[1..] && b == [b[0]] + b[1..];
    }
  }

  /** Values with one tree are the same value. */
  lemma {:induction false} TreeSame(v: Json, w: Json)
    requires IsJson(v) && IsWhole(v) && IsJson(w) && IsWhole(w)
    requires Tree(v) == Tree(w)
    ensures Same(v, w)
    decreases v, 1
  {
    match v
    case JInt(n) =>
      Digits.OfNatInjective(if n < 0 then -n else n, if w.n < 0 then -w.n else w.n);
    case JString(s) =>
      assert Decode(Chars(s)) == Decode(Chars(w.s));
    case JArray(xs) =>
      ContainerInjective(Array, ItemsOf(v), if w.JArray? then Array else Object, ItemsOf(w));
      forall i | 0 <= i < |xs| ensures Same(xs[i], w.items[i]) {
        assert ItemsOf(v)[i] == ItemsOf(w)[i];
        TreeSame(xs[i], w.items[i]);
      }
    case JObject(ms) =>
      ContainerInjective(Object, ItemsOf(v), if w.JArray? then Array else Object, ItemsOf(w));
      ObjectSame(v, w);
    case _ =>
  }

  lemma {:induction false} ObjectSame(v: Json, w: Json)
    requires v.JObject? && w.JObject?
    requires IsJson(v) && IsWhole(v) && IsJson(w) && IsWhole(w)
    requires ItemsOf(v) == ItemsOf(w)
    ensures Same(v, w)
    decreases v, 0
  {
    var ms, ns := v.members, w.members;
    var ks, ls := SortedKeys(ms), SortedKeys(ns);
    forall i | 0 <= i < |ks| ensures ks[i] == ls[i] {
      assert ItemsOf(v)[i] == ItemsOf(w)[i];
      assert ks[i] in ks && ls[i] in ls;
      assert ks[i] == Decode(ItemsOf(v)[i].head.key) && ls[i] == Decode(ItemsOf(w)[i].head.key);
    }
    assert ks == ls;
    forall i | 0 <= i < |ns| ensures HasKey(ms, ns[i].key) {
      assert ns[i].key in ls;
    }
    forall i | 0 <= i < |ms| ensures HasKey(ns, ms[i].key) && Same(ms[i].value, ns[IndexOf(ns, ms[i].key)].value) {
      var k := ms[i].key;
      assert k in ks && k in ls;
      var j :| 0 <= j < |ks| && ks[j] == k;
      IndexOfItself(ms, i);
      assert ItemsOf(v)[j] == ItemsOf(w)[j];
      TreeSame(ms[i].value, ns[IndexOf(ns, k)].value);
    }
  }

  lemma IndexOfItself(ms: seq<Member>, i: nat)
    requires i < |ms| && Distinct(KeysOf(ms))
    ensures HasKey(ms, ms[i].key) && IndexOf(ms, ms[i].key) == i
  {
    var j := IndexOf(ms, ms[i].key);
    assert KeysOf(ms)[j] == KeysOf(ms)[i];
  }

  /** The same values have one tree. */
  lemma {:induction false} SameTree(v: Json, w: Json)
    requires IsJson(v) && IsWhole(v) && IsJson(w) && IsWhole(w)
    requires Same(v, w)
    ensures Tree(v) == Tree(w)
    decreases v, 1
  {
    match v
    case JArray(xs) =>
      forall i | 0 <= i < |xs| ensures ItemsOf(v)[i] == ItemsOf(w)[i] {
        SameTree(xs[i], w.items[i]);
      }
      assert ItemsOf(v) == ItemsOf(w);
    case JObject(_) => SameObjectTree(v, w);
    case _ =>
  }

  lemma {:induction false} SameObjectTree(v: Json, w: Json)
    requires v.JObject? && w.JObject?
    requires IsJson(v) && IsWhole(v) && IsJson(w) && IsWhole(w)
    requires Same(v, w)
    ensures Tree(v) == Tree(w)
    decreases v, 0
  {
    var ms, ns := v.members, w.members;
    var ks := SortedKeys(ms);
    SameSortedKeys(ms, ns);
    forall j | 0 <= j < |ks| ensures ItemOf(v, ks[j]) == ItemOf(w, ks[j]) {
      assert ks[j] in ks;
      var i := IndexOf(ms, ks[j]);
      SameTree(ms[i].value, ns[IndexOf(ns, ms[i].key)].value);
    }
    assert ItemsOf(v) == ItemsOf(w);
  }

  lemma SameSortedKeys(ms: seq<Member>, ns: seq<Member>)
    requires forall i | 0 <= i < |ms| :: IsText(ms[i].key)
    requires forall i | 0 <= i < |ns| :: IsText(ns[i].key)
    requires Distinct(KeysOf(ms)) && Distinct(KeysOf(ns))
    requires forall i | 0 <= i < |ns| :: HasKey(ms, ns[i].key)
    requires forall i | 0 <= i < |ms| :: HasKey(ns, ms[i].key)
    ensures SortedKeys(ms) == SortedKeys(ns)
  {
    var ks, ls := SortedKeys(ms), SortedKeys(ns);
    SortAscends(KeysOf(ms));
    SortAscends(KeysOf(ns));
    forall k ensures k in ks <==> k in ls {
      SameKeys(ms, ns, k);
    }
    AscendingUnique(ks, ls);
  }

  lemma SameKeys(ms: seq<Member>, ns: seq<Member>, k: Text)
    requires forall i | 0 <= i < |ns| :: HasKey(ms, ns[i].key)
    requires forall i | 0 <= i < |ms| :: HasKey(ns, ms[i].key)
    ensures HasKey(ms, k) <==> HasKey(ns, k)
  {
    if HasKey(ms, k) {
      var i := IndexOf(ms, k);
      assert HasKey(ns, ms[i].key);
    }
    if HasKey(ns, k) {
      var i := IndexOf(ns, k);
      assert HasKey(ms, ns[i].key);
    }
  }

  /** Canonical texts identify values: two are equal exactly when the values are, whatever
      order their members were in. */
  lemma PrintedIsIdentity(v: Json, w: Json)
    requires IsJson(v) && IsWhole(v) && IsJson(w) && IsWhole(w)
    ensures Printed(v) == Printed(w) <==> Same(v, w)
  {
    if Same(v, w) {
      SameTree(v, w);
    }
    if Printed(v) == Printed(w) {
      var p := Policy(Join(PartNeeds(v), PartNeeds(w)), true);
      TreeIsValid(p, v);
      TreeIsValid(p, w);
      JsonUnique.ValueUnique(p, Tree(v), [], Tree(w), []);
      TreeSame(v, w);
    }
  }
}
