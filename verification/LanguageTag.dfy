/** Language tags: the recogniser of crates/rustev-contract/src/descriptor.rs:223-309 against
    the grammar of section 2.1 of RFC 5646, with sections 2.2.5 and 2.2.6. */
module LanguageTag {
  import opened Ascii

  type Text = seq<int>

  const HYPHEN := 0x2D
  const X: Text := [0x78]

  function Of(s: string): Text { seq(|s|, i requires 0 <= i < |s| => s[i] as int) }

  // ------------------------------------------------------------------- grammar

  predicate AllAlpha(t: Text) { forall i | 0 <= i < |t| :: IsAlpha(t[i]) }
  predicate AllDigit(t: Text) { forall i | 0 <= i < |t| :: IsDigit(t[i]) }
  predicate AllAlnum(t: Text) { forall i | 0 <= i < |t| :: IsAlnum(t[i]) }

  predicate SameLetters(s: Text, t: Text) { Lower(s) == Lower(t) }

  // The productions for single subtags.

  predicate Language(t: Text) { 2 <= |t| <= 8 && AllAlpha(t) }
  predicate Extlang(t: Text) { |t| == 3 && AllAlpha(t) }
  predicate Script(t: Text) { |t| == 4 && AllAlpha(t) }
  predicate Region(t: Text) { (|t| == 2 && AllAlpha(t)) || (|t| == 3 && AllDigit(t)) }
  predicate Variant(t: Text) { AllAlnum(t) && (5 <= |t| <= 8 || (|t| == 4 && IsDigit(t[0]))) }
  predicate Singleton(t: Text) { |t| == 1 && AllAlnum(t) && !SameLetters(t, X) }
  predicate ExtensionPart(t: Text) { 2 <= |t| <= 8 && AllAlnum(t) }
  predicate PrivatePart(t: Text) { 1 <= |t| <= 8 && AllAlnum(t) }

  /** `p[a..b]` is a run of extensions: each a singleton and one or more parts. */
  ghost predicate Extensions(p: seq<Text>, a: nat, b: nat)
    requires b <= |p|
    decreases b - a
  {
    a == b || exists w | a + 2 <= w <= b :: Extension(p, a, w) && Extensions(p, w, b)
  }

  predicate Extension(p: seq<Text>, a: nat, b: nat) {
    a < b <= |p| && Singleton(p[a]) && forall k | a < k < b :: ExtensionPart(p[k])
  }

  /** `p[a..]` is `x` and one or more parts. */
  predicate PrivateUse(p: seq<Text>, a: nat) {
    a + 2 <= |p| && SameLetters(p[a], X) && forall k | a < k < |p| :: PrivatePart(p[k])
  }

  /** Where the optional parts of a tag end: its extended languages, script, region, variants
      and extensions. Private use is what remains. */
  datatype Cuts = Cuts(extlang: nat, script: nat, region: nat, variants: nat, extensions: nat)

  ghost predicate Derives(p: seq<Text>, c: Cuts) {
    && 1 <= c.extlang <= c.script <= c.region <= c.variants <= c.extensions <= |p|
    && Language(p[0])
    && (forall k | 1 <= k < c.extlang :: Extlang(p[k]))
    && (c.extlang > 1 ==> |p[0]| <= 3 && c.extlang <= 4)
    && c.script <= c.extlang + 1 && (forall k | c.extlang <= k < c.script :: Script(p[k]))
    && c.region <= c.script + 1 && (forall k | c.script <= k < c.region :: Region(p[k]))
    && (forall k | c.region <= k < c.variants :: Variant(p[k]))
    && Extensions(p, c.variants, c.extensions)
    && (c.extensions == |p| || PrivateUse(p, c.extensions))
  }

  /** No variant is repeated (section 2.2.5), and no singleton (section 2.2.6). */
  predicate Unrepeated(p: seq<Text>, c: Cuts)
    requires c.region <= c.variants <= c.extensions <= |p|
  {
    && (forall i, j | c.region <= i < j < c.variants :: !SameLetters(p[i], p[j]))
    && forall i, j | c.variants <= i < j < c.extensions && |p[i]| == |p[j]| == 1 :: !SameLetters(p[i], p[j])
  }

  ghost predicate Langtag(p: seq<Text>) {
    exists c :: Derives(p, c) && Unrepeated(p, c)
  }

  /** The grandfathered tags, irregular and regular. */
  const IRREGULAR: seq<Text> := [
    Of("en-gb-oed"), Of("i-ami"), Of("i-bnn"), Of("i-default"), Of("i-enochian"), Of("i-hak"), Of("i-klingon"),
    Of("i-lux"), Of("i-mingo"), Of("i-navajo"), Of("i-pwn"), Of("i-tao"), Of("i-tay"), Of("i-tsu"),
    Of("sgn-be-fr"), Of("sgn-be-nl"), Of("sgn-ch-de")]

  const REGULAR: seq<seq<Text>> := [
    [Of("art"), Of("lojban")], [Of("cel"), Of("gaulish")], [Of("no"), Of("bok")], [Of("no"), Of("nyn")],
    [Of("zh"), Of("guoyu")], [Of("zh"), Of("hakka")], [Of("zh"), Of("min")], [Of("zh"), Of("min"), Of("nan")],
    [Of("zh"), Of("xiang")]]

  function Join(p: seq<Text>): Text {
    if p == [] then [] else if |p| == 1 then p[0] else p[0] + [HYPHEN] + Join(p[1..])
  }

  predicate IsRegular(s: Text) { exists i | 0 <= i < |REGULAR| :: Join(REGULAR[i]) == s }

  predicate Grandfathered(s: Text) { s in IRREGULAR || IsRegular(s) }

  /** The tags of the grammar, in any letter case. */
  ghost predicate IsTag(s: Text) {
    || Grandfathered(Lower(s))
    || exists p :: p != [] && Join(p) == s && (Langtag(p) || PrivateUse(p, 0))
  }

  // ------------------------------------------------------------------ splitting

  method Split(s: Text) returns (p: seq<Text>)
    ensures p != [] && Join(p) == s && forall k | 0 <= k < |p| :: HYPHEN !in p[k]
  {
    p := [];
    var part: Text := [];
    for i := 0 to |s|
      invariant HYPHEN !in part && forall k | 0 <= k < |p| :: HYPHEN !in p[k]
      invariant Join(p + [part]) == s[..i]
    {
      if s[i] == HYPHEN {
        JoinMore(p, part, []);
        assert s[..i + 1] == s[..i] + [HYPHEN];
        p := p + [part];
        part := [];
      } else {
        JoinLonger(p, part, s[i]);
        assert s[..i + 1] == s[..i] + [s[i]];
        part := part + [s[i]];
      }
    }
    assert s[..|s|] == s;
    p := p + [part];
  }

  /** The parts of a text between its hyphens. */
  ghost function PartsOf(s: Text): (p: seq<Text>)
    ensures p != [] && Join(p) == s && forall k | 0 <= k < |p| :: HYPHEN !in p[k]
  {
    if s == [] then [[]]
    else
      var p := PartsOf(s[1..]);
      assert s == [s[0]] + s[1..];
      if s[0] == HYPHEN then
        assert ([[]] + p)[1..] == p;
        [[]] + p
      else
        assert ([[s[0]] + p[0]] + p[1..])[1..] == p[1..];
        assert |p| > 1 ==> [s[0]] + (p[0] + [HYPHEN] + Join(p[1..])) == ([s[0]] + p[0]) + [HYPHEN] + Join(p[1..]);
        [[s[0]] + p[0]] + p[1..]
  }

  lemma {:induction false} JoinMore(p: seq<Text>, a: Text, b: Text)
    ensures Join(p + [a] + [b]) == Join(p + [a]) + [HYPHEN] + b
  {
    if p == [] {
      assert [a, b][1..] == [b] && [] + [a] + [b] == [a, b] && [] + [a] == [a];
    } else {
      JoinMore(p[1..], a, b);
      assert (p + [a] + [b])[1..] == p[1..] + [a] + [b] && (p + [a])[1..] == p[1..] + [a];
    }
  }

  lemma {:induction false} JoinLonger(p: seq<Text>, a: Text, c: int)
    ensures Join(p + [a + [c]]) == Join(p + [a]) + [c]
  {
    if p == [] {
      assert [] + [a + [c]] == [a + [c]] && [] + [a] == [a];
    } else {
      JoinLonger(p[1..], a, c);
      assert (p + [a + [c]])[1..] == p[1..] + [a + [c]] && (p + [a])[1..] == p[1..] + [a];
    }
  }

  /** A text splits one way. */
  lemma {:induction false} JoinUnique(p: seq<Text>, q: seq<Text>)
    requires p != [] && q != [] && Join(p) == Join(q)
    requires forall k | 0 <= k < |p| :: HYPHEN !in p[k]
    requires forall k | 0 <= k < |q| :: HYPHEN !in q[k]
    ensures p == q
    decreases |p|
  {
    FirstPart(p);
    FirstPart(q);
    var s := Join(p);
    assert p[0] == q[0] by {
      assert |p[0]| == |q[0]|;
      assert p[0] == s[..|p[0]|] && q[0] == s[..|q[0]|];
    }
    if |p| > 1 {
      assert s[|p[0]| + 1..] == Join(p[1..]) && s[|q[0]| + 1..] == Join(q[1..]);
      JoinUnique(p[1..], q[1..]);
    }
    assert p == [p[0]] + p[1..] && q == [q[0]] + q[1..];
  }

  /** The first part ends at the first hyphen. */
  lemma FirstPart(p: seq<Text>)
    requires p != [] && HYPHEN !in p[0]
    ensures |p[0]| <= |Join(p)| && Join(p)[..|p[0]|] == p[0]
    ensures HYPHEN !in Join(p)[..|p[0]|]
    ensures |p| == 1 <==> |Join(p)| == |p[0]|
    ensures |p| > 1 ==> Join(p)[|p[0]|] == HYPHEN
  {}

  // ------------------------------------------------------------ one way to derive

  lemma FirstOfExtensions(p: seq<Text>, a: nat, b: nat)
    requires a < b <= |p| && Extensions(p, a, b)
    ensures Singleton(p[a])
  {}

  /** What follows each part of a derivation cannot belong to that part: the cursor that takes
      all it can takes just what the derivation has. */
  lemma Following(p: seq<Text>, c: Cuts)
    requires Derives(p, c)
    ensures 1 <= c.extlang <= c.script <= c.region <= c.variants <= c.extensions <= |p|
    ensures c.extlang < |p| ==> !Extlang(p[c.extlang])
    ensures c.script < |p| ==> !Script(p[c.script])
    ensures c.region < |p| ==> !Region(p[c.region])
    ensures c.variants < |p| ==> !Variant(p[c.variants])
    ensures c.extensions < |p| ==> |p[c.extensions]| == 1 && SameLetters(p[c.extensions], X)
  {
    if c.variants < c.extensions {
      FirstOfExtensions(p, c.variants, c.extensions);
    }
    forall k | 0 <= k < |p| && p[k] != [] ensures !(AllAlpha(p[k]) && (AllDigit(p[k]) || IsDigit(p[k][0]))) {
      assert IsAlpha(p[k][0]) ==> !IsDigit(p[k][0]);
    }
  }

  /** A derivation has its cuts in order. */
  lemma InOrder(p: seq<Text>, c: Cuts)
    requires Derives(p, c)
    ensures 1 <= c.extlang <= c.script <= c.region <= c.variants <= c.extensions <= |p|
    ensures forall k | c.region <= k < c.variants :: Variant(p[k])
    ensures Extensions(p, c.variants, c.extensions)
  {}

  /** What a derivation has left to derive from `a` on, when its variants end at `v`. */
  ghost predicate ExtendsFrom(p: seq<Text>, v: nat, a: nat) {
    forall c | Derives(p, c) && c.variants == v :: a <= c.extensions && Extensions(p, a, c.extensions)
  }

  /** The next extension of a derivation ends where its parts do. */
  lemma NextExtension(p: seq<Text>, a: nat, w: nat, b: nat)
    requires a < b <= |p| && Extensions(p, a, b)
    requires a < w <= |p| && forall k | a < k < w :: |p[k]| >= 2
    requires w < |p| ==> |p[w]| < 2
    requires b < |p| ==> |p[b]| < 2
    ensures a + 2 <= w <= b && Extension(p, a, w) && Extensions(p, w, b)
  {
    var u :| a + 2 <= u <= b && Extension(p, a, u) && Extensions(p, u, b);
    if u < b {
      FirstOfExtensions(p, u, b);
    }
    assert u == w;
  }

  lemma {:induction false} ExtensionsAppend(p: seq<Text>, a: nat, b: nat, w: nat)
    requires a <= b <= |p| && Extensions(p, a, b) && b + 2 <= w && Extension(p, b, w)
    ensures Extensions(p, a, w)
    decreases b - a
  {
    if a == b {
      assert Extensions(p, w, w);
    } else {
      var u :| a + 2 <= u <= b && Extension(p, a, u) && Extensions(p, u, b);
      ExtensionsAppend(p, u, b, w);
    }
  }

  // ----------------------------------------------------------------- the cursor

  predicate IsLower(p: seq<Text>) {
    forall k | 0 <= k < |p| :: Lower(p[k]) == p[k]
  }

  lemma LowerSame(s: Text, t: Text)
    ensures Lower(s) == s && Lower(t) == t ==> (SameLetters(s, t) <==> s == t)
  {}

  predicate PartsOk(p: seq<Text>) {
    forall k | 0 <= k < |p| :: 1 <= |p[k]| <= 8 && AllAlnum(p[k])
  }

  method Extlangs(p: seq<Text>) returns (i: nat)
    requires p != []
    ensures 1 <= i <= |p| && (forall k | 1 <= k < i :: Extlang(p[k])) && (i > 1 ==> |p[0]| <= 3 && i <= 4)
    ensures forall c | Derives(p, c) :: c.extlang == i
  {
    i := 1;
    if |p[0]| <= 3 {
      for n := 0 to 3
        invariant 1 <= i <= |p| && i == n + 1 && forall k | 1 <= k < i :: Extlang(p[k])
      {
        if i < |p| && |p[i]| == 3 && AllAlpha(p[i]) {
          i := i + 1;
        } else {
          break;
        }
      }
    }
    forall c | Derives(p, c) ensures c.extlang == i {
      Following(p, c);
    }
  }

  method ScriptAndRegion(p: seq<Text>, e: nat) returns (s: nat, r: nat)
    requires 1 <= e <= |p|
    ensures e <= s <= r <= |p| && s <= e + 1 && r <= s + 1
    ensures (forall k | e <= k < s :: Script(p[k])) && (forall k | s <= k < r :: Region(p[k]))
    ensures forall c | Derives(p, c) && c.extlang == e :: c.script == s && c.region == r
  {
    s := e;
    if s < |p| && |p[s]| == 4 && AllAlpha(p[s]) {
      s := s + 1;
    }
    r := s;
    if r < |p| && ((|p[r]| == 2 && AllAlpha(p[r])) || (|p[r]| == 3 && AllDigit(p[r]))) {
      r := r + 1;
    }
    forall c | Derives(p, c) && c.extlang == e ensures c.script == s && c.region == r {
      Following(p, c);
    }
  }

  method Variants(p: seq<Text>, r: nat) returns (ok: bool, v: nat)
    requires 1 <= r <= |p| && IsLower(p) && PartsOk(p)
    ensures r <= v <= |p|
    ensures ok ==> (forall k | r <= k < v :: Variant(p[k])) && (forall i, j | r <= i < j < v :: !SameLetters(p[i], p[j]))
    ensures ok ==> forall c | Derives(p, c) && c.region == r :: c.variants == v
    ensures !ok ==> forall c | Derives(p, c) && c.region == r :: !Unrepeated(p, c)
  {
    VariantsFrom(p, r);
    hide Derives, SameLetters, Unrepeated;
    var variants: set<Text> := {};
    v := r;
    while v < |p| && (|p[v]| >= 5 || (|p[v]| == 4 && IsDigit(p[v][0])))
      invariant r <= v <= |p| && forall k | r <= k < v :: Variant(p[k]) && p[k] in variants
      invariant forall t | t in variants :: exists k | r <= k < v :: p[k] == t
      invariant forall i, j | r <= i < j < v :: !SameLetters(p[i], p[j])
      invariant forall c | Derives(p, c) && c.region == r :: v <= c.variants
    {
      if p[v] in variants {
        var k :| r <= k < v && p[k] == p[v];
        LowerSame(p[k], p[v]);
        Repeats(p, r, k, v);
        return false, v;
      }
      forall k | r <= k < v ensures !SameLetters(p[k], p[v]) {
        LowerSame(p[k], p[v]);
      }
      variants := variants + {p[v]};
      v := v + 1;
    }
    return true, v;
  }

  lemma VariantsFrom(p: seq<Text>, r: nat)
    ensures forall c | Derives(p, c) && c.region == r ::
              && r <= c.variants <= |p|
              && (forall k | r <= k < c.variants :: Variant(p[k]))
              && (c.variants < |p| ==> !Variant(p[c.variants]))
  {
    forall c | Derives(p, c) && c.region == r
      ensures r <= c.variants <= |p|
      ensures forall k | r <= k < c.variants :: Variant(p[k])
      ensures c.variants < |p| ==> !Variant(p[c.variants])
    {
      Following(p, c);
      InOrder(p, c);
    }
  }

  lemma Repeats(p: seq<Text>, r: nat, j: nat, k: nat)
    requires r <= j < k < |p| && SameLetters(p[j], p[k])
    requires forall c | Derives(p, c) && c.region == r :: k < c.variants
    ensures forall c | Derives(p, c) && c.region == r :: !Unrepeated(p, c)
  {
    hide SameLetters;
  }

  lemma RepeatsSingleton(p: seq<Text>, v: nat, j: nat, k: nat)
    requires v <= j < k < |p| && SameLetters(p[j], p[k]) && |p[j]| == |p[k]| == 1
    requires forall c | Derives(p, c) && c.variants == v :: k < c.extensions
    ensures forall c | Derives(p, c) && c.variants == v :: !Unrepeated(p, c)
  {
    hide SameLetters;
  }

  method ExtensionEnd(p: seq<Text>, i: nat) returns (w: nat)
    requires i < |p|
    ensures i < w <= |p| && (forall k | i < k < w :: |p[k]| >= 2) && (w < |p| ==> |p[w]| < 2)
  {
    w := i + 1;
    while w < |p| && |p[w]| >= 2
      invariant i < w <= |p| && forall k | i < k < w :: |p[k]| >= 2
    {
      w := w + 1;
    }
  }

  /** The singletons in `p[v..i]`, of which no two are the same. */
  ghost predicate Seen(p: seq<Text>, v: nat, i: nat, singletons: set<Text>)
    requires i <= |p|
  {
    && (forall k | v <= k < i && |p[k]| == 1 :: p[k] in singletons)
    && (forall t | t in singletons :: exists k | v <= k < i :: p[k] == t && |t| == 1)
    && (forall j, k | v <= j < k < i && |p[j]| == |p[k]| == 1 :: !SameLetters(p[j], p[k]))
  }

  lemma SeeNext(p: seq<Text>, v: nat, i: nat, w: nat, singletons: set<Text>)
    requires v <= i < w <= |p| && IsLower(p) && Seen(p, v, i, singletons)
    requires p[i] !in singletons && |p[i]| == 1 && forall k | i < k < w :: |p[k]| >= 2
    ensures Seen(p, v, w, singletons + {p[i]})
  {
    forall k | v <= k < i && |p[k]| == 1 ensures !SameLetters(p[k], p[i]) {
      LowerSame(p[k], p[i]);
    }
    hide SameLetters;
  }

  lemma SeenBefore(p: seq<Text>, v: nat, i: nat, singletons: set<Text>)
    requires v <= i < |p| && Seen(p, v, i, singletons) && p[i] in singletons
    requires forall c | Derives(p, c) && c.variants == v :: i < c.extensions
    ensures forall c | Derives(p, c) && c.variants == v :: !Unrepeated(p, c)
  {
    var k :| v <= k < i && p[k] == p[i] && |p[k]| == 1;
    assert SameLetters(p[k], p[i]);
    RepeatsSingleton(p, v, k, i);
  }

  method TagExtensions(p: seq<Text>, v: nat) returns (ok: bool, x: nat)
    requires 1 <= v <= |p| && IsLower(p) && PartsOk(p)
    ensures v <= x <= |p|
    ensures ok ==> Extensions(p, v, x) && forall i, j | v <= i < j < x && |p[i]| == |p[j]| == 1 :: !SameLetters(p[i], p[j])
    ensures ok ==> forall c | Derives(p, c) && c.variants == v :: c.extensions == x
    ensures !ok ==> forall c | Derives(p, c) && c.variants == v :: !Unrepeated(p, c)
  {
    var singletons: set<Text> := {};
    var i := v;
    ExtendsAll(p, v);
    assert Seen(p, v, v, {});
    while i < |p| && |p[i]| == 1 && p[i] != X
      invariant v <= i <= |p| && Extensions(p, v, i) && ExtendsFrom(p, v, i) && Seen(p, v, i, singletons)
    {
      hide Derives, SameLetters, Unrepeated, Seen, Extensions, ExtendsFrom;
      NotYet(p, v, i);
      if p[i] in singletons {
        SeenBefore(p, v, i, singletons);
        return false, i;
      }
      var w := ExtensionEnd(p, i);
      ExtendsPast(p, v, i, w);
      if w == i + 1 {
        return false, i;
      }
      LowerSame(p[i], X);
      ExtensionsAppend(p, v, i, w);
      SeeNext(p, v, i, w, singletons);
      singletons := singletons + {p[i]};
      i := w;
    }
    hide Derives, SameLetters, Unrepeated;
    EndsHere(p, v, i);
    return true, i;
  }

  lemma ExtendsAll(p: seq<Text>, v: nat)
    requires v <= |p|
    ensures ExtendsFrom(p, v, v) && Extensions(p, v, v)
  {}

  /** A singleton cannot come after a derivation's extensions. */
  lemma NotYet(p: seq<Text>, v: nat, i: nat)
    requires ExtendsFrom(p, v, i) && i < |p| && |p[i]| == 1 && p[i] != X && Lower(p[i]) == p[i]
    ensures forall c | Derives(p, c) && c.variants == v :: i < c.extensions
  {
    hide Derives;
    forall c | Derives(p, c) && c.variants == v ensures i < c.extensions {
      Following(p, c);
    }
  }

  /** Where no singleton comes, a derivation's extensions end. */
  lemma EndsHere(p: seq<Text>, v: nat, i: nat)
    requires ExtendsFrom(p, v, i) && i <= |p| && (i < |p| && |p[i]| == 1 ==> p[i] == X)
    ensures forall c | Derives(p, c) && c.variants == v :: c.extensions == i
  {
    hide Derives;
    forall c | Derives(p, c) && c.variants == v ensures c.extensions == i {
      InOrder(p, c);
      if i < c.extensions {
        FirstOfExtensions(p, i, c.extensions);
      }
    }
  }

  lemma ExtendsPast(p: seq<Text>, v: nat, i: nat, w: nat)
    requires ExtendsFrom(p, v, i) && forall c | Derives(p, c) && c.variants == v :: i < c.extensions
    requires i < w <= |p| && (forall k | i < k < w :: |p[k]| >= 2) && (w < |p| ==> |p[w]| < 2)
    ensures ExtendsFrom(p, v, w)
    ensures forall c | Derives(p, c) && c.variants == v :: i + 2 <= w && Extension(p, i, w)
  {
    hide Derives;
    forall c | Derives(p, c) && c.variants == v
      ensures i + 2 <= w <= c.extensions <= |p| && Extension(p, i, w) && Extensions(p, w, c.extensions)
    {
      Following(p, c);
      NextExtension(p, i, w, c.extensions);
    }
  }

  /** Accepts the subtags of a language tag or of private use, and no others. */
  method Recognise(p: seq<Text>) returns (ok: bool)
    requires p != [] && IsLower(p)
    ensures ok <==> Langtag(p) || PrivateUse(p, 0)
  {
    AllPartsOk(p);
    FirstPartOf(p);
    hide Derives, SameLetters, Langtag, Extensions;
    if exists k | 0 <= k < |p| :: p[k] == [] || |p[k]| > 8 || !AllAlnum(p[k]) {
      return false;
    }
    LowerSame(p[0], X);
    if p[0] == X {
      return |p| > 1;
    }
    if !(2 <= |p[0]| <= 8) || !AllAlpha(p[0]) {
      return false;
    }
    var e := Extlangs(p);
    var s, r := ScriptAndRegion(p, e);
    var fine, v := Variants(p, r);
    var x := v;
    if fine {
      fine, x := TagExtensions(p, v);
    }
    var c := Cuts(e, s, r, v, x);
    if !fine {
      NoneUnrepeated(p);
      return false;
    }
    if x < |p| && p[x] == X {
      ok := x + 1 < |p|;
    } else {
      ok := x == |p|;
    }
    Concludes(p, c);
    if x < |p| {
      LowerSame(p[x], X);
    }
  }

  lemma NoneUnrepeated(p: seq<Text>)
    requires forall c | Derives(p, c) :: !Unrepeated(p, c)
    ensures !Langtag(p)
  {}

  lemma FirstPartOf(p: seq<Text>)
    requires p != []
    ensures Langtag(p) ==> Language(p[0])
    ensures PrivateUse(p, 0) <==> |p| > 1 && SameLetters(p[0], X) && forall k | 1 <= k < |p| :: PrivatePart(p[k])
  {}

  /** The cursor's stops make a derivation unless what remains is not private use. */
  lemma Concludes(p: seq<Text>, c: Cuts)
    requires forall d | Derives(p, d) :: d == c
    requires 1 <= c.extlang <= c.script <= c.region <= c.variants <= c.extensions <= |p|
    requires Language(p[0]) && (c.extlang > 1 ==> |p[0]| <= 3 && c.extlang <= 4)
    requires c.script <= c.extlang + 1 && c.region <= c.script + 1
    requires (forall k | 1 <= k < c.extlang :: Extlang(p[k])) && (forall k | c.extlang <= k < c.script :: Script(p[k]))
    requires (forall k | c.script <= k < c.region :: Region(p[k])) && (forall k | c.region <= k < c.variants :: Variant(p[k]))
    requires Extensions(p, c.variants, c.extensions) && Unrepeated(p, c)
    ensures Langtag(p) <==> c.extensions == |p| || PrivateUse(p, c.extensions)
  {
    hide Extensions, Unrepeated;
  }

  /** Every subtag of a tag is one to eight letters and digits. */
  lemma AllPartsOk(p: seq<Text>)
    requires p != []
    ensures Langtag(p) || PrivateUse(p, 0) ==> PartsOk(p)
  {
    forall c | Derives(p, c) ensures PartsOk(p) {
      forall k | 0 <= k < |p| ensures 1 <= |p[k]| <= 8 && AllAlnum(p[k]) {
        if c.variants <= k < c.extensions {
          ExtensionPartsOk(p, c.variants, c.extensions, k);
        }
      }
    }
  }

  lemma {:induction false} ExtensionPartsOk(p: seq<Text>, a: nat, b: nat, k: nat)
    requires a <= k < b <= |p| && Extensions(p, a, b)
    ensures 1 <= |p[k]| <= 8 && AllAlnum(p[k])
    decreases b - a
  {
    var w :| a + 2 <= w <= b && Extension(p, a, w) && Extensions(p, w, b);
    if k >= w {
      ExtensionPartsOk(p, w, b, k);
    }
  }

  // ------------------------------------------------------------------ letter case

  function LowerAll(p: seq<Text>): (r: seq<Text>)
    ensures |r| == |p| && forall k | 0 <= k < |p| :: r[k] == Lower(p[k])
  {
    seq(|p|, k requires 0 <= k < |p| => Lower(p[k]))
  }

  lemma LowerTwice(t: Text)
    ensures Lower(Lower(t)) == Lower(t)
  {}

  lemma LowerKinds(t: Text)
    ensures AllAlpha(Lower(t)) <==> AllAlpha(t)
    ensures AllDigit(Lower(t)) <==> AllDigit(t)
    ensures AllAlnum(Lower(t)) <==> AllAlnum(t)
    ensures t != [] ==> (IsDigit(Lower(t)[0]) <==> IsDigit(t[0]))
    ensures forall u :: SameLetters(Lower(t), u) <==> SameLetters(t, u)
  {
    var u := Lower(t);
    LowerTwice(t);
    assert forall i | 0 <= i < |t| ::
        (IsAlpha(u[i]) <==> IsAlpha(t[i])) && (IsDigit(u[i]) <==> IsDigit(t[i])) && (IsAlnum(u[i]) <==> IsAlnum(t[i]));
    assert forall i | 0 <= i < |t| :: u[i] == Fold(t[i]);
    if AllAlpha(u) {
      forall i | 0 <= i < |t| ensures IsAlpha(t[i]) { assert IsAlpha(u[i]); }
    }
    if AllDigit(u) {
      forall i | 0 <= i < |t| ensures IsDigit(t[i]) { assert IsDigit(u[i]); }
    }
    if AllAlnum(u) {
      forall i | 0 <= i < |t| ensures IsAlnum(t[i]) { assert IsAlnum(u[i]); }
    }
  }

  lemma AllLowerKinds(p: seq<Text>)
    ensures forall k | 0 <= k < |p| ::
              var t, u := p[k], LowerAll(p)[k];
              && |u| == |t|
              && (AllAlpha(u) <==> AllAlpha(t)) && (AllDigit(u) <==> AllDigit(t)) && (AllAlnum(u) <==> AllAlnum(t))
              && (t != [] ==> (IsDigit(u[0]) <==> IsDigit(t[0])))
              && forall s :: SameLetters(u, s) <==> SameLetters(t, s)
  {
    hide AllAlpha, AllDigit, AllAlnum, SameLetters, IsDigit;
    forall k | 0 <= k < |p|
      ensures var t, u := p[k], LowerAll(p)[k];
        && |u| == |t|
        && (AllAlpha(u) <==> AllAlpha(t)) && (AllDigit(u) <==> AllDigit(t)) && (AllAlnum(u) <==> AllAlnum(t))
        && (t != [] ==> (IsDigit(u[0]) <==> IsDigit(t[0])))
        && forall s :: SameLetters(u, s) <==> SameLetters(t, s)
    {
      LowerKinds(p[k]);
    }
  }

  lemma {:induction false} LowerExtensions(p: seq<Text>, a: nat, b: nat)
    requires b <= |p|
    ensures Extensions(LowerAll(p), a, b) <==> Extensions(p, a, b)
    decreases b - a
  {
    var q := LowerAll(p);
    AllLowerKinds(p);
    hide AllAlpha, AllDigit, AllAlnum, SameLetters, IsDigit;
    forall w | a + 2 <= w <= b
      ensures Extension(q, a, w) <==> Extension(p, a, w)
      ensures Extensions(q, w, b) <==> Extensions(p, w, b)
    {
      LowerExtensions(p, w, b);
    }
  }

  /** Letter case does not matter to a derivation. */
  lemma LowerDerives(p: seq<Text>, c: Cuts)
    ensures Derives(LowerAll(p), c) <==> Derives(p, c)
    ensures PrivateUse(LowerAll(p), 0) <==> PrivateUse(p, 0)
  {
    AllLowerKinds(p);
    hide AllAlpha, AllDigit, AllAlnum, SameLetters, IsDigit, Extensions;
    if c.extensions <= |p| {
      LowerExtensions(p, c.variants, c.extensions);
    }
  }

  lemma LowerUnrepeated(p: seq<Text>, c: Cuts)
    requires c.region <= c.variants <= c.extensions <= |p|
    ensures Unrepeated(LowerAll(p), c) <==> Unrepeated(p, c)
  {
    var q := LowerAll(p);
    forall i, j | 0 <= i < |p| && 0 <= j < |p|
      ensures SameLetters(q[i], q[j]) <==> SameLetters(p[i], p[j])
    {
      LowerTwice(p[i]);
      LowerTwice(p[j]);
    }
    hide SameLetters;
  }

  lemma LowerLangtag(p: seq<Text>)
    ensures Langtag(LowerAll(p)) <==> Langtag(p)
  {
    forall c ensures Derives(LowerAll(p), c) <==> Derives(p, c) {
      LowerDerives(p, c);
    }
    forall c | Derives(p, c) ensures Unrepeated(LowerAll(p), c) <==> Unrepeated(p, c) {
      LowerUnrepeated(p, c);
    }
  }

  lemma {:induction false} JoinLower(p: seq<Text>)
    ensures Join(LowerAll(p)) == Lower(Join(p))
  {
    if |p| > 1 {
      JoinLower(p[1..]);
      assert LowerAll(p)[1..] == LowerAll(p[1..]);
    }
  }

  lemma LowerHyphens(p: seq<Text>)
    requires forall k | 0 <= k < |p| :: HYPHEN !in p[k]
    ensures forall k | 0 <= k < |p| :: HYPHEN !in LowerAll(p)[k]
  {
    forall k | 0 <= k < |p| ensures HYPHEN !in LowerAll(p)[k] {
      assert forall i | 0 <= i < |p[k]| :: p[k][i] != HYPHEN;
    }
  }

  lemma NoHyphens(p: seq<Text>)
    requires p != [] && (Langtag(p) || PrivateUse(p, 0))
    ensures forall k | 0 <= k < |p| :: HYPHEN !in p[k]
  {
    AllPartsOk(p);
    assert forall k, i | 0 <= k < |p| && 0 <= i < |p[k]| :: IsAlnum(p[k][i]);
  }

  /** The subtags of a text, lower-cased, decide whether it is a tag. */
  lemma DecidedByParts(s: Text, p: seq<Text>, q: seq<Text>)
    requires p != [] && Join(p) == s && forall k | 0 <= k < |p| :: HYPHEN !in p[k]
    requires q != [] && Join(q) == Lower(s) && forall k | 0 <= k < |q| :: HYPHEN !in q[k]
    ensures q == LowerAll(p) && IsLower(q)
    ensures IsTag(s) <==> Grandfathered(Lower(s)) || Langtag(q) || PrivateUse(q, 0)
  {
    hide Grandfathered;
    JoinLower(p);
    LowerHyphens(p);
    JoinUnique(q, LowerAll(p));
    forall k | 0 <= k < |p| ensures Lower(q[k]) == q[k] {
      LowerTwice(p[k]);
    }
    LowerLangtag(p);
    LowerDerives(p, Cuts(0, 0, 0, 0, 0));
    hide Langtag, PrivateUse, Join;
    forall r | r != [] && Join(r) == s && (Langtag(r) || PrivateUse(r, 0)) ensures r == p {
      NoHyphens(r);
      JoinUnique(r, p);
    }
  }

  /** A language with an extended language or a variant, or with two extended languages. */
  predicate RegularShape(p: seq<Text>) {
    && 2 <= |p| <= 3
    && Language(p[0]) && |p[0]| <= 3
    && (Extlang(p[1]) || (|p| == 2 && Variant(p[1])))
    && (|p| == 3 ==> Extlang(p[2]))
  }

  lemma RegularShapes(i: nat)
    requires i < |REGULAR|
    ensures RegularShape(REGULAR[i])
  {
    match i
    case 0 =>
    case 1 =>
    case 2 =>
    case 3 =>
    case 4 =>
    case 5 =>
    case 6 =>
    case 7 =>
    case 8 =>
  }

  lemma ShapeIsLangtag(p: seq<Text>)
    requires RegularShape(p)
    ensures Langtag(p)
  {
    var c := if |p| == 3 then Cuts(3, 3, 3, 3, 3) else if Extlang(p[1]) then Cuts(2, 2, 2, 2, 2) else Cuts(1, 1, 1, 2, 2);
    assert Derives(p, c) && Unrepeated(p, c);
  }

  /** The regular grandfathered tags are language tags of the grammar. */
  lemma RegularIsLangtag(s: Text, q: seq<Text>)
    requires IsRegular(s) && q != [] && Join(q) == s && forall k | 0 <= k < |q| :: HYPHEN !in q[k]
    ensures Langtag(q)
  {
    hide Langtag, Join, RegularShape;
    var i :| 0 <= i < |REGULAR| && Join(REGULAR[i]) == s;
    RegularShapes(i);
    ShapeIsLangtag(REGULAR[i]);
    NoHyphens(REGULAR[i]);
    JoinUnique(REGULAR[i], q);
  }

  /** The recogniser accepts the tags of the grammar and no other text. */
  method Accepts(s: Text) returns (ok: bool)
    ensures ok <==> IsTag(s)
  {
    var lower := Lower(s);
    if lower in IRREGULAR {
      return true;
    }
    var parts := Split(lower);
    DecidedByParts(s, PartsOf(s), parts);
    if IsRegular(lower) {
      RegularIsLangtag(lower, parts);
    }
    ok := Recognise(parts);
  }

  /** Letter case does not matter to a tag. */
  lemma CaseIndependent(s: Text, t: Text)
    requires SameLetters(s, t)
    ensures IsTag(s) <==> IsTag(t)
  {
    var q := PartsOf(Lower(s));
    DecidedByParts(s, PartsOf(s), q);
    DecidedByParts(t, PartsOf(t), q);
  }
}
