/** Paths into a JSON value, as the canonical writer reports them, and as RFC 6901 reads a JSON
    pointer (crates/rustev-contract/src/canonical.rs:25-48, 160-208). */
module JsonPath {
  import opened Wrappers
  import opened JsonGrammar
  import opened Canonical
  import Digits

  const SLASH := 0x2F
  const TILDE := 0x7E

  datatype Crumb = Index(i: nat) | Name(key: Text)

  /** The value a path leads to. */
  function Lookup(v: Json, path: seq<Crumb>): Option<Json> {
    if path == [] then Some(v)
    else match (v, path[0])
      case (JArray(items), Index(i)) => if i < |items| then Lookup(items[i], path[1..]) else None
      case (JObject(ms), Name(k)) => if HasKey(ms, k) then Lookup(ms[IndexOf(ms, k)].value, path[1..]) else None
      case _ => None
  }

  /** An index in digits, or a name. */
  function Token(c: Crumb): Text {
    if c.Index? then Digits.OfNat(c.i) else c.key
  }

  function Tokens(path: seq<Crumb>): (ts: seq<Text>)
    ensures |ts| == |path| && forall k | 0 <= k < |path| :: ts[k] == Token(path[k])
  {
    seq(|path|, k requires 0 <= k < |path| => Token(path[k]))
  }

  function Step(c: Crumb): Text { [SLASH] + Token(c) }

  /** The path as the writer reports it: it escapes nothing. */
  function Render(path: seq<Crumb>): Text {
    if path == [] then [] else Step(path[0]) + Render(path[1..])
  }

  // ------------------------------------------------------------------- pointers

  /** The parts of a text between its slashes. */
  function Parts(s: Text): (p: seq<Text>)
    ensures p != []
  {
    if s == [] then [[]]
    else
      var p := Parts(s[1..]);
      if s[0] == SLASH then [[]] + p else [[s[0]] + p[0]] + p[1..]
  }

  /** `~1` stands for a slash and `~0` for a tilde (RFC 6901, section 4). */
  function Unescape(t: Text): Option<Text> {
    if t == [] then Some([])
    else if t[0] != TILDE then
      match Unescape(t[1..])
      case None => None
      case Some(u) => Some([t[0]] + u)
    else if |t| > 1 && (t[1] == 0x30 || t[1] == 0x31) then
      match Unescape(t[2..])
      case None => None
      case Some(u) => Some([if t[1] == 0x30 then TILDE else SLASH] + u)
    else None
  }

  function UnescapeAll(ts: seq<Text>): Option<seq<Text>> {
    if ts == [] then Some([])
    else
      match (Unescape(ts[0]), UnescapeAll(ts[1..]))
      case (Some(u), Some(us)) => Some([u] + us)
      case _ => None
  }

  /** The reference tokens of a JSON pointer, if the text is one (RFC 6901, section 3). */
  function Pointer(s: Text): Option<seq<Text>> {
    if s == [] then Some([])
    else if s[0] != SLASH then None
    else UnescapeAll(Parts(s[1..]))
  }

  /** No name of the path has a slash or a tilde in it. */
  predicate Unambiguous(path: seq<Crumb>) {
    forall k | 0 <= k < |path| && path[k].Name? :: SLASH !in path[k].key && TILDE !in path[k].key
  }

  predicate NoSlashes(path: seq<Crumb>) {
    forall k | 0 <= k < |path| :: SLASH !in Token(path[k])
  }

  lemma IndexIsPlain(i: nat)
    ensures SLASH !in Digits.OfNat(i) && TILDE !in Digits.OfNat(i)
  {}

  /** A part without slashes comes off whole. */
  lemma {:induction false} FirstPart(a: Text, s: Text)
    requires SLASH !in a
    ensures Parts(a) == [a] && Parts(a + [SLASH] + s) == [a] + Parts(s)
  {
    if a == [] {
      assert [] + [SLASH] + s == [SLASH] + s && ([SLASH] + s)[1..] == s;
    } else {
      assert forall k | 0 <= k < |a[1..]| :: a[1..][k] == a[k + 1];
      FirstPart(a[1..], s);
      assert (a + [SLASH] + s)[1..] == a[1..] + [SLASH] + s;
      assert [a[0]] + a[1..] == a;
    }
  }

  /** Without slashes in its tokens, a rendered path splits into them. */
  lemma {:induction false} RenderedParts(path: seq<Crumb>)
    requires path != [] && NoSlashes(path)
    ensures Render(path)[0] == SLASH && Parts(Render(path)[1..]) == Tokens(path)
  {
    hide Parts, Token;
    var t, rest := Token(path[0]), path[1..];
    FirstToken(path);
    FirstStep(path);
    assert Tokens([]) == [] && SLASH !in t;
    assert NoSlashes(rest) by {
      assert forall k | 0 <= k < |rest| :: rest[k] == path[k + 1];
    }
    hide NoSlashes, Tokens, Render;
    if rest == [] {
      FirstPart(t, []);
      assert t + [] == t;
    } else {
      RenderedParts(rest);
      PartThen(t, Render(rest));
    }
  }

  lemma FirstToken(path: seq<Crumb>)
    requires path != []
    ensures Tokens(path) == [Token(path[0])] + Tokens(path[1..])
  {
    hide Token;
  }

  lemma FirstStep(path: seq<Crumb>)
    requires path != []
    ensures Render(path)[0] == SLASH && Render(path)[1..] == Token(path[0]) + Render(path[1..])
    ensures if path[1..] == [] then Render(path[1..]) == [] else Render(path[1..]) != []
  {
    hide Token;
    var t, r := Token(path[0]), Render(path[1..]);
    assert Render(path) == [SLASH] + t + r;
    assert ([SLASH] + t + r)[1..] == t + r;
  }

  lemma PartThen(t: Text, s: Text)
    requires SLASH !in t && s != [] && s[0] == SLASH
    ensures Parts(t + s) == [t] + Parts(s[1..])
  {
    hide Parts;
    assert t + s == t + [SLASH] + s[1..];
    FirstPart(t, s[1..]);
  }

  function Slashes(s: Text): nat { if s == [] then 0 else (if s[0] == SLASH then 1 else 0) + Slashes(s[1..]) }

  lemma {:induction false} PartsCount(s: Text)
    ensures |Parts(s)| == 1 + Slashes(s)
  {
    if s != [] {
      PartsCount(s[1..]);
    }
  }

  lemma {:induction false} SlashesApart(a: Text, b: Text)
    ensures Slashes(a + b) == Slashes(a) + Slashes(b)
    ensures SLASH in a <==> Slashes(a) > 0
  {
    if a == [] {
      assert a + b == b;
    } else {
      assert (a + b)[1..] == a[1..] + b;
      assert a == [a[0]] + a[1..];
      SlashesApart(a[1..], b);
    }
  }

  /** A slash in a name makes a token too many. */
  lemma {:induction false} RenderedSlashes(path: seq<Crumb>)
    ensures Slashes(Render(path)) >= |path|
    ensures Slashes(Render(path)) == |path| <==> NoSlashes(path)
  {
    if path != [] {
      var t, rest := Token(path[0]), path[1..];
      assert forall k | 0 <= k < |rest| :: rest[k] == path[k + 1];
      RenderedSlashes(rest);
      SlashesApart(Step(path[0]), Render(rest));
      assert ([SLASH] + t)[1..] == t;
      SlashesApart(t, []);
    }
  }

  lemma {:induction false} UnescapePlain(t: Text)
    ensures Unescape(t).Some? ==> |Unescape(t).value| <= |t|
    ensures Unescape(t) == Some(t) <==> TILDE !in t
  {
    if t != [] {
      assert t == [t[0]] + t[1..];
      if t[0] != TILDE {
        UnescapePlain(t[1..]);
      } else if |t| > 1 && (t[1] == 0x30 || t[1] == 0x31) {
        UnescapePlain(t[2..]);
      }
    }
  }

  lemma {:induction false} UnescapeAllCount(ts: seq<Text>)
    ensures UnescapeAll(ts).Some? ==> |UnescapeAll(ts).value| == |ts|
    ensures UnescapeAll(ts) == Some(ts) <==> forall k | 0 <= k < |ts| :: TILDE !in ts[k]
  {
    if ts != [] {
      UnescapePlain(ts[0]);
      UnescapeAllCount(ts[1..]);
      assert ts == [ts[0]] + ts[1..];
      assert forall k | 0 <= k < |ts[1..]| :: ts[1..][k] == ts[k + 1];
    }
  }

  /** A rendered path reads as a pointer to where it leads exactly when no name on it has a slash
      or a tilde. */
  lemma RenderedPointer(path: seq<Crumb>)
    ensures Pointer(Render(path)) == Some(Tokens(path)) <==> Unambiguous(path)
  {
    assert Tokens([]) == [];
    if path != [] {
      var s := Render(path);
      assert s == [SLASH] + s[1..];
      RenderedSlashes(path);
      PartsCount(s[1..]);
      UnescapeAllCount(Parts(s[1..]));
      forall k | 0 <= k < |path| && path[k].Index? ensures SLASH !in Token(path[k]) && TILDE !in Token(path[k]) {
        IndexIsPlain(path[k].i);
      }
      if NoSlashes(path) {
        RenderedParts(path);
      }
    }
  }

  /** The path that is reported for a fraction found by following `path` from the root. */
  function Reported(path: seq<Crumb>): Text { if path == [] then [SLASH] else Render(path) }

  /** The reported path is a JSON pointer to the fraction exactly when the fraction is not the
      whole value, and no name on the way to it has a slash or a tilde. */
  lemma ReportedPointer(path: seq<Crumb>)
    ensures Pointer(Reported(path)) == Some(Tokens(path)) <==> path != [] && Unambiguous(path)
  {
    if path == [] {
      assert [SLASH][1..] == [];
      assert UnescapeAll([[]]) == Some([[]]) by {
        UnescapeAllCount([[]]);
      }
    } else {
      RenderedPointer(path);
    }
  }

  /** One report for two values: a fraction under the name `a/b`, and one under `b` under `a`. */
  lemma SlashMisleads()
    ensures var a, b := [0x61], [0x62];
      var flat := JObject([Member(a + [SLASH] + b, JFloat)]);
      var deep := JObject([Member(a, JObject([Member(b, JFloat)]))]);
      && Lookup(flat, [Name(a + [SLASH] + b)]) == Some(JFloat)
      && Lookup(deep, [Name(a), Name(b)]) == Some(JFloat)
      && Reported([Name(a + [SLASH] + b)]) == Reported([Name(a), Name(b)])
      && Pointer(Reported([Name(a + [SLASH] + b)])) == Some([a, b])
      && Lookup(flat, [Name(a), Name(b)]).None?
  {
    var a, b := [0x61], [0x62];
    var flat := [Member(a + [SLASH] + b, JFloat)];
    var deep, inner := [Member(a, JObject([Member(b, JFloat)]))], [Member(b, JFloat)];
    assert HasKey(flat, a + [SLASH] + b) by { assert flat[0].key == a + [SLASH] + b; }
    assert HasKey(deep, a) by { assert deep[0].key == a; }
    assert HasKey(inner, b) by { assert inner[0].key == b; }
    var path := [Name(a), Name(b)];
    assert path[1..] == [Name(b)] && [Name(b)][1..] == [] && [Name(a + [SLASH] + b)][1..] == [];
    assert Render([Name(b)]) == [SLASH] + b;
    assert Render(path) == [SLASH] + a + [SLASH] + b;
    assert Render([Name(a + [SLASH] + b)]) == [SLASH] + a + [SLASH] + b;
    RenderedPointer(path);
    assert Tokens(path) == [a, b];
  }
}
