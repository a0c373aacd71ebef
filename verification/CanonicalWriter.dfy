/** The writer of canonical bytes: it appends to one buffer and keeps the path of the value it
    is in, to name a number it has to refuse (crates/rustev-contract/src/canonical.rs). */
module CanonicalWriter {
  import opened Wrappers
  import opened JsonGrammar
  import opened JsonText
  import opened Canonical
  import opened CanonicalMeaning
  import opened JsonPath
  import JsonLexing
  import Bounded
  import ScanErrors
  import Digits

  // ---------------------------------------------------------------- spelling

  lemma {:induction false} ValueThen(v: Value, a: Bytes)
    ensures SpellValue(v, a) == SpellValue(v, []) + a
    decreases v
  {
    match v
    case Atom(t) => assert SpellToken(t) + [] == SpellToken(t);
    case Empty(s, gap) =>
      assert [CloseByte(s)] + [] == [CloseByte(s)];
      JsonLexing.Associative([OpenByte(s)], gap + [CloseByte(s)], a);
      JsonLexing.Associative(gap, [CloseByte(s)], a);
    case Full(s, gap, first, rest) =>
      var x := SpellTail(s, rest, []);
      ItemThen(first, SpellTail(s, rest, a));
      ItemThen(first, x);
      TailThen(s, rest, a);
      JsonLexing.Associative(SpellItem(first, []), x, a);
      JsonLexing.Associative(gap, SpellItem(first, x), a);
      JsonLexing.Associative([OpenByte(s)], gap + SpellItem(first, x), a);
  }

  lemma {:induction false} ItemThen(it: Item, a: Bytes)
    ensures SpellItem(it, a) == SpellItem(it, []) + a
    decreases it
  {
    ValueThen(it.value, a);
    match it.head
    case Unlabelled =>
    case Labelled(key, g1, g2) =>
      var v := SpellValue(it.value, []);
      JsonLexing.Associative(g2, v, a);
      JsonLexing.Associative([COLON], g2 + v, a);
      JsonLexing.Associative(g1, [COLON] + (g2 + v), a);
      JsonLexing.Associative(SpellQuoted(key), g1 + ([COLON] + (g2 + v)), a);
  }

  lemma {:induction false} TailThen(s: Shape, t: Tail, a: Bytes)
    ensures SpellTail(s, t, a) == SpellTail(s, t, []) + a
    decreases t
  {
    match t
    case Close(gap) =>
      assert [CloseByte(s)] + [] == [CloseByte(s)];
      JsonLexing.Associative(gap, [CloseByte(s)], a);
    case More(g1, g2, it, rest) =>
      var x := SpellTail(s, rest, []);
      ItemThen(it, SpellTail(s, rest, a));
      ItemThen(it, x);
      TailThen(s, rest, a);
      JsonLexing.Associative(SpellItem(it, []), x, a);
      JsonLexing.Associative(g2, SpellItem(it, x), a);
      JsonLexing.Associative([COMMA], g2 + SpellItem(it, x), a);
      JsonLexing.Associative(g1, [COMMA] + (g2 + SpellItem(it, x)), a);
  }

  /** Members separated by commas. */
  function Joined(its: seq<Item>): Bytes {
    if its == [] then [] else
      var n := |its| - 1;
      Joined(its[..n]) + (if n > 0 then [COMMA] else []) + SpellItem(its[n], [])
  }

  lemma {:induction false} JoinedTail(s: Shape, its: seq<Item>, k: nat)
    requires 0 < k <= |its|
    ensures Joined(its[..k]) + SpellTail(s, TailOf(its[k..]), []) == Joined(its) + [CloseByte(s)]
    decreases |its| - k
  {
    if k == |its| {
      assert its[..k] == its && its[k..] == [];
      assert [] + ([CloseByte(s)] + []) == [CloseByte(s)];
    } else {
      var x := SpellTail(s, TailOf(its[k + 1..]), []);
      TailFrom(s, its, k, x);
      assert its[..k + 1] == its[..k] + [its[k]];
      JoinedStep(its[..k], its[k]);
      JoinedTail(s, its, k + 1);
      Regroup(Joined(its[..k]), [COMMA], SpellItem(its[k], []), x);
    }
  }

  lemma Regroup(a: Bytes, b: Bytes, c: Bytes, d: Bytes)
    ensures a + (b + (c + d)) == (a + b + c) + d
  {}

  lemma TailFrom(s: Shape, its: seq<Item>, k: nat, x: Bytes)
    requires k < |its| && x == SpellTail(s, TailOf(its[k + 1..]), [])
    ensures SpellTail(s, TailOf(its[k..]), []) == [COMMA] + (SpellItem(its[k], []) + x)
  {
    assert its[k..][1..] == its[k + 1..];
    ItemThen(its[k], x);
    assert [] + SpellItem(its[k], x) == SpellItem(its[k], x);
    assert [] + ([COMMA] + SpellItem(its[k], x)) == [COMMA] + SpellItem(its[k], x);
  }

  lemma JoinedStep(its: seq<Item>, next: Item)
    ensures Joined(its + [next]) == Joined(its) + (if its != [] then [COMMA] else []) + SpellItem(next, [])
  {
    assert (its + [next])[..|its|] == its;
  }

  /** The buffer `base` with members `its` written goes on to the next member. */
  lemma BufferStep(base: Bytes, its: seq<Item>, next: Item)
    ensures base + Joined(its + [next])
            == base + Joined(its) + (if its != [] then [COMMA] else []) + SpellItem(next, [])
  {
    JoinedStep(its, next);
    var c := if its != [] then [COMMA] else [];
    assert base + (Joined(its) + c + SpellItem(next, [])) == base + Joined(its) + c + SpellItem(next, []);
  }

  /** A container is its members between its brackets. */
  lemma ContainerSpells(s: Shape, its: seq<Item>)
    ensures SpellValue(ContainerOf(s, its), []) == [OpenByte(s)] + Joined(its) + [CloseByte(s)]
  {
    if its != [] {
      var x := SpellTail(s, TailOf(its[1..]), []);
      ItemThen(its[0], x);
      assert its[..1] == [its[0]] && Joined([]) == [];
      assert Joined(its[..1]) == SpellItem(its[0], []);
      JoinedTail(s, its, 1);
      assert [] + SpellItem(its[0], x) == SpellItem(its[0], x);
    }
  }

  // ----------------------------------------------------------------- refusals

  datatype CanonicalError = FractionalNumber(path: Text)

  datatype Result = Ok | Err(error: CanonicalError)

  /** `r` is the refusal of a fraction, found by following `path` from `v` at `at`. */
  predicate Names(v: Json, at: Text, r: Result, path: seq<Crumb>) {
    && r.Err?
    && Lookup(v, path) == Some(JFloat)
    && var full := at + Render(path);
    r.error.path == if full == [] then [SLASH] else full
  }

  lemma NamesDeeper(v: Json, c: Crumb, w: Json, at: Text, r: Result, path: seq<Crumb>)
    requires Lookup(v, [c]) == Some(w)
    requires Names(w, at + Step(c), r, path)
    ensures Names(v, at, r, [c] + path)
  {
    hide Step;
    assert ([c] + path)[0] == c && ([c] + path)[1..] == path && [c][1..] == [];
    assert at + (Step(c) + Render(path)) == at + Step(c) + Render(path);
  }

  // ----------------------------------------------------------------- writer

  class Writer {
    var out: Bytes
    var path: Text

    constructor ()
      ensures out == [] && path == []
    {
      out, path := [], [];
    }

    method WriteStr(s: Text)
      requires IsText(s)
      modifies this`out
      ensures out == old(out) + SpellQuoted(Chars(s))
    {
      out := out + SpellQuoted(Chars(s));
    }

    /** Appends the canonical text of `v`, or names the fraction that has none. */
    method WriteValue(v: Json) returns (r: Result, ghost to: seq<Crumb>)
      requires IsJson(v)
      modifies this
      ensures r.Ok? <==> IsWhole(v)
      ensures r.Ok? ==> out == old(out) + Printed(v) && path == old(path)
      ensures r.Err? ==> Names(v, old(path), r, to)
      decreases v, 1
    {
      to := [];
      if !(v.JArray? || v.JObject?) {
        r := WriteAtom(v);
        assert old(path) + Render([]) == old(path);
      } else if v.JArray? {
        r, to := WriteArray(v);
      } else {
        r, to := WriteObject(v);
      }
    }

    method WriteAtom(v: Json) returns (r: Result)
      requires IsJson(v) && !v.JArray? && !v.JObject?
      modifies this
      ensures r.Ok? <==> IsWhole(v)
      ensures r.Ok? ==> out == old(out) + Printed(v)
      ensures path == old(path)
      ensures r.Err? ==> r.error.path == if path == [] then [SLASH] else path
    {
      hide SpellQuoted, SpellChars, Chars, Digits.OfNat;
      match v {
      case JNull =>
        out := out + NULL;
      case JBool(b) =>
        out := out + (if b then TRUE else FALSE);
      case JInt(n) =>
        out := out + ((if n < 0 then [MINUS] else []) + Digits.OfNat(if n < 0 then -n else n));
        IntegerPrints(n);
      case JFloat =>
        return Err(FractionalNumber(if path == [] then [SLASH] else path));
      case JString(s) =>
        WriteStr(s);
      }
      return Ok;
    }

    method WriteArray(v: Json) returns (r: Result, ghost to: seq<Crumb>)
      requires IsJson(v) && v.JArray?
      modifies this
      ensures r.Ok? <==> IsWhole(v)
      ensures r.Ok? ==> out == old(out) + Printed(v) && path == old(path)
      ensures r.Err? ==> Names(v, old(path), r, to)
      decreases v, 0, 2
    {
      hide *;
      out := out + [OpenByte(Array)];
      ghost var done;
      r, to, done := WriteElements(v);
      if r.Err? {
        return;
      }
      ElementsAreArray(v, done);
      out := out + [CloseByte(Array)];
      assert out == old(out) + ([OpenByte(Array)] + Joined(done) + [CloseByte(Array)]);
    }

    method WriteElements(v: Json) returns (r: Result, ghost to: seq<Crumb>, ghost done: seq<Item>)
      requires IsJson(v) && v.JArray?
      modifies this
      ensures r.Ok? ==> |done| == |v.items| && WroteElements(v, done) && out == old(out) + Joined(done) && path == old(path)
      ensures r.Err? ==> !IsWhole(v) && Names(v, old(path), r, to)
      decreases v, 0, 1
    {
      hide IsJson, IsWhole, Names, WroteElement, SpellItem;
      done := [];
      var i := 0;
      while i < |v.items|
        invariant 0 <= i == |done| <= |v.items|
        invariant WroteElements(v, done)
        invariant out == old(out) + Joined(done)
        invariant path == old(path)
      {
        if i > 0 {
          out := out + [COMMA];
        }
        ghost var next;
        r, to, next := WriteElement(v, i);
        if r.Err? {
          return;
        }
        BufferStep(old(out), done, next);
        done := done + [next];
        i := i + 1;
      }
      return Ok, [], done;
    }

    method WriteElement(v: Json, i: nat) returns (r: Result, ghost to: seq<Crumb>, ghost next: Item)
      requires IsJson(v) && v.JArray? && i < |v.items|
      modifies this
      ensures r.Ok? ==> WroteElement(v.items[i], next) && out == old(out) + SpellItem(next, []) && path == old(path)
      ensures r.Err? ==> !IsWhole(v) && Names(v, old(path), r, to)
      decreases v, 0, 0
    {
      next := Item(Unlabelled, Atom(Word(NULL)));
      var len := |path|;
      path := path + [SLASH] + Digits.OfNat(i);
      assert path == old(path) + Step(Index(i));
      r, to := WriteValue(v.items[i]);
      if r.Err? {
        NamesDeeper(v, Index(i), v.items[i], old(path), r, to);
        to := [Index(i)] + to;
        return;
      }
      path := path[..len];
      next := Item(Unlabelled, Tree(v.items[i]));
    }

    method WriteObject(v: Json) returns (r: Result, ghost to: seq<Crumb>)
      requires IsJson(v) && v.JObject?
      modifies this
      ensures r.Ok? <==> IsWhole(v)
      ensures r.Ok? ==> out == old(out) + Printed(v) && path == old(path)
      ensures r.Err? ==> Names(v, old(path), r, to)
      decreases v, 0, 2
    {
      hide *;
      out := out + [OpenByte(Object)];
      var keys := KeysInOrder(v);
      ghost var done;
      r, to, done := WriteMembers(v, keys);
      if r.Err? {
        return;
      }
      MembersAreObject(v, done);
      out := out + [CloseByte(Object)];
      assert out == old(out) + ([OpenByte(Object)] + Joined(done) + [CloseByte(Object)]);
    }

    method WriteMembers(v: Json, keys: seq<Text>) returns (r: Result, ghost to: seq<Crumb>, ghost done: seq<Item>)
      requires IsJson(v) && v.JObject? && forall k | k in keys :: HasKey(v.members, k)
      modifies this
      ensures r.Ok? ==> |done| == |keys| && WroteMembers(v, keys, done) && out == old(out) + Joined(done) && path == old(path)
      ensures r.Err? ==> !IsWhole(v) && Names(v, old(path), r, to)
      decreases v, 0, 1
    {
      done := [];
      var i := 0;
      while i < |keys|
        invariant 0 <= i == |done| <= |keys|
        invariant WroteMembers(v, keys, done)
        invariant out == old(out) + Joined(done)
        invariant path == old(path)
      {
        if i > 0 {
          out := out + [COMMA];
        }
        ghost var next;
        r, to, next := WriteMember(v, keys[i]);
        if r.Err? {
          return;
        }
        BufferStep(old(out), done, next);
        MembersStep(v, keys, done, next);
        done := done + [next];
        i := i + 1;
      }
      return Ok, [], done;
    }

    method WriteMember(v: Json, k: Text) returns (r: Result, ghost to: seq<Crumb>, ghost next: Item)
      requires IsJson(v) && v.JObject? && HasKey(v.members, k)
      modifies this
      ensures r.Ok? ==> WroteMember(v, k, next) && out == old(out) + SpellItem(next, []) && path == old(path)
      ensures r.Err? ==> !IsWhole(v) && Names(v, old(path), r, to)
      decreases v, 0, 0
    {
      next := Item(Unlabelled, Atom(Word(NULL)));
      var value := v.members[IndexOf(v.members, k)].value;
      WriteStr(k);
      out := out + [COLON];
      var len := |path|;
      path := path + [SLASH] + k;
      assert path == old(path) + Step(Name(k));
      r, to := WriteValue(value);
      if r.Err? {
        NamesDeeper(v, Name(k), value, old(path), r, to);
        to := [Name(k)] + to;
        return;
      }
      path := path[..len];
      next := Item(Labelled(Chars(k), [], []), Tree(value));
      LabelledSpells(old(out), k, Tree(value));
    }
  }

  lemma IntegerPrints(n: int)
    ensures SpellValue(Atom(Numeral(NumberOf(n))), [])
            == (if n < 0 then [MINUS] else []) + Digits.OfNat(if n < 0 then -n else n)
  {}

  function KeysInOrder(v: Json): (keys: seq<Text>)
    requires IsJson(v) && v.JObject?
    ensures keys == SortedKeys(v.members) && forall k | k in keys :: HasKey(v.members, k)
  { SortedKeys(v.members) }

  predicate WroteElement(x: Json, it: Item) {
    IsJson(x) && IsWhole(x) && it == Item(Unlabelled, Tree(x))
  }

  predicate WroteElements(v: Json, done: seq<Item>)
    requires v.JArray?
  {
    |done| <= |v.items| && forall j | 0 <= j < |done| :: WroteElement(v.items[j], done[j])
  }

  lemma ElementsAreArray(v: Json, done: seq<Item>)
    requires IsJson(v) && v.JArray? && WroteElements(v, done) && |done| == |v.items|
    ensures IsWhole(v) && Printed(v) == [OpenByte(Array)] + Joined(done) + [CloseByte(Array)]
  {
    assert IsWhole(v);
    assert done == ItemsOf(v);
    ContainerSpells(Array, done);
  }

  predicate WroteMember(v: Json, k: Text, it: Item)
    requires v.JObject?
  {
    && HasKey(v.members, k) && IsText(k)
    && var x := v.members[IndexOf(v.members, k)].value;
    && IsJson(x) && IsWhole(x)
    && it == Item(Labelled(Chars(k), [], []), Tree(x))
  }

  predicate WroteMembers(v: Json, keys: seq<Text>, done: seq<Item>)
    requires v.JObject?
  {
    |done| <= |keys| && forall j | 0 <= j < |done| :: WroteMember(v, keys[j], done[j])
  }

  lemma MembersStep(v: Json, keys: seq<Text>, done: seq<Item>, next: Item)
    requires v.JObject? && WroteMembers(v, keys, done) && |done| < |keys|
    requires WroteMember(v, keys[|done|], next)
    ensures WroteMembers(v, keys, done + [next])
  {
    forall j | 0 <= j <= |done| ensures WroteMember(v, keys[j], (done + [next])[j]) {
      if j < |done| {
        assert WroteMember(v, keys[j], done[j]);
      }
    }
  }

  lemma MembersAreObject(v: Json, done: seq<Item>)
    requires IsJson(v) && v.JObject?
    requires |done| == |SortedKeys(v.members)| && WroteMembers(v, SortedKeys(v.members), done)
    ensures IsWhole(v) && Printed(v) == [OpenByte(Object)] + Joined(done) + [CloseByte(Object)]
  {
    var ms, keys := v.members, SortedKeys(v.members);
    forall i | 0 <= i < |ms| ensures IsWhole(ms[i].value) {
      IndexOfItself(ms, i);
      assert ms[i].key in keys;
      var j :| 0 <= j < |keys| && keys[j] == ms[i].key;
      assert WroteMember(v, keys[j], done[j]);
    }
    assert IsWhole(v);
    assert done == ItemsOf(v);
    ContainerSpells(Object, done);
  }

  lemma LabelledSpells(base: Bytes, k: Text, v: Value)
    requires IsText(k)
    ensures base + SpellItem(Item(Labelled(Chars(k), [], []), v), [])
            == base + SpellQuoted(Chars(k)) + [COLON] + SpellValue(v, [])
  {
    hide Chars, SpellQuoted, SpellValue;
    var q, x := SpellQuoted(Chars(k)), SpellValue(v, []);
    assert [] + x == x && [] + ([COLON] + x) == [COLON] + x;
    JsonLexing.Associative(base, q, [COLON] + x);
    JsonLexing.Associative(base + q, [COLON], x);
  }

  /** The canonical bytes of a JSON value: the one canonical text of it. */
  method CanonicalBytes(v: Json) returns (r: Result, out: Bytes)
    requires IsJson(v)
    ensures r.Ok? <==> IsWhole(v)
    ensures r.Ok? ==> out == Printed(v) && forall b :: IsCanonical(b, v) <==> b == out
    ensures r.Err? ==> exists to :: Names(v, [], r, to)
                                    && (Pointer(r.error.path) == Some(Tokens(to)) <==> to != [] && Unambiguous(to))
  {
    var w := new Writer();
    ghost var to;
    r, to := w.WriteValue(v);
    out := w.out;
    if r.Ok? {
      assert [] + Printed(v) == Printed(v);
      forall b ensures IsCanonical(b, v) <==> b == out { PrintedIsCanonical(v, b); }
    } else {
      NamedIsReported(v, r, to);
      ReportedPointer(to);
    }
  }

  lemma NamedIsReported(v: Json, r: Result, to: seq<Crumb>)
    requires Names(v, [], r, to)
    ensures r.error.path == Reported(to)
  {
    assert [] + Render(to) == Render(to);
    assert to != [] ==> Render(to)[0] == SLASH;
  }

  /** What the writer writes, the scanner accepts, with the size the value has. */
  method WriteThenScan(v: Json, limits: ParseLimits) returns (r: ScanErrors.Result<ScanStats>)
    requires IsJson(v) && IsWhole(v) && AsLargeAs(limits, v)
    ensures r == ScanErrors.Ok(ScanStats(|Printed(v)|, Height(Tree(v)), Nodes(Tree(v))))
  {
    var w, out := CanonicalBytes(v);
    r := Bounded.Scan(out, limits);
    PrintedIsAccepted(v, limits);
    var p := Policy(limits, true);
    assert Wider(p, limits);
    if r.Err? {
      assert ScanErrors.Keeps(p, limits, r.error);
    }
  }
}
