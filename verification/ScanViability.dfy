/** Which beginnings of a text some accepted text has (crates/rustev-contract/src/bounded.rs). */
module ScanViability {
  import opened Wrappers
  import opened JsonGrammar
  import opened JsonLexing
  import opened JsonResidual
  import opened ScanErrors
  import opened ScanTokens
  import opened ScanTracking

  /** Some text that starts with `b[..k]` is accepted once the limits are wide enough. */
  ghost predicate Viable(limits: ParseLimits, b: Bytes, k: nat)
    requires k <= |b|
  {
    exists p, y, z :: Wider(p, limits) && p.distinctKeys && Accepts(p, b[..k] + y, z)
  }

  /** `limits` with room for more bytes in all and for more values, every other limit as it is. */
  function Longer(limits: ParseLimits, bytes: nat, values: nat): Policy {
    Policy(limits.(maxBytes := limits.maxBytes + bytes, maxTotalValues := limits.maxTotalValues + values), true)
  }

  /** Some text that starts with `b[..k]` is accepted under `limits`, but for its size and for
      `values` more values than they allow. */
  ghost predicate Completable(limits: ParseLimits, b: Bytes, k: nat, values: nat)
    requires k <= |b|
  {
    exists bytes, y, z :: Accepts(Longer(limits, bytes, values), b[..k] + y, z)
  }

  /** `limits` with room for `n` more of everything. */
  function Roomy(limits: ParseLimits, n: nat): Policy {
    Policy(ParseLimits(limits.maxBytes + n, limits.maxDepth + n, limits.maxStringBytes + n,
                       limits.maxCollectionLen + n, limits.maxTotalValues + n, limits.maxNumberBytes + n, true),
           true)
  }

  // -------------------------------------------------------- ways to complete

  /** Closes every open container. */
  function Closers(fs: seq<Frame>): Rest {
    if fs == [] then Trail([]) else Inside(Top(fs).Shape(), Close([]), Closers(Pop(fs)))
  }

  lemma {:induction false} ClosersClose(p: Policy, fs: seq<Frame>)
    ensures ValidRest(p, fs, Closers(fs))
    ensures NodesRest(Closers(fs)) == 0 && HeightRest(Closers(fs)) <= |fs| && Enclosing(Closers(fs)) == |fs|
  {
    if fs != [] {
      ClosersClose(p, Pop(fs));
    }
  }

  lemma AfterCompletes(p: Policy, s: State)
    requires s.step.AfterValue? && |s.frames| <= s.depth
    requires FitsSize(p, Size(s.values, s.depth))
    ensures Residual(p, s, SpellRest(Closers(s.frames)), Size(s.values, s.depth))
  {
    var r := Closers(s.frames);
    ClosersClose(p, s.frames);
    assert ParsedAfter(p, s, SpellRest(r), Size(s.values, s.depth), r);
  }

  /** A token completes a value. */
  lemma TokenCompletes(p: Policy, s: State, t: Token)
    requires s.step.AtValue? && |s.frames| <= s.depth
    requires FitsSize(p, Size(s.values + 1, s.depth)) && ValidToken(p, t)
    ensures Residual(p, s, SpellToken(t) + SpellRest(Closers(s.frames)), Size(s.values + 1, s.depth))
  {
    var r := Closers(s.frames);
    ClosersClose(p, s.frames);
    assert ParsedValue(p, s, SpellToken(t) + SpellRest(r), Size(s.values + 1, s.depth), Atom(t), r);
  }

  /** A member to go on with, under the key `key` if it needs one. */
  function NextItem(s: State, key: seq<Char>, gap: Bytes): Item
    requires s.frames != []
  {
    Item(if Top(s.frames).ArrayFrame? then Unlabelled else Labelled(key, gap, []), Atom(Word(NULL)))
  }

  lemma MemberCompletes(limits: ParseLimits, s: State, key: seq<Char>, gap: Bytes, room: nat)
    requires Within(limits, s) && s.step.AtMember? && s.frames != []
    requires ValidChars(key) && Decode(key) !in Top(s.frames).Keys() && IsGap(gap) && |SpellChars(key)| < room
    ensures Residual(Roomy(limits, room), s, SpellItem(NextItem(s, key, gap), SpellRest(Closers(s.frames))),
                     Size(s.values + 1, s.depth))
  {
    var p, f, it := Roomy(limits, room), Top(s.frames), NextItem(s, key, gap);
    var t, z := Close([]), Size(s.values + 1, s.depth);
    ClosersClose(p, Pop(s.frames));
    assert ValidItem(p, f.Shape(), it, f.len, f.Keys());
    assert ValidTail(p, f.Shape(), t, f.len + 1, f.Keys() + Keys(it));
    assert NodesTail(t) == 0 && HeightTail(t) == 0 && Nodes(it.value) == 1 && Height(it.value) == 0;
    assert ParsedMember(p, s, SpellItem(it, SpellRest(Closers(s.frames))), z, it, t, Closers(Pop(s.frames)));
  }

  ghost function LongerThanAll(keys: set<Text>): (m: nat)
    ensures forall t | t in keys :: |t| < m
  {
    if keys == {} then 0 else
      var t :| t in keys; Max(|t| + 1, LongerThanAll(keys - {t}))
  }

  /** The characters and then as many letters as make the key new. */
  ghost function NewKey(cs: seq<Char>, keys: set<Text>): (key: seq<Char>)
    requires ValidChars(cs)
    ensures ValidChars(key) && Decode(key) !in keys && cs <= key
  {
    var key := cs + seq(LongerThanAll(keys), _ => Plain(0x61));
    assert |Decode(key)| == |key|;
    key
  }

  lemma {:induction false} PrefixSpells(cs: seq<Char>, ds: seq<Char>)
    requires cs <= ds
    ensures SpellChars(cs) <= SpellChars(ds)
  {
    CharsSplit(ds, |cs|);
    assert ds[..|cs|] == cs;
  }

  // ------------------------------------------------------------- what is viable

  /** What completes the state completes the text up to wherever it agrees with it. */
  lemma ViableBy(limits: ParseLimits, b: Bytes, pos: nat, s: State, room: nat, y: Bytes, z: Size, k: nat)
    requires OnTrack(limits, b, pos, s) && Residual(Roomy(limits, room), s, y, z)
    requires pos + |y| <= room && pos <= k <= |b| && b[pos..k] <= y
    ensures Viable(limits, b, k)
  {
    hide Residual, Document;
    var p := Roomy(limits, room);
    assert Tracks(p, b, pos, s);
    assert b[..k] == b[..pos] + b[pos..k] && y == b[pos..k] + y[k - pos..];
    assert b[..k] + y[k - pos..] == b[..pos] + y;
    assert Accepts(p, b[..k] + y[k - pos..], z);
  }

  /** Whatever the scanner has consumed at a step, some document starts with it. */
  lemma EveryStepIsViable(limits: ParseLimits, b: Bytes, pos: nat, s: State)
    requires OnTrack(limits, b, pos, s)
    requires s.step.AtMember? ==> s.frames != []
    ensures Viable(limits, b, pos)
  {
    assert b[pos..pos] == [];
    match s.step
    case AtMember =>
      ThroughMember(limits, b, pos, s, [], [], pos);
    case AtValue =>
      ThroughToken(limits, b, pos, s, Word(NULL), pos);
    case AfterValue =>
      var y := SpellRest(Closers(s.frames));
      var room := pos + |y|;
      AfterCompletes(Roomy(limits, room), s);
      ViableBy(limits, b, pos, s, room, y, Size(s.values, s.depth), pos);
  }

  /** At a value, or after one, the limits themselves allow what was consumed: they have room for
      what completes it, but perhaps for its last value and in bytes. */
  lemma EveryStepCompletes(limits: ParseLimits, b: Bytes, pos: nat, s: State)
    requires OnTrack(limits, b, pos, s) && !s.step.AtMember?
    ensures Completable(limits, b, pos, if s.step.AtValue? then 1 else 0)
  {
    var values := if s.step.AtValue? then 1 else 0;
    var r := SpellRest(Closers(s.frames));
    var y := if s.step.AtValue? then SpellToken(Word(NULL)) + r else r;
    var p := Longer(limits, pos + |y|, values);
    if s.step.AtValue? {
      TokenCompletes(p, s, Word(NULL));
    } else {
      AfterCompletes(p, s);
    }
    assert Tracks(p, b, pos, s);
    assert Accepts(p, b[..pos] + y, Size(s.values + values, s.depth));
  }

  lemma ThroughToken(limits: ParseLimits, b: Bytes, pos: nat, s: State, t: Token, k: nat)
    requires OnTrack(limits, b, pos, s) && s.step.AtValue?
    requires pos <= k <= |b| && b[pos..k] <= SpellToken(t)
    requires match t case Word(w) => w == NULL case Quoted(cs) => ValidChars(cs) case Numeral(n) => ValidNumber(n)
    ensures Viable(limits, b, k)
  {
    var y := SpellToken(t) + SpellRest(Closers(s.frames));
    var room := 1 + pos + |y|;
    TokenCompletes(Roomy(limits, room), s, t);
    ViableBy(limits, b, pos, s, room, y, Size(s.values + 1, s.depth), k);
  }

  /** A member can be completed from within its key, or from the gap after a new one. */
  lemma ThroughMember(limits: ParseLimits, b: Bytes, pos: nat, s: State, cs: seq<Char>, gap: Bytes, k: nat)
    requires OnTrack(limits, b, pos, s) && s.step.AtMember? && s.frames != []
    requires ValidChars(cs) && IsGap(gap) && pos <= k <= |b|
    requires || k == pos
             || (Top(s.frames).ObjectFrame? && b[pos..k] <= [QUOTE] + SpellChars(cs))
             || (Top(s.frames).ObjectFrame? && b[pos..k] == SpellQuoted(cs) + gap && Decode(cs) !in Top(s.frames).keys)
    ensures Viable(limits, b, k)
  {
    hide Residual, OnTrack, SpellChars, SpellQuoted, SpellItem, SpellRest, Closers, Decode, ValidChar;
    var f, rest := Top(s.frames), SpellRest(Closers(s.frames));
    var done := k != pos && !(b[pos..k] <= [QUOTE] + SpellChars(cs));
    var key := if done then cs else NewKey(cs, f.Keys());
    var y := SpellItem(NextItem(s, key, gap), rest);
    var room := 1 + |SpellChars(key)| + pos + |y|;
    TrackIsWithin(limits, b, pos, s);
    MemberCompletes(limits, s, key, gap, room);
    if k != pos {
      KeyAgrees(s, cs, key, gap, rest, b[pos..k]);
    }
    ViableBy(limits, b, pos, s, room, y, Size(s.values + 1, s.depth), k);
  }

  lemma KeyAgrees(s: State, cs: seq<Char>, key: seq<Char>, gap: Bytes, rest: Bytes, x: Bytes)
    requires s.frames != [] && Top(s.frames).ObjectFrame? && cs <= key
    requires x <= [QUOTE] + SpellChars(cs) || (x == SpellQuoted(cs) + gap && key == cs)
    ensures x <= SpellItem(NextItem(s, key, gap), rest)
  {
    hide SpellChars;
    var it := NextItem(s, key, gap);
    var v := [COLON] + ([] + SpellValue(it.value, rest));
    assert SpellItem(it, rest) == SpellQuoted(key) + (gap + v);
    if x <= [QUOTE] + SpellChars(cs) {
      PrefixSpells(cs, key);
      PrefixAfter([QUOTE], SpellChars(cs), SpellChars(key));
      Associative([QUOTE] + SpellChars(key), [QUOTE], gap + v);
    } else {
      Associative(SpellQuoted(cs), gap, v);
    }
  }

  lemma TrackIsWithin(limits: ParseLimits, b: Bytes, pos: nat, s: State)
    requires OnTrack(limits, b, pos, s)
    ensures Within(limits, s)
  {}

  /** A value or a key can be completed from within a string that starts one. */
  lemma ThroughString(limits: ParseLimits, b: Bytes, pos: nat, s: State, k: nat)
    requires OnTrack(limits, b, pos, s) && TakesString(s)
    requires pos <= k <= |b| && StartsString(b[pos..k])
    ensures Viable(limits, b, k)
  {
    hide OnTrack, SpellChars;
    var cs :| ValidChars(cs) && b[pos..k] <= [QUOTE] + SpellChars(cs);
    if s.step.AtValue? {
      assert SpellQuoted(cs) == ([QUOTE] + SpellChars(cs)) + [QUOTE];
      ThroughToken(limits, b, pos, s, Quoted(cs), k);
    } else {
      ThroughMember(limits, b, pos, s, cs, [], k);
    }
  }

  /** A string may come next. */
  predicate TakesString(s: State) {
    s.step.AtValue? || (s.step.AtMember? && s.frames != [] && Top(s.frames).ObjectFrame?)
  }

  lemma NoStringIsStuck(p: Policy, s: State, x: Bytes)
    requires TakesString(s) && Starts(x, QUOTE) && NoString(p, x)
    ensures Stuck(p, s, x)
  {
    if s.step.AtValue? {
      StuckValue(p, s, x);
    } else {
      StuckMember(p, s, x);
    }
  }

  /** Nothing that starts with `b[..k]` is accepted when no string starts with `b[pos..k]`. */
  lemma NotThrough(limits: ParseLimits, b: Bytes, pos: nat, s: State, k: nat)
    requires OnTrack(limits, b, pos, s) && TakesString(s)
    requires pos < k <= |b| && b[pos] == QUOTE
    requires forall p, y :: NoString(p, b[pos..k] + y)
    ensures !Viable(limits, b, k)
  {
    hide NoString, Residual, Document;
    forall p, y, z | Wider(p, limits) ensures !Accepts(p, b[..k] + y, z) {
      var x := b[pos..k] + y;
      assert b[..k] + y == b[..pos] + x;
      assert x[0] == b[pos] && SameStart(x, b[pos..]);
      assert NoString(p, b[pos..k] + y);
      NoStringIsStuck(p, s, x);
      assert Tracks(p, b, pos, s);
      assert !Residual(p, s, x, z);
    }
  }

  // -------------------------------------------------------------- what errors name

  /** Up to the place that the error names some accepted text agrees with `b`, unless the error
      is late. */
  ghost predicate Placed(limits: ParseLimits, b: Bytes, e: BoundError) {
    match Offset(e)
    case None => true
    case Some(k) => k <= |b| && (Viable(limits, b, k) <==> !Late(b, e))
  }

  /** The error names `pos`, and is not about a hexadecimal digit. */
  predicate Names(e: BoundError, pos: nat) {
    Offset(e) == Some(pos) && (e.Syntax? ==> e.expected != HEX_DIGIT)
  }

  lemma PlacedAt(limits: ParseLimits, b: Bytes, pos: nat, s: State, e: BoundError)
    requires OnTrack(limits, b, pos, s)
    requires s.step.AtMember? ==> s.frames != []
    requires Names(e, pos)
    ensures Placed(limits, b, e)
  {
    EveryStepIsViable(limits, b, pos, s);
  }

  lemma PlacedInString(limits: ParseLimits, b: Bytes, pos: nat, s: State, e: BoundError)
    requires OnTrack(limits, b, pos, s) && TakesString(s)
    requires Starts(b[pos..], QUOTE) && StringStops(b, pos, e)
    ensures Placed(limits, b, e)
  {
    hide Viable, OnTrack;
    var k := Offset(e).value;
    if Late(b, e) {
      NotThrough(limits, b, pos, s, k);
    } else {
      ThroughString(limits, b, pos, s, k);
    }
  }

  lemma PlacedInNumber(limits: ParseLimits, b: Bytes, pos: nat, s: State, e: BoundError)
    requires OnTrack(limits, b, pos, s) && s.step.AtValue?
    requires NumberStops(b, pos, e)
    ensures Placed(limits, b, e)
  {
    hide Viable, OnTrack;
    var k := Offset(e).value;
    var n :| ValidNumber(n) && b[pos..k] <= SpellNumber(n);
    ThroughToken(limits, b, pos, s, Numeral(n), k);
  }
}
