/** What a scan that is under way knows: that what it consumed has led to its state, whatever
    comes (crates/rustev-contract/src/bounded.rs). */
module ScanTracking {
  import opened JsonGrammar
  import opened JsonLexing
  import opened JsonResidual

  // --------------------------------------------------------------- tracking

  /** Scanning `b[..pos]` has led to `s`: the completions of `s` are those of `b[..pos]`, among
      the texts that go on with the byte that `b` goes on with. */
  ghost predicate Tracks(p: Policy, b: Bytes, pos: nat, s: State)
    requires pos <= |b|
  {
    && (forall x, z | SameStart(x, b[pos..]) && Document(p, b[..pos] + x, z) :: Residual(p, s, x, z))
    && (forall y, z | Residual(p, s, y, z) :: Document(p, b[..pos] + y, z))
  }

  predicate Within(limits: ParseLimits, s: State) {
    && |s.frames| <= s.depth <= limits.maxDepth
    && s.values <= limits.maxTotalValues
    && forall i | 0 <= i < |s.frames| :: s.frames[i].len <= limits.maxCollectionLen
  }

  ghost predicate OnTrack(limits: ParseLimits, b: Bytes, pos: nat, s: State) {
    && pos <= |b|
    && Within(limits, s)
    && forall p | Wider(p, limits) :: Tracks(p, b, pos, s)
  }

  lemma Advance(limits: ParseLimits, b: Bytes, pos: nat, s: State, pos': nat, s': State)
    requires OnTrack(limits, b, pos, s)
    requires pos <= pos' <= |b|
    requires Within(limits, s')
    requires forall p, x | Wider(p, limits) && SameStart(x, b[pos'..]) :: Moves(p, s, b[pos..pos'], x, s')
    ensures OnTrack(limits, b, pos', s')
  {
    forall p | Wider(p, limits) ensures Tracks(p, b, pos', s') {
      assert Tracks(p, b, pos, s);
      TracksOn(p, b, pos, s, pos', s');
    }
  }

  lemma TracksOn(p: Policy, b: Bytes, pos: nat, s: State, pos': nat, s': State)
    requires pos <= pos' <= |b|
    requires Tracks(p, b, pos, s)
    requires forall x | SameStart(x, b[pos'..]) :: Moves(p, s, b[pos..pos'], x, s')
    ensures Tracks(p, b, pos', s')
  {
    hide Document, Residual;
    var c := b[pos..pos'];
    forall x, z | SameStart(x, b[pos'..]) && Document(p, b[..pos'] + x, z) ensures Residual(p, s', x, z) {
      assert b[..pos'] + x == b[..pos] + (c + x);
      assert SameStart(c + x, b[pos..]);
      assert Moves(p, s, c, x, s');
    }
    forall y, z | Residual(p, s', y, z) ensures Document(p, b[..pos'] + y, z) {
      assert b[..pos'] + y == b[..pos] + (c + y);
      assert Moves(p, s, c, b[pos'..], s');
    }
  }

  lemma Begin(limits: ParseLimits, b: Bytes, pos: nat)
    requires pos <= |b| && IsGap(b[..pos]) && !StartsWithSpace(b[pos..])
    ensures OnTrack(limits, b, pos, START)
  {
    forall p | Wider(p, limits) ensures Tracks(p, b, pos, START) {
      forall x, z | SameStart(x, b[pos..]) && Document(p, b[..pos] + x, z) ensures Residual(p, START, x, z) {
        StartMoves(p, b[..pos], x, z);
      }
      forall y, z | Residual(p, START, y, z) ensures Document(p, b[..pos] + y, z) {
        StartMoves(p, b[..pos], y, z);
      }
    }
  }

  // ------------------------------------------------------------------ moves

  lemma TakeGap(limits: ParseLimits, b: Bytes, pos: nat, s: State, pos': nat)
    requires OnTrack(limits, b, pos, s) && s.step.AfterValue?
    requires pos <= pos' <= |b| && IsGap(b[pos..pos']) && !StartsWithSpace(b[pos'..])
    ensures OnTrack(limits, b, pos', s)
  {
    forall p, x | Wider(p, limits) && SameStart(x, b[pos'..]) ensures Moves(p, s, b[pos..pos'], x, s) {
      GapMoves(p, s, b[pos..pos'], x);
    }
    Advance(limits, b, pos, s, pos', s);
  }

  lemma TakeAtom(limits: ParseLimits, b: Bytes, pos: nat, s: State, t: Token, pos': nat)
    requires OnTrack(limits, b, pos, s) && s.step.AtValue?
    requires pos <= pos' <= |b| && b[pos..pos'] == SpellToken(t)
    requires ValidToken(Policy(limits, true), t) && GreedyToken(t, b[pos'..])
    requires s.values + 1 <= limits.maxTotalValues
    ensures OnTrack(limits, b, pos', State(AfterValue, s.frames, s.values + 1, s.depth))
  {
    var s' := State(AfterValue, s.frames, s.values + 1, s.depth);
    forall p, x | Wider(p, limits) && SameStart(x, b[pos'..]) ensures Moves(p, s, b[pos..pos'], x, s') {
      if t.Numeral? {
        GreedyFirst(t.number, b[pos'..], x);
      }
      AtomMoves(p, s, t, x);
    }
    Advance(limits, b, pos, s, pos', s');
  }

  lemma TakeOpen(limits: ParseLimits, b: Bytes, pos: nat, s: State, shape: Shape, pos': nat)
    requires OnTrack(limits, b, pos, s) && s.step.AtValue?
    requires pos < pos' <= |b| && b[pos] == OpenByte(shape) && IsGap(b[pos + 1..pos'])
    requires !StartsWithSpace(b[pos'..]) && !Starts(b[pos'..], CloseByte(shape))
    requires s.values + 1 <= limits.maxTotalValues && |s.frames| + 1 <= limits.maxDepth
    ensures OnTrack(limits, b, pos', Opened(s, shape))
  {
    var g := b[pos + 1..pos'];
    assert b[pos..pos'] == [OpenByte(shape)] + g;
    forall p, x | Wider(p, limits) && SameStart(x, b[pos'..]) ensures Moves(p, s, b[pos..pos'], x, Opened(s, shape)) {
      OpenMoves(p, s, shape, g, x);
    }
    Advance(limits, b, pos, s, pos', Opened(s, shape));
  }

  lemma TakeEmpty(limits: ParseLimits, b: Bytes, pos: nat, s: State, shape: Shape, pos': nat)
    requires OnTrack(limits, b, pos, s) && s.step.AtValue?
    requires pos + 1 < pos' <= |b| && b[pos] == OpenByte(shape) && IsGap(b[pos + 1..pos' - 1])
    requires b[pos' - 1] == CloseByte(shape)
    requires s.values + 1 <= limits.maxTotalValues && |s.frames| + 1 <= limits.maxDepth
    ensures OnTrack(limits, b, pos', State(AfterValue, s.frames, s.values + 1, Max(s.depth, |s.frames| + 1)))
  {
    var s' := State(AfterValue, s.frames, s.values + 1, Max(s.depth, |s.frames| + 1));
    var g := b[pos + 1..pos' - 1];
    assert b[pos..pos'] == [OpenByte(shape)] + g + [CloseByte(shape)];
    forall p, x | Wider(p, limits) && SameStart(x, b[pos'..]) ensures Moves(p, s, b[pos..pos'], x, s') {
      EmptyMoves(p, s, shape, g, x);
    }
    Advance(limits, b, pos, s, pos', s');
  }

  lemma TakeComma(limits: ParseLimits, b: Bytes, pos: nat, s: State, pos': nat)
    requires OnTrack(limits, b, pos, s) && s.step.AfterValue? && s.frames != []
    requires pos < pos' <= |b| && b[pos] == COMMA && IsGap(b[pos + 1..pos']) && !StartsWithSpace(b[pos'..])
    ensures OnTrack(limits, b, pos', s.(step := AtMember))
  {
    var g := b[pos + 1..pos'];
    assert b[pos..pos'] == [COMMA] + g;
    forall p, x | Wider(p, limits) && SameStart(x, b[pos'..]) ensures Moves(p, s, b[pos..pos'], x, s.(step := AtMember)) {
      CommaMoves(p, s, g, x);
    }
    Advance(limits, b, pos, s, pos', s.(step := AtMember));
  }

  lemma TakeClose(limits: ParseLimits, b: Bytes, pos: nat, s: State)
    requires OnTrack(limits, b, pos, s) && s.step.AfterValue? && s.frames != []
    requires pos < |b| && b[pos] == CloseByte(Top(s.frames).Shape())
    ensures OnTrack(limits, b, pos + 1, s.(frames := Pop(s.frames)))
  {
    var s', to := s.(frames := Pop(s.frames)), pos + 1;
    assert b[pos..to] == [CloseByte(Top(s.frames).Shape())];
    forall p, x | Wider(p, limits) && SameStart(x, b[to..]) ensures Moves(p, s, b[pos..to], x, s') {
      CloseMoves(p, s, x);
    }
    Advance(limits, b, pos, s, to, s');
  }

  lemma TakeElement(limits: ParseLimits, b: Bytes, pos: nat, s: State)
    requires OnTrack(limits, b, pos, s) && s.step.AtMember? && s.frames != []
    requires Top(s.frames).ArrayFrame? && Top(s.frames).len + 1 <= limits.maxCollectionLen
    ensures OnTrack(limits, b, pos, Entered(s, {}))
  {
    assert b[pos..pos] == [];
    forall p, x | Wider(p, limits) && SameStart(x, b[pos..]) ensures Moves(p, s, b[pos..pos], x, Entered(s, {})) {
      EnterMoves(p, s, Unlabelled, [], x);
    }
    Advance(limits, b, pos, s, pos, Entered(s, {}));
  }

  lemma TakeKey(limits: ParseLimits, b: Bytes, pos: nat, s: State, key: seq<Char>, k1: nat, k2: nat, pos': nat)
    requires OnTrack(limits, b, pos, s) && s.step.AtMember? && s.frames != []
    requires Top(s.frames).ObjectFrame? && Top(s.frames).len + 1 <= limits.maxCollectionLen
    requires ValidQuoted(Policy(limits, true), key) && Decode(key) !in Top(s.frames).keys
    requires pos <= k1 <= k2 < pos' <= |b|
    requires b[pos..k1] == SpellQuoted(key) && IsGap(b[k1..k2]) && b[k2] == COLON
    requires IsGap(b[k2 + 1..pos']) && !StartsWithSpace(b[pos'..])
    ensures OnTrack(limits, b, pos', Entered(s, {Decode(key)}))
  {
    var head := Labelled(key, b[k1..k2], b[k2 + 1..pos']);
    var c := SpellQuoted(key) + (head.beforeColon + ([COLON] + head.afterColon));
    assert b[pos..pos'] == c;
    forall p, x | Wider(p, limits) && SameStart(x, b[pos'..]) ensures Moves(p, s, b[pos..pos'], x, Entered(s, {Decode(key)})) {
      EnterMoves(p, s, head, c, x);
    }
    Advance(limits, b, pos, s, pos', Entered(s, {Decode(key)}));
  }

  // ------------------------------------------------------------------ space

  /** Bytes of a scalar value in UTF-8. */
  function Utf8Length(v: int): nat {
    if v < 0x80 then 1 else if v < 0x800 then 2 else if v < 0x10000 then 3 else 4
  }

  function TextBytes(t: Text): nat {
    if t == [] then 0 else Utf8Length(t[0]) + TextBytes(t[1..])
  }

  /** Bytes held by the texts of a set. */
  ghost function SetBytes(s: set<Text>): nat {
    if s == {} then 0 else
      var t :| t in s; TextBytes(t) + SetBytes(s - {t})
  }

  lemma {:induction false} SetBytesWithout(s: set<Text>, t: Text)
    requires t in s
    ensures SetBytes(s) == TextBytes(t) + SetBytes(s - {t})
  {
    var u :| u in s && SetBytes(s) == TextBytes(u) + SetBytes(s - {u});
    if u != t {
      SetBytesWithout(s - {u}, t);
      SetBytesWithout(s - {t}, u);
      assert s - {u} - {t} == s - {t} - {u};
    }
  }

  /** Decoded key bytes held by the open objects. */
  ghost function KeyBytes(fs: seq<Frame>): nat {
    if fs == [] then 0 else SetBytes(Top(fs).Keys()) + KeyBytes(Pop(fs))
  }

  lemma KeyBytesPush(fs: seq<Frame>, f: Frame)
    ensures KeyBytes(fs + [f]) == SetBytes(f.Keys()) + KeyBytes(fs)
  {
    assert Pop(fs + [f]) == fs;
  }

  /** A new container holds no keys. */
  lemma KeyBytesOpen(fs: seq<Frame>, f: Frame)
    requires f.Keys() == {}
    ensures KeyBytes(fs + [f]) == KeyBytes(fs)
  {
    KeyBytesPush(fs, f);
  }

  lemma DecodedCharBytes(c: Char)
    requires ValidChar(c)
    ensures Utf8Length(DecodeChar(c)) <= |SpellChar(c)|
  {}

  /** Decoding never lengthens a string. */
  lemma {:induction false} DecodedBytes(cs: seq<Char>)
    requires ValidChars(cs)
    ensures TextBytes(Decode(cs)) <= |SpellChars(cs)|
  {
    if cs != [] {
      DecodedCharBytes(cs[0]);
      assert Decode(cs)[1..] == Decode(cs[1..]);
      DecodedBytes(cs[1..]);
    }
  }

  /** A new key adds at most the bytes it was read from to what is held. */
  lemma KeyBytesGrow(fs: seq<Frame>, cs: seq<Char>)
    requires fs != [] && Top(fs).ObjectFrame? && ValidChars(cs) && Decode(cs) !in Top(fs).keys
    ensures KeyBytes(Pop(fs) + [Top(fs).Grow({Decode(cs)})]) <= KeyBytes(fs) + |SpellChars(cs)|
  {
    var f := Top(fs);
    var t := Decode(cs);
    KeyBytesPush(Pop(fs), f.Grow({t}));
    SetBytesWithout(f.keys + {t}, t);
    assert f.keys + {t} - {t} == f.keys;
    DecodedBytes(cs);
  }
}
