/** Why a text is refused, and where (crates/rustev-contract/src/bounded.rs). */
module ScanRefusal {
  import opened Wrappers
  import opened Ascii
  import opened JsonGrammar
  import opened JsonLexing
  import opened JsonResidual
  import opened ScanErrors
  import opened ScanHalts
  import opened ScanTokens
  import opened ScanTracking
  import opened ScanViability

  /** A syntax error names the first byte that does not fit: nothing acceptable starts with the
      text up to and including it. Only of a word and of a surrogate pair it names the start. */
  ghost predicate Stops(limits: ParseLimits, b: Bytes, e: BoundError) {
    match e
    case Syntax(k, what) => k < |b| && what != LITERAL && what != PAIR ==> !Viable(limits, b, k + 1)
    case TrailingData(k) => k < |b| && !Viable(limits, b, k + 1)
    case _ => true
  }

  /** The error is to blame, and stands where the text stops: widening every other rule does not
      make the text acceptable, and up to there, but no further, some acceptable text agrees with
      it. */
  ghost predicate Refused(limits: ParseLimits, b: Bytes, e: BoundError) {
    && Reports(limits, b, e)
    && Placed(limits, b, e)
    && Stops(limits, b, e)
    && forall p, z | Wider(p, limits) && Keeps(p, limits, e) :: !Accepts(p, b, z)
  }

  /** The limits admit what was read up to some state, and there the scan halts with the error. */
  ghost predicate Halted(limits: ParseLimits, b: Bytes, e: BoundError) {
    exists pos, s :: OnTrack(limits, b, pos, s) && Halts(limits, b, pos, s, e)
  }

  /** A rule that stops the state refuses the whole text. */
  lemma Blame(limits: ParseLimits, b: Bytes, pos: nat, s: State, e: BoundError)
    requires Reports(limits, b, e) && Placed(limits, b, e) && Stops(limits, b, e)
    requires OnTrack(limits, b, pos, s)
    requires forall p | Wider(p, limits) && Keeps(p, limits, e) :: Stuck(p, s, b[pos..])
    ensures Refused(limits, b, e)
  {
    hide Placed, Stops;
    assert b[..pos] + b[pos..] == b;
    forall p, z | Wider(p, limits) && Keeps(p, limits, e) ensures !Accepts(p, b, z) {
      assert Stuck(p, s, b[pos..]) && Tracks(p, b, pos, s);
    }
  }

  /** Where nothing completes the state, nothing completes the text. */
  lemma NotPast(limits: ParseLimits, b: Bytes, pos: nat, s: State, k: nat)
    requires OnTrack(limits, b, pos, s)
    requires pos < k <= |b|
    requires forall p, y :: Stuck(p, s, b[pos..k] + y)
    ensures !Viable(limits, b, k)
  {
    hide Residual, Document;
    forall p, y, z | Wider(p, limits) ensures !Accepts(p, b[..k] + y, z) {
      var x := b[pos..k] + y;
      assert b[..k] + y == b[..pos] + x;
      assert SameStart(x, b[pos..]);
      assert Tracks(p, b, pos, s) && Stuck(p, s, b[pos..k] + y);
    }
  }

  // ---------------------------------------------------------------- refusals

  /** The first byte of what should be a value is to blame, or a limit is. */
  lemma ValueStartHalts(limits: ParseLimits, b: Bytes, pos: nat, s: State, e: BoundError)
    requires OnTrack(limits, b, pos, s) && s.step.AtValue? && HaltsAtValue(limits, b, pos, s, e)
    requires e.TooManyValues? || pos == |b| || (b[pos] != QUOTE && b[pos] != MINUS && !IsDigit(b[pos]))
    ensures Refused(limits, b, e)
  {
    hide Placed;
    forall p | Wider(p, limits) && Keeps(p, limits, e) ensures Stuck(p, s, b[pos..]) {
      StuckValue(p, s, b[pos..]);
    }
    PlacedAt(limits, b, pos, s, e);
    if pos < |b| && !StartsValue(b[pos]) {
      var k := pos + 1;
      forall p, y ensures Stuck(p, s, b[pos..k] + y) {
        StuckValue(p, s, b[pos..k] + y);
      }
      NotPast(limits, b, pos, s, k);
    }
    Blame(limits, b, pos, s, e);
  }

  lemma NumberIsRefused(limits: ParseLimits, b: Bytes, pos: nat, s: State, e: BoundError)
    requires OnTrack(limits, b, pos, s) && s.step.AtValue? && pos < |b|
    requires (b[pos] == MINUS || IsDigit(b[pos])) && NumberHalts(limits, b, pos, e)
    ensures Refused(limits, b, e)
  {
    hide Placed, NumberHalts, NumberStops, NoNumber;
    NumberRefuses(limits, b, pos, e);
    forall p | Wider(p, limits) && Keeps(p, limits, e) ensures Stuck(p, s, b[pos..]) {
      StuckValue(p, s, b[pos..]);
    }
    PlacedInNumber(limits, b, pos, s, e);
    if e.Syntax? && e.offset < |b| {
      var k := e.offset + 1;
      forall p, y ensures Stuck(p, s, b[pos..k] + y) {
        StuckValue(p, s, b[pos..k] + y);
      }
      NotPast(limits, b, pos, s, k);
    }
    Blame(limits, b, pos, s, e);
  }

  lemma StringIsRefused(limits: ParseLimits, b: Bytes, pos: nat, s: State, e: BoundError)
    requires OnTrack(limits, b, pos, s) && TakesString(s) && StringHalts(limits, b, pos, e)
    ensures Refused(limits, b, e)
  {
    hide Placed, StringHalts, StringStops, NoString;
    StringRefuses(limits, b, pos, e);
    forall p | Wider(p, limits) && Keeps(p, limits, e) ensures Stuck(p, s, b[pos..]) {
      NoStringIsStuck(p, s, b[pos..]);
    }
    PlacedInString(limits, b, pos, s, e);
    if e.Syntax? && e.expected != PAIR && e.offset < |b| {
      NotThrough(limits, b, pos, s, e.offset + 1);
    }
    Blame(limits, b, pos, s, e);
  }

  lemma MemberStartHalts(limits: ParseLimits, b: Bytes, pos: nat, s: State, e: BoundError)
    requires OnTrack(limits, b, pos, s) && s.step.AtMember? && s.frames != []
    requires HaltsAtMember(limits, b, pos, Top(s.frames), e)
    requires !(Top(s.frames).ObjectFrame? && (StringHalts(limits, b, pos, e) || KeyHalts(limits, b, pos, Top(s.frames).keys, e)))
    ensures Refused(limits, b, e)
  {
    hide Placed, StringHalts, KeyHalts;
    forall p | Wider(p, limits) && Keeps(p, limits, e) ensures Stuck(p, s, b[pos..]) {
      StuckMember(p, s, b[pos..]);
    }
    PlacedAt(limits, b, pos, s, e);
    if e.Syntax? && pos < |b| {
      var k := pos + 1;
      assert b[pos..][0] == b[pos];
      forall p, y ensures Stuck(p, s, b[pos..k] + y) {
        StuckMember(p, s, b[pos..k] + y);
      }
      NotPast(limits, b, pos, s, k);
    }
    Blame(limits, b, pos, s, e);
  }

  lemma KeyIsRefused(limits: ParseLimits, b: Bytes, pos: nat, s: State, key: seq<Char>, k1: nat, k2: nat, e: BoundError)
    requires OnTrack(limits, b, pos, s) && s.step.AtMember? && s.frames != [] && Top(s.frames).ObjectFrame?
    requires KeyBreaks(limits, b, pos, Top(s.frames).keys, key, k1, k2, e)
    ensures Refused(limits, b, e)
  {
    hide Decode, SpellChars, Stuck, OnTrack, Placed, Viable;
    var g := b[k1..k2];
    assert b[pos..] == SpellQuoted(key) + (g + b[k2..]);
    forall p | Wider(p, limits) && Keeps(p, limits, e) ensures Stuck(p, s, b[pos..]) {
      StuckKey(p, s, key, g, b[k2..]);
    }
    if e.DuplicateKey? {
      PlacedAt(limits, b, pos, s, e);
    } else {
      NoColon(limits, b, pos, s, key, k1, k2, e);
    }
    Blame(limits, b, pos, s, e);
  }

  /** A new key that no colon follows. */
  lemma NoColon(limits: ParseLimits, b: Bytes, pos: nat, s: State, key: seq<Char>, k1: nat, k2: nat, e: BoundError)
    requires OnTrack(limits, b, pos, s) && s.step.AtMember? && s.frames != [] && Top(s.frames).ObjectFrame?
    requires KeyBreaks(limits, b, pos, Top(s.frames).keys, key, k1, k2, e) && Decode(key) !in Top(s.frames).keys
    ensures Placed(limits, b, e) && Stops(limits, b, e)
  {
    hide Decode, SpellQuoted, SpellChars, Stuck, OnTrack, Viable;
    var g := b[k1..k2];
    SplitSlice(b, pos, k1, k2);
    ThroughMember(limits, b, pos, s, key, g, k2);
    if k2 < |b| {
      var k := k2 + 1;
      forall p, y ensures Stuck(p, s, b[pos..k] + y) {
        KeyThen(b, pos, k1, k2, key, y);
        StuckKey(p, s, key, g, [b[k2]] + y);
      }
      NotPast(limits, b, pos, s, k);
    }
  }

  lemma KeyThen(b: Bytes, pos: nat, k1: nat, k2: nat, key: seq<Char>, y: Bytes)
    requires pos <= k1 <= k2 < |b| && b[pos..k1] == SpellQuoted(key)
    ensures b[pos..k2 + 1] + y == SpellQuoted(key) + (b[k1..k2] + ([b[k2]] + y))
  {
    SplitSlice(b, pos, k1, k2);
    SplitSlice(b, pos, k2, k2 + 1);
    Associative(b[pos..k2], [b[k2]], y);
    Associative(b[pos..k1], b[k1..k2], [b[k2]] + y);
  }

  lemma AfterHalts(limits: ParseLimits, b: Bytes, pos: nat, s: State, e: BoundError)
    requires OnTrack(limits, b, pos, s) && s.step.AfterValue? && HaltsAfter(b, pos, s.frames, e)
    ensures Refused(limits, b, e)
  {
    hide Placed;
    forall p | Wider(p, limits) && Keeps(p, limits, e) ensures Stuck(p, s, b[pos..]) {
      StuckAfter(p, s, b[pos..]);
    }
    PlacedAt(limits, b, pos, s, e);
    if pos < |b| {
      var k := pos + 1;
      forall p, y ensures Stuck(p, s, b[pos..k] + y) {
        StuckAfter(p, s, b[pos..k] + y);
      }
      NotPast(limits, b, pos, s, k);
    }
    Blame(limits, b, pos, s, e);
  }

  /** Wherever the scan halts, the text is refused by what it halts with, and stops there. */
  lemma HaltIsRefusal(limits: ParseLimits, b: Bytes, e: BoundError)
    requires Halted(limits, b, e)
    ensures Refused(limits, b, e)
  {
    hide OnTrack, Refused, StringHalts, NumberHalts, NoWord;
    var pos: nat, s :| OnTrack(limits, b, pos, s) && Halts(limits, b, pos, s, e);
    match s.step
    case AtValue =>
      if StringHalts(limits, b, pos, e) {
        StringIsRefused(limits, b, pos, s, e);
      } else if pos < |b| && (b[pos] == MINUS || IsDigit(b[pos])) && NumberHalts(limits, b, pos, e) {
        NumberIsRefused(limits, b, pos, s, e);
      } else {
        ValueStartHalts(limits, b, pos, s, e);
      }
    case AtMember =>
      var f := Top(s.frames);
      if f.ObjectFrame? && StringHalts(limits, b, pos, e) {
        StringIsRefused(limits, b, pos, s, e);
      } else if f.ObjectFrame? && KeyHalts(limits, b, pos, f.keys, e) {
        var key, k1: nat, k2: nat :| KeyBreaks(limits, b, pos, f.keys, key, k1, k2, e) by { assert KeyHalts(limits, b, pos, f.keys, e); }
        KeyIsRefused(limits, b, pos, s, key, k1, k2, e);
      } else {
        MemberStartHalts(limits, b, pos, s, e);
      }
    case AfterValue =>
      AfterHalts(limits, b, pos, s, e);
  }

  /** The document is exactly what the counts say, whatever wider policy reads it. */
  ghost predicate Measured(limits: ParseLimits, b: Bytes, stats: ScanStats) {
    && stats.bytes == |b|
    && forall p, z | Wider(p, limits) :: Accepts(p, b, z) <==> z == Size(stats.values, stats.maxDepthSeen)
  }

  lemma Finish(limits: ParseLimits, b: Bytes, s: State)
    requires |b| <= limits.maxBytes
    requires OnTrack(limits, b, |b|, s) && s.step.AfterValue? && s.frames == []
    ensures Measured(limits, b, ScanStats(|b|, s.depth, s.values))
  {
    assert b[..|b|] + [] == b && b[|b|..] == [] && b[..|b|] + b[|b|..] == b;
    forall p, z | Wider(p, limits) ensures Accepts(p, b, z) <==> z == Size(s.values, s.depth) {
      assert Tracks(p, b, |b|, s);
      Complete(p, s, z);
    }
  }

  /** A string with an escape that starts like a low surrogate's and then lacks a digit. */
  const LATE: Bytes := [QUOTE, BACKSLASH, LOWER_U, 0x44, 0x43, 0x30, 0x5A]

  /** There the missing digit is named, though nothing acceptable starts with what precedes it. */
  lemma LateExample(limits: ParseLimits)
    ensures Late(LATE, Syntax(6, HEX_DIGIT))
    ensures Refused(limits, LATE, Syntax(6, HEX_DIGIT)) && !Viable(limits, LATE, 6)
  {
    hide NoString, Residual, Document, Viable;
    var e := Syntax(6, HEX_DIGIT);
    assert LATE[1..1] == SpellChars([]) && LATE[3..6] == [0x44, 0x43, 0x30] && LATE[..0] == [];
    LateUnit(LATE, 0, 1, [], e);
    assert BreaksAt(limits, LATE, 0, 1, [], e);
    Begin(limits, LATE, 0);
    StringIsRefused(limits, LATE, 0, START, e);
    assert Offset(e) == Some(6) && Placed(limits, LATE, e);
  }
}
