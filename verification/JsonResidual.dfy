/** What may still follow the bytes a scanner has consumed.

    A scan state (open containers, counts so far) stands for the set of byte sequences that
    complete a document from there. Each move of the scanner consumes some bytes and changes
    the state so that exactly the same completions remain, and each refusal happens in a
    state with no completion. */
module JsonResidual {
  import opened Ascii
  import opened JsonGrammar
  import opened JsonLexing

  /** An open container: its members so far and, for an object, their keys. */
  datatype Frame = ArrayFrame(len: nat) | ObjectFrame(len: nat, keys: set<Text>) {
    function Shape(): Shape { if ArrayFrame? then Array else Object }
    function Keys(): set<Text> { if ArrayFrame? then {} else keys }

    /** The container with one more member, under the key in `k` if it has one. */
    function Grow(k: set<Text>): Frame {
      if ArrayFrame? then ArrayFrame(len + 1) else ObjectFrame(len + 1, keys + k)
    }
  }

  datatype Step = AtValue | AtMember | AfterValue

  /** Innermost container last. */
  datatype State = State(step: Step, frames: seq<Frame>, values: nat, depth: nat)

  function Top(fs: seq<Frame>): Frame
    requires fs != []
  { fs[|fs| - 1] }

  function Pop(fs: seq<Frame>): seq<Frame>
    requires fs != []
  { fs[..|fs| - 1] }

  /** The rest of every open container, innermost first, then the document's last gap. */
  datatype Rest = Trail(gap: Bytes) | Inside(shape: Shape, tail: Tail, outer: Rest)

  function SpellRest(r: Rest): Bytes {
    match r
    case Trail(gap) => gap
    case Inside(s, t, outer) => SpellTail(s, t, SpellRest(outer))
  }

  predicate ValidRest(p: Policy, fs: seq<Frame>, r: Rest) {
    match r
    case Trail(gap) => fs == [] && IsGap(gap)
    case Inside(s, t, outer) =>
      && fs != []
      && s == Top(fs).Shape()
      && ValidTail(p, s, t, Top(fs).len, Top(fs).Keys())
      && ValidRest(p, Pop(fs), outer)
  }

  function NodesRest(r: Rest): nat {
    match r
    case Trail(_) => 0
    case Inside(_, t, outer) => NodesTail(t) + NodesRest(outer)
  }

  function Enclosing(r: Rest): nat {
    match r
    case Trail(_) => 0
    case Inside(_, _, outer) => 1 + Enclosing(outer)
  }

  function HeightRest(r: Rest): nat {
    match r
    case Trail(_) => 0
    case Inside(_, t, outer) => Max(Enclosing(r) + HeightTail(t), HeightRest(outer))
  }

  ghost predicate ParsedAfter(p: Policy, s: State, x: Bytes, z: Size, r: Rest) {
    && x == SpellRest(r)
    && ValidRest(p, s.frames, r)
    && z == Size(s.values + NodesRest(r), Max(s.depth, HeightRest(r)))
  }

  ghost predicate ParsedValue(p: Policy, s: State, x: Bytes, z: Size, v: Value, r: Rest) {
    && x == SpellValue(v, SpellRest(r))
    && ValidValue(p, v)
    && ValidRest(p, s.frames, r)
    && z == Size(s.values + Nodes(v) + NodesRest(r),
                 Max(s.depth, Max(|s.frames| + Height(v), HeightRest(r))))
  }

  ghost predicate ParsedMember(p: Policy, s: State, x: Bytes, z: Size, it: Item, t: Tail, r: Rest) {
    && s.frames != []
    && var f := Top(s.frames);
    && x == SpellItem(it, SpellTail(f.Shape(), t, SpellRest(r)))
    && ValidItem(p, f.Shape(), it, f.len, f.Keys())
    && ValidTail(p, f.Shape(), t, f.len + 1, f.Keys() + Keys(it))
    && ValidRest(p, Pop(s.frames), r)
    && z == Size(s.values + Nodes(it.value) + NodesTail(t) + NodesRest(r),
                 Max(s.depth, Max(|s.frames| + Max(Height(it.value), HeightTail(t)), HeightRest(r))))
  }

  /** `x` completes a document of size `z` from state `s`. */
  ghost predicate Residual(p: Policy, s: State, x: Bytes, z: Size) {
    && FitsSize(p, z)
    && match s.step
       case AtValue => exists v, r :: ParsedValue(p, s, x, z, v, r)
       case AtMember => exists it, t, r :: ParsedMember(p, s, x, z, it, t, r)
       case AfterValue => exists r :: ParsedAfter(p, s, x, z, r)
  }

  /** Reading `c` with `x` ahead takes `s` to `s'`: the completions are the same. */
  ghost predicate Moves(p: Policy, s: State, c: Bytes, x: Bytes, s': State) {
    && (forall z | Residual(p, s, c + x, z) :: Residual(p, s', x, z))
    && (forall y, z | Residual(p, s', y, z) :: Residual(p, s, c + y, z))
  }

  /** Nothing that starts with the bytes ahead completes a document. */
  ghost predicate Stuck(p: Policy, s: State, x: Bytes) {
    forall z :: !Residual(p, s, x, z)
  }

  lemma {:induction false} Enclosed(p: Policy, fs: seq<Frame>, r: Rest)
    requires ValidRest(p, fs, r)
    ensures Enclosing(r) == |fs|
  {
    if r.Inside? {
      Enclosed(p, Pop(fs), r.outer);
    }
  }

  // -------------------------------------------------------------- first bytes

  /** The first byte of a value tells what it is. */
  lemma ValueStart(p: Policy, v: Value, x: Bytes)
    requires ValidValue(p, v)
    ensures var s := SpellValue(v, x);
      && s != [] && !IsSpace(s[0]) && s[0] != 0x5D && s[0] != 0x7D
      && (s[0] == QUOTE <==> v.Atom? && v.token.Quoted?)
      && (s[0] == MINUS || IsDigit(s[0]) <==> v.Atom? && v.token.Numeral?)
      && (s[0] in {0x74, 0x66, 0x6E} <==> v.Atom? && v.token.Word?)
      && (s[0] == OpenByte(Array) <==> !v.Atom? && v.shape.Array?)
      && (s[0] == OpenByte(Object) <==> !v.Atom? && v.shape.Object?)
  {
    var s := SpellValue(v, x);
    match v
    case Atom(t) =>
      if t.Quoted? {
        assert s[0] == SpellQuoted(t.chars)[0];
      } else if t.Numeral? {
        NumberStep(t.number, x);
        assert s[0] == if t.number.minus then MINUS else t.number.whole[0];
      } else {
        assert s[0] == t.word[0];
      }
    case Empty(shape, _) => assert s[0] == OpenByte(shape);
    case Full(shape, _, _, _) => assert s[0] == OpenByte(shape);
  }

  /** A member starts with its key, if it has one, or else with its value. */
  lemma ItemStart(p: Policy, shape: Shape, it: Item, len: nat, keys: set<Text>, x: Bytes)
    requires ValidItem(p, shape, it, len, keys)
    ensures var s := SpellItem(it, x);
      && s != [] && !IsSpace(s[0]) && s[0] != CloseByte(shape)
      && (shape.Object? ==> s[0] == QUOTE)
  {
    ValueStart(p, it.value, x);
  }

  lemma TailStart(p: Policy, shape: Shape, t: Tail, len: nat, keys: set<Text>, x: Bytes)
    requires ValidTail(p, shape, t, len, keys)
    ensures var s := SpellTail(shape, t, x);
      s != [] && (IsSpace(s[0]) || s[0] == COMMA || s[0] == CloseByte(shape))
  {}

  /** What follows a value ends it. */
  lemma RestEndsValue(p: Policy, fs: seq<Frame>, r: Rest)
    requires ValidRest(p, fs, r)
    ensures EndsValue(SpellRest(r))
  {
    match r
    case Trail(_) =>
    case Inside(s, t, outer) => TailStart(p, s, t, Top(fs).len, Top(fs).Keys(), SpellRest(outer));
  }

  // -------------------------------------------------------------------- atoms

  predicate GreedyToken(t: Token, x: Bytes) {
    t.Numeral? ==> Greedy(t.number, x)
  }

  lemma TokenUnique(p: Policy, t: Token, x: Bytes, v: Value, y: Bytes)
    requires ValidToken(p, t) && GreedyToken(t, x)
    requires ValidValue(p, v) && EndsValue(y)
    requires SpellToken(t) + x == SpellValue(v, y)
    ensures v == Atom(t) && x == y
  {
    ValueStart(p, Atom(t), x);
    ValueStart(p, v, y);
    var u := v.token;
    match t
    case Quoted(cs) => QuotedUnique(cs, x, u.chars, y);
    case Numeral(n) =>
      NumberGreedy(u.number, y);
      NumberUnique(n, x, u.number, y);
    case Word(w) =>
      assert (SpellToken(t) + x)[0] == w[0] && SpellValue(v, y)[0] == u.word[0];
      Cancel(w, x, u.word, y);
  }

  lemma AtomMoves(p: Policy, s: State, t: Token, x: Bytes)
    requires s.step.AtValue?
    requires ValidToken(p, t) && GreedyToken(t, x)
    requires s.depth >= |s.frames|
    ensures Moves(p, s, SpellToken(t), x, State(AfterValue, s.frames, s.values + 1, s.depth))
  {
    var s' := State(AfterValue, s.frames, s.values + 1, s.depth);
    var c := SpellToken(t);
    forall z | Residual(p, s, c + x, z) ensures Residual(p, s', x, z) {
      var v, r :| ParsedValue(p, s, c + x, z, v, r);
      RestEndsValue(p, s.frames, r);
      TokenUnique(p, t, x, v, SpellRest(r));
      assert ParsedAfter(p, s', x, z, r);
    }
    forall y, z | Residual(p, s', y, z) ensures Residual(p, s, c + y, z) {
      var r :| ParsedAfter(p, s', y, z, r);
      assert ParsedValue(p, s, c + y, z, Atom(t), r);
    }
  }

  /** No string that `p` admits is spelled at the start of `x`. */
  ghost predicate NoString(p: Policy, x: Bytes) {
    forall cs, y :: ValidQuoted(p, cs) ==> SpellQuoted(cs) + y != x
  }

  /** No number that `p` admits is spelled at the start of `x` and followed by the end of a value. */
  ghost predicate NoNumber(p: Policy, x: Bytes) {
    forall n, y :: ValidNumeral(p, n) && EndsValue(y) ==> SpellNumber(n) + y != x
  }

  ghost predicate NoWord(x: Bytes) {
    forall y :: TRUE + y != x && FALSE + y != x && NULL + y != x
  }

  lemma StuckValue(p: Policy, s: State, x: Bytes)
    requires s.step.AtValue?
    requires || x == []
             || s.values + 1 > p.limits.maxTotalValues
             || (x[0] == QUOTE && NoString(p, x))
             || ((x[0] == MINUS || IsDigit(x[0])) && NoNumber(p, x))
             || (x[0] in {0x74, 0x66, 0x6E} && NoWord(x))
             || ((x[0] == OpenByte(Array) || x[0] == OpenByte(Object)) && |s.frames| >= p.limits.maxDepth)
             || (x[0] != QUOTE && x[0] != MINUS && !IsDigit(x[0]) && x[0] !in {0x74, 0x66, 0x6E}
                 && x[0] != OpenByte(Array) && x[0] != OpenByte(Object))
    ensures Stuck(p, s, x)
  {
    forall z, v, r | FitsSize(p, z) ensures !ParsedValue(p, s, x, z, v, r) {
      if ParsedValue(p, s, x, z, v, r) {
        ValueStart(p, v, SpellRest(r));
        RestEndsValue(p, s.frames, r);
        assert false;
      }
    }
  }

  // ------------------------------------------------------------------- gaps

  /** Prefixes the first gap of a rest. */
  function WidenRest(g: Bytes, r: Rest): Rest {
    match r
    case Trail(gap) => Trail(g + gap)
    case Inside(s, t, outer) => Inside(s, WidenTail(g, t), outer)
  }

  function WidenTail(g: Bytes, t: Tail): Tail {
    match t
    case Close(gap) => Close(g + gap)
    case More(g1, g2, it, rest) => More(g + g1, g2, it, rest)
  }

  lemma WidenRestSpells(p: Policy, fs: seq<Frame>, g: Bytes, r: Rest)
    requires IsGap(g) && ValidRest(p, fs, r)
    ensures SpellRest(WidenRest(g, r)) == g + SpellRest(r)
    ensures ValidRest(p, fs, WidenRest(g, r))
    ensures NodesRest(WidenRest(g, r)) == NodesRest(r) && HeightRest(WidenRest(g, r)) == HeightRest(r)
  {
    match r
    case Trail(_) =>
    case Inside(s, t, outer) =>
      match t
      case Close(gap) => Associative(g, gap, [CloseByte(s)] + SpellRest(outer));
      case More(g1, g2, it, rest) =>
        Associative(g, g1, [COMMA] + (g2 + SpellItem(it, SpellTail(s, rest, SpellRest(outer)))));
  }

  /** Removes the first gap of a rest, which is `g`. */
  lemma NarrowRest(p: Policy, fs: seq<Frame>, g: Bytes, x: Bytes, r: Rest) returns (q: Rest)
    requires IsGap(g) && !StartsWithSpace(x) && ValidRest(p, fs, r)
    requires g + x == SpellRest(r)
    ensures ValidRest(p, fs, q) && SpellRest(q) == x
    ensures NodesRest(q) == NodesRest(r) && HeightRest(q) == HeightRest(r)
  {
    match r
    case Trail(gap) =>
      assert gap + [] == gap;
      GapUnique(g, x, gap, []);
      q := Trail([]);
    case Inside(s, t, outer) =>
      match t
      case Close(gap) =>
        GapUnique(g, x, gap, [CloseByte(s)] + SpellRest(outer));
        q := Inside(s, Close([]), outer);
      case More(g1, g2, it, rest) =>
        GapUnique(g, x, g1, [COMMA] + (g2 + SpellItem(it, SpellTail(s, rest, SpellRest(outer)))));
        q := Inside(s, More([], g2, it, rest), outer);
  }

  lemma GapMoves(p: Policy, s: State, g: Bytes, x: Bytes)
    requires s.step.AfterValue?
    requires IsGap(g) && !StartsWithSpace(x)
    ensures Moves(p, s, g, x, s)
  {
    forall z | Residual(p, s, g + x, z) ensures Residual(p, s, x, z) {
      var r :| ParsedAfter(p, s, g + x, z, r);
      var q := NarrowRest(p, s.frames, g, x, r);
      assert ParsedAfter(p, s, x, z, q);
    }
    forall y, z | Residual(p, s, y, z) ensures Residual(p, s, g + y, z) {
      var r :| ParsedAfter(p, s, y, z, r);
      WidenRestSpells(p, s.frames, g, r);
      assert ParsedAfter(p, s, g + y, z, WidenRest(g, r));
    }
  }

  // -------------------------------------------------------------- containers

  function Opened(s: State, shape: Shape): State {
    State(AtMember,
          s.frames + [if shape.Array? then ArrayFrame(0) else ObjectFrame(0, {})],
          s.values + 1,
          Max(s.depth, |s.frames| + 1))
  }

  lemma OpenMoves(p: Policy, s: State, shape: Shape, g: Bytes, x: Bytes)
    requires s.step.AtValue?
    requires IsGap(g) && !StartsWithSpace(x) && !Starts(x, CloseByte(shape))
    ensures Moves(p, s, [OpenByte(shape)] + g, x, Opened(s, shape))
  {
    hide SpellItem, SpellTail, SpellRest, ValidRest;
    var s' := Opened(s, shape);
    assert Pop(s'.frames) == s.frames && Top(s'.frames).Shape() == shape && Top(s'.frames).len == 0;
    assert Top(s'.frames).Keys() == {};
    var c := [OpenByte(shape)] + g;
    forall z | Residual(p, s, c + x, z) ensures Residual(p, s', x, z) {
      var v, r :| ParsedValue(p, s, c + x, z, v, r);
      Associative([OpenByte(shape)], g, x);
      var it, t := OpenedValue(p, shape, g, x, v, SpellRest(r));
      assert {} + Keys(it) == Keys(it);
      assert ParsedMember(p, s', x, z, it, t, r);
    }
    forall y, z | Residual(p, s', y, z) ensures Residual(p, s, c + y, z) {
      var it, t, r :| ParsedMember(p, s', y, z, it, t, r);
      Associative([OpenByte(shape)], g, y);
      assert {} + Keys(it) == Keys(it);
      assert ParsedValue(p, s, c + y, z, Full(shape, g, it, t), r);
    }
  }

  lemma OpenedValue(p: Policy, shape: Shape, g: Bytes, x: Bytes, v: Value, y: Bytes) returns (it: Item, t: Tail)
    requires IsGap(g) && !StartsWithSpace(x) && !Starts(x, CloseByte(shape))
    requires ValidValue(p, v)
    requires [OpenByte(shape)] + (g + x) == SpellValue(v, y)
    ensures v == Full(shape, g, it, t) && ValidItem(p, shape, it, 0, {})
    ensures x == SpellItem(it, SpellTail(shape, t, y))
  {
    ValueStart(p, v, y);
    assert ([OpenByte(shape)] + (g + x))[0] == OpenByte(shape);
    if v.Empty? {
      Cancel([OpenByte(shape)], g + x, [OpenByte(shape)], v.gap + ([CloseByte(shape)] + y));
      GapUnique(g, x, v.gap, [CloseByte(shape)] + y);
      assert false;
    }
    it, t := v.first, v.rest;
    ItemStart(p, shape, it, 0, {}, SpellTail(shape, t, y));
    Cancel([OpenByte(shape)], g + x, [OpenByte(shape)], v.gap + SpellItem(it, SpellTail(shape, t, y)));
    GapUnique(g, x, v.gap, SpellItem(it, SpellTail(shape, t, y)));
  }

  lemma EmptyMoves(p: Policy, s: State, shape: Shape, g: Bytes, x: Bytes)
    requires s.step.AtValue?
    requires IsGap(g)
    ensures Moves(p, s, [OpenByte(shape)] + g + [CloseByte(shape)], x,
                  State(AfterValue, s.frames, s.values + 1, Max(s.depth, |s.frames| + 1)))
  {
    var s' := State(AfterValue, s.frames, s.values + 1, Max(s.depth, |s.frames| + 1));
    var c := [OpenByte(shape)] + g + [CloseByte(shape)];
    forall z | Residual(p, s, c + x, z) ensures Residual(p, s', x, z) {
      var v, r :| ParsedValue(p, s, c + x, z, v, r);
      BracketsAround(shape, g, x);
      EmptiedValue(p, shape, g, x, v, SpellRest(r));
      assert ParsedAfter(p, s', x, z, r);
    }
    forall y, z | Residual(p, s', y, z) ensures Residual(p, s, c + y, z) {
      var r :| ParsedAfter(p, s', y, z, r);
      BracketsAround(shape, g, y);
      assert ParsedValue(p, s, c + y, z, Empty(shape, g), r);
    }
  }

  lemma BracketsAround(shape: Shape, g: Bytes, x: Bytes)
    ensures ([OpenByte(shape)] + g + [CloseByte(shape)]) + x == [OpenByte(shape)] + (g + ([CloseByte(shape)] + x))
  {
    Associative([OpenByte(shape)] + g, [CloseByte(shape)], x);
    Associative([OpenByte(shape)], g, [CloseByte(shape)] + x);
  }

  lemma EmptiedValue(p: Policy, shape: Shape, g: Bytes, x: Bytes, v: Value, y: Bytes)
    requires IsGap(g) && ValidValue(p, v)
    requires [OpenByte(shape)] + (g + ([CloseByte(shape)] + x)) == SpellValue(v, y)
    ensures v == Empty(shape, g) && x == y
  {
    ValueStart(p, v, y);
    var cx := [CloseByte(shape)] + x;
    assert ([OpenByte(shape)] + (g + cx))[0] == OpenByte(shape);
    var inner := if v.Empty? then [CloseByte(shape)] + y else SpellItem(v.first, SpellTail(shape, v.rest, y));
    if v.Full? {
      ItemStart(p, shape, v.first, 0, {}, SpellTail(shape, v.rest, y));
    }
    Cancel([OpenByte(shape)], g + cx, [OpenByte(shape)], v.gap + inner);
    GapUnique(g, cx, v.gap, inner);
    assert cx[0] == CloseByte(shape);
    Cancel([CloseByte(shape)], x, [CloseByte(shape)], y);
  }

  lemma CommaMoves(p: Policy, s: State, g: Bytes, x: Bytes)
    requires s.step.AfterValue? && s.frames != []
    requires IsGap(g) && !StartsWithSpace(x)
    requires s.depth >= |s.frames|
    ensures Moves(p, s, [COMMA] + g, x, s.(step := AtMember))
  {
    hide ValidItem, ValidValue, SpellItem, SpellValue;
    var s' := s.(step := AtMember);
    var c := [COMMA] + g;
    var shape := Top(s.frames).Shape();
    forall z | Residual(p, s, c + x, z) ensures Residual(p, s', x, z) {
      var r :| ParsedAfter(p, s, c + x, z, r);
      Enclosed(p, s.frames, r);
      Associative([COMMA], g, x);
      MoreTail(p, shape, g, x, r.tail, Top(s.frames).len, Top(s.frames).Keys(), SpellRest(r.outer));
      assert ParsedMember(p, s', x, z, r.tail.item, r.tail.rest, r.outer);
    }
    forall y, z | Residual(p, s', y, z) ensures Residual(p, s, c + y, z) {
      var it, t, r :| ParsedMember(p, s', y, z, it, t, r);
      var q := Inside(shape, More([], g, it, t), r);
      Associative([COMMA], g, y);
      assert SpellRest(q) == c + y;
      assert ValidRest(p, s.frames, q);
      Enclosed(p, s.frames, q);
      assert ParsedAfter(p, s, c + y, z, q);
    }
  }

  lemma MoreTail(p: Policy, shape: Shape, g: Bytes, x: Bytes, t: Tail, len: nat, keys: set<Text>, y: Bytes)
    requires IsGap(g) && !StartsWithSpace(x)
    requires ValidTail(p, shape, t, len, keys)
    requires [COMMA] + (g + x) == SpellTail(shape, t, y)
    ensures t.More? && t.beforeComma == [] && t.afterComma == g
    ensures x == SpellItem(t.item, SpellTail(shape, t.rest, y))
  {
    var cx := [COMMA] + (g + x);
    assert [] + cx == cx;
    AfterGap(shape, t, [], cx, y);
    match t
    case More(g1, g2, it, rest) =>
      var inner := SpellItem(it, SpellTail(shape, rest, y));
      GapUnique([], cx, g1, [COMMA] + (g2 + inner));
      Cancel([COMMA], g + x, [COMMA], g2 + inner);
      ItemStart(p, shape, it, len, keys, SpellTail(shape, rest, y));
      GapUnique(g, x, g2, inner);
  }

  lemma CloseMoves(p: Policy, s: State, x: Bytes)
    requires s.step.AfterValue? && s.frames != []
    requires s.depth >= |s.frames|
    ensures Moves(p, s, [CloseByte(Top(s.frames).Shape())], x, s.(frames := Pop(s.frames)))
  {
    var s' := s.(frames := Pop(s.frames));
    var shape := Top(s.frames).Shape();
    var c := [CloseByte(shape)];
    forall z | Residual(p, s, c + x, z) ensures Residual(p, s', x, z) {
      var r :| ParsedAfter(p, s, c + x, z, r);
      Enclosed(p, s.frames, r);
      ClosedTail(shape, x, p, r.tail, Top(s.frames).len, Top(s.frames).Keys(), SpellRest(r.outer));
      assert ParsedAfter(p, s', x, z, r.outer);
    }
    forall y, z | Residual(p, s', y, z) ensures Residual(p, s, c + y, z) {
      var r :| ParsedAfter(p, s', y, z, r);
      var q := Inside(shape, Close([]), r);
      assert [] + (c + y) == c + y;
      Enclosed(p, s.frames, q);
      assert ParsedAfter(p, s, c + y, z, q);
    }
  }

  lemma ClosedTail(shape: Shape, x: Bytes, p: Policy, t: Tail, len: nat, keys: set<Text>, y: Bytes)
    requires ValidTail(p, shape, t, len, keys)
    requires [CloseByte(shape)] + x == SpellTail(shape, t, y)
    ensures t == Close([]) && x == y
  {
    var cx := [CloseByte(shape)] + x;
    assert [] + cx == cx;
    AfterGap(shape, t, [], cx, y);
    match t
    case Close(gap) =>
      GapUnique([], cx, gap, [CloseByte(shape)] + y);
      Cancel([CloseByte(shape)], x, [CloseByte(shape)], y);
  }

  /** The first byte past a tail's gap tells whether another member follows. */
  lemma AfterGap(shape: Shape, t: Tail, g: Bytes, x: Bytes, y: Bytes)
    requires IsGap(g) && IsGap(if t.Close? then t.gap else t.beforeComma)
    requires !StartsWithSpace(x)
    requires g + x == SpellTail(shape, t, y)
    ensures x != [] && x[0] == if t.Close? then CloseByte(shape) else COMMA
  {
    match t
    case Close(gap) => GapUnique(g, x, gap, [CloseByte(shape)] + y);
    case More(g1, g2, it, rest) =>
      GapUnique(g, x, g1, [COMMA] + (g2 + SpellItem(it, SpellTail(shape, rest, y))));
  }

  lemma StuckAfter(p: Policy, s: State, x: Bytes)
    requires s.step.AfterValue?
    requires !StartsWithSpace(x)
    requires if s.frames == [] then x != []
             else !Starts(x, COMMA) && !Starts(x, CloseByte(Top(s.frames).Shape()))
    ensures Stuck(p, s, x)
  {
    forall z, r ensures !ParsedAfter(p, s, x, z, r) {
      if ParsedAfter(p, s, x, z, r) && r.Inside? {
        TailStart(p, r.shape, r.tail, Top(s.frames).len, Top(s.frames).Keys(), SpellRest(r.outer));
      }
    }
  }

  // ----------------------------------------------------------------- members

  function Entered(s: State, k: set<Text>): State
    requires s.frames != []
  {
    State(AtValue, Pop(s.frames) + [Top(s.frames).Grow(k)], s.values, s.depth)
  }

  /** A member's value is what remains once its label is read. */
  lemma EnterMoves(p: Policy, s: State, head: Label, c: Bytes, x: Bytes)
    requires s.step.AtMember? && s.frames != []
    requires ValidLabel(p, Top(s.frames).Shape(), head)
    requires Top(s.frames).len + 1 <= p.limits.maxCollectionLen
    requires head.Unlabelled? ==> c == []
    requires head.Labelled? ==>
               && !StartsWithSpace(x)
               && c == SpellQuoted(head.key) + (head.beforeColon + ([COLON] + head.afterColon))
               && (p.distinctKeys ==> Decode(head.key) !in Top(s.frames).Keys())
    requires s.depth >= |s.frames|
    ensures Moves(p, s, c, x, Entered(s, if head.Labelled? then {Decode(head.key)} else {}))
  {
    var k := if head.Labelled? then {Decode(head.key)} else {};
    var s' := Entered(s, k);
    forall z | Residual(p, s, c + x, z) ensures Residual(p, s', x, z) {
      var it, t, r :| ParsedMember(p, s, c + x, z, it, t, r);
      Enters(p, s, head, c, x, z, it, t, r);
    }
    forall y, z | Residual(p, s', y, z) ensures Residual(p, s, c + y, z) {
      var v, q :| ParsedValue(p, s', y, z, v, q);
      Leaves(p, s, head, c, y, z, v, q);
    }
  }

  /** The member ahead is the value behind the label. */
  lemma Enters(p: Policy, s: State, head: Label, c: Bytes, x: Bytes, z: Size, it: Item, t: Tail, r: Rest)
    requires s.step.AtMember? && s.frames != [] && s.depth >= |s.frames|
    requires ValidLabel(p, Top(s.frames).Shape(), head)
    requires head.Unlabelled? ==> c == []
    requires head.Labelled? ==>
               && !StartsWithSpace(x)
               && c == SpellQuoted(head.key) + (head.beforeColon + ([COLON] + head.afterColon))
    requires ParsedMember(p, s, c + x, z, it, t, r)
    ensures ParsedValue(p, Entered(s, if head.Labelled? then {Decode(head.key)} else {}), x, z, it.value,
                        Inside(Top(s.frames).Shape(), t, r))
  {
    hide SpellValue, SpellItem, SpellQuoted, SpellChars;
    var k := if head.Labelled? then {Decode(head.key)} else {};
    var s' := Entered(s, k);
    var f := Top(s.frames);
    GrowHolds(s, k);
    LabelUnique(p, f.Shape(), head, c, x, it, f.len, f.Keys(), SpellTail(f.Shape(), t, SpellRest(r)));
    var q := Inside(f.Shape(), t, r);
    assert Keys(it) == k;
    assert ValidRest(p, s'.frames, q);
    Enclosed(p, s'.frames, q);
    assert NodesRest(q) == NodesTail(t) + NodesRest(r);
    assert HeightRest(q) == Max(|s.frames| + HeightTail(t), HeightRest(r));
  }

  /** A value ahead is a member behind the label. */
  lemma Leaves(p: Policy, s: State, head: Label, c: Bytes, y: Bytes, z: Size, v: Value, q: Rest)
    requires s.step.AtMember? && s.frames != []
    requires ValidLabel(p, Top(s.frames).Shape(), head)
    requires Top(s.frames).len + 1 <= p.limits.maxCollectionLen
    requires head.Unlabelled? ==> c == []
    requires head.Labelled? ==>
               && c == SpellQuoted(head.key) + (head.beforeColon + ([COLON] + head.afterColon))
               && (p.distinctKeys ==> Decode(head.key) !in Top(s.frames).Keys())
    requires ParsedValue(p, Entered(s, if head.Labelled? then {Decode(head.key)} else {}), y, z, v, q)
    ensures q.Inside? && ParsedMember(p, s, c + y, z, Item(head, v), q.tail, q.outer)
  {
    var k := if head.Labelled? then {Decode(head.key)} else {};
    var f := Top(s.frames);
    GrowHolds(s, k);
    Enclosed(p, Entered(s, k).frames, q);
    LabelSpells(head, c, y, v, SpellTail(f.Shape(), q.tail, SpellRest(q.outer)));
    assert Keys(Item(head, v)) == k;
  }

  lemma GrowHolds(s: State, k: set<Text>)
    requires s.frames != [] && (Top(s.frames).ArrayFrame? ==> k == {})
    ensures var f, fs := Top(s.frames), Entered(s, k).frames;
      && fs != [] && Pop(fs) == Pop(s.frames) && Top(fs) == f.Grow(k) && |fs| == |s.frames|
      && f.Grow(k).Shape() == f.Shape() && f.Grow(k).len == f.len + 1 && f.Grow(k).Keys() == f.Keys() + k
  {}

  lemma LabelSpells(head: Label, c: Bytes, y: Bytes, v: Value, after: Bytes)
    requires y == SpellValue(v, after)
    requires head.Unlabelled? ==> c == []
    requires head.Labelled? ==> c == SpellQuoted(head.key) + (head.beforeColon + ([COLON] + head.afterColon))
    ensures c + y == SpellItem(Item(head, v), after)
  {
    match head
    case Unlabelled => assert [] + y == y;
    case Labelled(key, g1, g2) =>
      Associative(SpellQuoted(key), g1 + ([COLON] + g2), y);
      Associative(g1, [COLON] + g2, y);
      Associative([COLON], g2, y);
  }

  lemma LabelUnique(p: Policy, shape: Shape, head: Label, c: Bytes, x: Bytes, it: Item, len: nat, keys: set<Text>, after: Bytes)
    requires ValidLabel(p, shape, head)
    requires head.Unlabelled? ==> c == []
    requires head.Labelled? ==>
               && !StartsWithSpace(x)
               && c == SpellQuoted(head.key) + (head.beforeColon + ([COLON] + head.afterColon))
    requires ValidItem(p, shape, it, len, keys)
    requires c + x == SpellItem(it, after)
    ensures it.head == head && x == SpellValue(it.value, after)
  {
    var y := SpellValue(it.value, after);
    ValueStart(p, it.value, after);
    match head
    case Unlabelled => assert [] + x == x;
    case Labelled(key, g1, g2) =>
      Associative(SpellQuoted(key), g1 + ([COLON] + g2), x);
      Associative(g1, [COLON] + g2, x);
      Associative([COLON], g2, x);
      var h := it.head;
      QuotedUnique(key, g1 + ([COLON] + (g2 + x)), h.key, h.beforeColon + ([COLON] + (h.afterColon + y)));
      GapUnique(g1, [COLON] + (g2 + x), h.beforeColon, [COLON] + (h.afterColon + y));
      Cancel([COLON], g2 + x, [COLON], h.afterColon + y);
      GapUnique(g2, x, h.afterColon, y);
  }

  lemma StuckMember(p: Policy, s: State, x: Bytes)
    requires s.step.AtMember? && s.frames != []
    requires || Top(s.frames).len + 1 > p.limits.maxCollectionLen
             || (Top(s.frames).ObjectFrame? && (!Starts(x, QUOTE) || NoString(p, x)))
    ensures Stuck(p, s, x)
  {
    hide SpellTail, SpellRest, ValidTail, ValidRest, ValidValue, SpellChars;
    forall z, it, t, r ensures !ParsedMember(p, s, x, z, it, t, r) {
      if ParsedMember(p, s, x, z, it, t, r) {
        var f := Top(s.frames);
        ItemStart(p, f.Shape(), it, f.len, f.Keys(), SpellTail(f.Shape(), t, SpellRest(r)));
      }
    }
  }

  /** A key may be read and still lead nowhere: it repeats another, or no colon follows. */
  lemma StuckKey(p: Policy, s: State, key: seq<Char>, g: Bytes, x: Bytes)
    requires s.step.AtMember? && s.frames != [] && Top(s.frames).ObjectFrame?
    requires ValidChars(key) && IsGap(g)
    requires || (p.distinctKeys && Decode(key) in Top(s.frames).Keys())
             || (!StartsWithSpace(x) && !Starts(x, COLON))
    ensures Stuck(p, s, SpellQuoted(key) + (g + x))
  {
    var kx := SpellQuoted(key) + (g + x);
    forall z, it, t, r ensures !ParsedMember(p, s, kx, z, it, t, r) {
      if ParsedMember(p, s, kx, z, it, t, r) {
        var h := it.head;
        var f := Top(s.frames);
        var y := [COLON] + (h.afterColon + SpellValue(it.value, SpellTail(f.Shape(), t, SpellRest(r))));
        QuotedUnique(key, g + x, h.key, h.beforeColon + y);
        assert Decode(key) in Keys(it);
        if !StartsWithSpace(x) {
          GapUnique(g, x, h.beforeColon, y);
        }
      }
    }
  }

  // --------------------------------------------------------------- documents

  const START := State(AtValue, [], 0, 0)

  /** A document's first gap leads to its value. */
  lemma StartMoves(p: Policy, g: Bytes, x: Bytes, z: Size)
    requires IsGap(g)
    ensures Residual(p, START, x, z) ==> Document(p, g + x, z)
    ensures !StartsWithSpace(x) && Document(p, g + x, z) ==> Residual(p, START, x, z)
  {
    if Residual(p, START, x, z) {
      var v, r :| ParsedValue(p, START, x, z, v, r);
      assert IsTree(p, g + x, z, g, v, r.gap);
    }
    if !StartsWithSpace(x) && Document(p, g + x, z) {
      var lead, v, trail :| IsTree(p, g + x, z, lead, v, trail);
      ValueStart(p, v, trail);
      GapUnique(g, x, lead, SpellValue(v, trail));
      assert ParsedValue(p, START, x, z, v, Trail(trail));
    }
  }

  /** Whitespace alone is no document. */
  lemma GapIsNoDocument(p: Policy, g: Bytes, z: Size)
    requires IsGap(g)
    ensures !Document(p, g, z)
  {
    assert g + [] == g;
    StartMoves(p, g, [], z);
    StuckValue(p, START, []);
  }

  /** With every container closed and nothing ahead, the document is complete. */
  lemma Complete(p: Policy, s: State, z: Size)
    requires s.step.AfterValue? && s.frames == []
    requires FitsSize(p, Size(s.values, s.depth))
    ensures Residual(p, s, [], z) <==> z == Size(s.values, s.depth)
  {
    if Residual(p, s, [], z) {
      var r :| ParsedAfter(p, s, [], z, r);
      assert r == Trail([]);
    }
    assert ParsedAfter(p, s, [], Size(s.values, s.depth), Trail([]));
  }
}
