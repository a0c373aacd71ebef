/** The bounded JSON scanner: one pass over bytes, without recursion, that refuses a text at
    the byte where it leaves the grammar or a limit (crates/rustev-contract/src/bounded.rs). */
module Bounded {
  import opened Wrappers
  import opened Ascii
  import opened JsonGrammar
  import opened JsonLexing
  import opened JsonResidual
  import opened ScanErrors
  import opened ScanHalts
  import opened ScanTokens
  import opened ScanTracking
  import opened ScanViability
  import opened ScanRefusal

  class Scanner {
    const b: Bytes
    const limits: ParseLimits
    var pos: nat
    var stack: seq<Frame>
    var values: nat
    var maxDepthSeen: nat

    constructor (b: Bytes, limits: ParseLimits)
      ensures this.b == b && this.limits == limits
      ensures pos == 0 && stack == [] && values == 0 && maxDepthSeen == 0
    {
      this.b := b;
      this.limits := limits;
      pos, stack, values, maxDepthSeen := 0, [], 0, 0;
    }

    function At(step: Step): State
      reads this
    { State(step, stack, values, maxDepthSeen) }

    /** What was consumed has led to the scanner's state, about to take `step`, and the keys
        it holds take no more room than the bytes they were read from. */
    ghost predicate On(step: Step)
      reads this
    { pos <= |b| && OnTrack(limits, b, pos, At(step)) && KeyBytes(stack) <= pos }

    function Peek(): Option<Byte>
      reads this
      requires pos <= |b|
    { if pos < |b| then Some(b[pos]) else None }

    method SkipWs()
      requires pos <= |b|
      modifies this`pos
      ensures old(pos) <= pos <= |b|
      ensures IsGap(b[old(pos)..pos]) && !StartsWithSpace(b[pos..])
    {
      while pos < |b| && IsSpace(b[pos])
        invariant old(pos) <= pos <= |b|
        invariant IsGap(b[old(pos)..pos])
      {
        assert b[old(pos)..pos + 1] == b[old(pos)..pos] + [b[pos]];
        pos := pos + 1;
      }
    }

    method Hex4Digits() returns (r: Result<nat>)
      requires pos <= |b|
      modifies this`pos
      ensures old(pos) <= pos <= |b| && pos <= old(pos) + 4
      ensures forall i | old(pos) <= i < pos :: IsHex(b[i])
      ensures r.Ok? ==> Hex4At(b, old(pos)) && pos == old(pos) + 4 && r.value == Hex4(b[old(pos)..pos])
      ensures r.Err? ==> r.error == Syntax(pos, HEX_DIGIT) && !Hex4At(b, old(pos)) && pos < old(pos) + 4
      ensures r.Err? ==> pos == |b| || !IsHex(b[pos])
    {
      var v := 0;
      var i := 0;
      var start := pos;
      while i < 4
        invariant 0 <= i <= 4 && pos == start + i <= |b|
        invariant forall k | start <= k < pos :: IsHex(b[k])
        invariant i == 1 ==> v == HexDigit(b[start])
        invariant i == 2 ==> v == HexDigit(b[start]) * 16 + HexDigit(b[start + 1])
        invariant i == 3 ==> v == (HexDigit(b[start]) * 16 + HexDigit(b[start + 1])) * 16 + HexDigit(b[start + 2])
        invariant i == 4 ==> v == Hex4([b[start], b[start + 1], b[start + 2], b[start + 3]])
        invariant i == 0 ==> v == 0
      {
        if pos == |b| || !IsHex(b[pos]) {
          assert start + 4 <= |b| ==> b[start..start + 4][i] == b[pos];
          return Err(Syntax(pos, HEX_DIGIT));
        }
        v := v * 16 + HexDigit(b[pos]);
        pos := pos + 1;
        i := i + 1;
      }
      assert b[start..pos] == [b[start], b[start + 1], b[start + 2], b[start + 3]];
      return Ok(v);
    }

    method CheckNumberLen(start: nat) returns (r: Result<()>)
      requires start <= pos
      ensures r.Err? <==> pos - start > limits.maxNumberBytes
      ensures r.Err? ==> r.error == NumberTooLong(limits.maxNumberBytes, start)
    {
      if pos - start > limits.maxNumberBytes {
        return Err(NumberTooLong(limits.maxNumberBytes, start));
      }
      return Ok(());
    }

    method Digits(start: nat) returns (r: Result<nat>)
      requires start <= pos <= |b| && pos - start <= limits.maxNumberBytes
      modifies this`pos
      ensures old(pos) <= pos <= |b|
      ensures r.Ok? ==> pos == old(pos) + r.value && r.value == DigitRun(b[old(pos)..])
                        && pos - start <= limits.maxNumberBytes
      ensures r.Err? ==> r.error == NumberTooLong(limits.maxNumberBytes, start)
                         && limits.maxNumberBytes < pos - start
                         && pos <= old(pos) + DigitRun(b[old(pos)..])
    {
      var n := 0;
      while pos < |b| && IsDigit(b[pos])
        invariant pos == old(pos) + n <= |b|
        invariant DigitRun(b[old(pos)..]) == n + DigitRun(b[pos..])
        invariant pos - start <= limits.maxNumberBytes
      {
        assert b[pos..][1..] == b[pos + 1..];
        pos := pos + 1;
        n := n + 1;
        var _ :- CheckNumberLen(start);
      }
      return Ok(n);
    }

    /** Reads the longest number ahead. */
    method Number() returns (r: Result<()>, ghost n: JsonGrammar.Number)
      requires pos <= |b|
      modifies this`pos
      ensures old(pos) <= pos <= |b|
      ensures r.Ok? ==> b[old(pos)..pos] == SpellNumber(n)
                        && ValidNumeral(Policy(limits, true), n) && Greedy(n, b[pos..])
      ensures r.Err? ==> NumberHalts(limits, b, old(pos), r.error)
    {
      n := JsonGrammar.Number(false, [], None, None);
      ghost var s := b[pos..];
      r := NumberParts(pos);
      if r.Err? {
        return;
      }
      n := NumberAt(s);
      NumberRead(limits, b, old(pos), pos);
    }

    method NumberParts(start: nat) returns (r: Result<()>)
      requires start == pos <= |b|
      modifies this`pos
      ensures start <= pos <= |b|
      ensures r.Ok? ==> b[pos..] == AfterExp(b[start..]) && !BrokenNumber(Policy(limits, true), b[start..])
      ensures r.Err? ==> NumberHalts(limits, b, start, r.error)
    {
      hide Reports, PartFault, PartStops, BrokenNumber, SignLength, WholeLength, FracLength, ExpLength, Starts, StartsExponent,
           FracInOrder, ExpInOrder;
      ghost var s := b[start..];
      r := SignPart(start);
      if r.Ok? {
        r := WholePart(start);
        if r.Ok? {
          r := FracPart(start);
          if r.Ok? {
            r := ExpPart(start);
            if r.Ok? {
              AllPartsRead(limits, s);
            }
          }
        }
      }
    }

    // The parts of `number`, each with what it leaves ahead.

    method SignPart(start: nat) returns (r: Result<()>)
      requires start == pos <= |b|
      modifies this`pos
      ensures old(pos) <= pos <= |b|
      ensures var s := b[old(pos)..];
        && (r.Ok? ==> b[pos..] == AfterSign(s) && pos - start <= limits.maxNumberBytes)
        && (r.Err? ==> Reports(limits, b, r.error) && PartFault(limits, r.error, 0, SignLength(s), true, false)
                       && PartStops(r.error, start, start, 0))
    {
      if pos < |b| && b[pos] == MINUS {
        pos := pos + 1;
        var _ :- CheckNumberLen(start);
      }
      return Ok(());
    }

    method WholePart(start: nat) returns (r: Result<()>)
      requires start <= pos <= |b| && pos - start <= limits.maxNumberBytes
      modifies this`pos
      ensures old(pos) <= pos <= |b|
      ensures var w := b[old(pos)..];
        && (r.Ok? ==> b[pos..] == w[WholeLength(w)..] && WholeLength(w) > 0 && pos - start <= limits.maxNumberBytes)
        && (r.Err? ==> Reports(limits, b, r.error)
                       && PartFault(limits, r.error, old(pos) - start, WholeLength(w), WholeLength(w) > 0, false)
                       && PartStops(r.error, start, old(pos), 0))
    {
      if pos < |b| && b[pos] == 0x30 {
        pos := pos + 1;
        var _ :- CheckNumberLen(start);
      } else if pos < |b| && 0x31 <= b[pos] <= 0x39 {
        var _ :- Digits(start);
      } else {
        return Err(Syntax(pos, "digit"));
      }
      return Ok(());
    }

    method FracPart(start: nat) returns (r: Result<()>)
      requires start <= pos <= |b| && pos - start <= limits.maxNumberBytes
      modifies this`pos
      ensures old(pos) <= pos <= |b|
      ensures var f := b[old(pos)..];
        && (r.Ok? ==> b[pos..] == f[FracLength(f)..] && FracInOrder(f) && pos - start <= limits.maxNumberBytes
                      && (Starts(f, POINT) ==> limits.allowFractionalNumbers))
        && (r.Err? ==> Reports(limits, b, r.error)
                       && PartFault(limits, r.error, old(pos) - start, FracLength(f), FracInOrder(f), Starts(f, POINT))
                       && PartStops(r.error, start, old(pos), 1))
    {
      ghost var f := b[pos..];
      PartFaults(limits, b, start, pos - start, FracLength(f), FracInOrder(f), Starts(f, POINT));
      hide Reports, PartFault;
      if pos < |b| && b[pos] == POINT {
        if !limits.allowFractionalNumbers {
          return Err(FractionalNumber(pos));
        }
        pos := pos + 1;
        assert b[pos..] == f[1..];
        var _ :- CheckNumberLen(start);
        var d :- Digits(start);
        if d == 0 {
          return Err(Syntax(pos, "digit"));
        }
      }
      return Ok(());
    }

    /** The sign of an exponent, after its mark. */
    method ExpSign(start: nat, ghost at: nat) returns (r: Result<()>)
      requires start < at == pos <= |b| && pos - start <= limits.maxNumberBytes
      modifies this`pos
      ensures at <= pos <= |b|
      ensures var signed := StartsWithSign(b[at..]);
        && pos == at + (if signed then 1 else 0)
        && (r.Ok? ==> pos - start <= limits.maxNumberBytes)
        && (r.Err? ==> r.error == NumberTooLong(limits.maxNumberBytes, start) && signed && at + 1 - start > limits.maxNumberBytes)
    {
      if pos < |b| && (b[pos] == PLUS || b[pos] == MINUS) {
        pos := pos + 1;
        var _ :- CheckNumberLen(start);
      }
      return Ok(());
    }

    method ExpPart(start: nat) returns (r: Result<()>)
      requires start <= pos <= |b| && pos - start <= limits.maxNumberBytes
      modifies this`pos
      ensures old(pos) <= pos <= |b|
      ensures ExpRead(limits, b, start, old(pos), pos, r)
    {
      hide ExpRead, ExpLength, DigitRun;
      ghost var from := pos;
      ExpAhead(limits, b, start, from);
      if pos < |b| && (b[pos] == 0x65 || b[pos] == 0x45) {
        if !limits.allowFractionalNumbers {
          return Err(FractionalNumber(pos));
        }
        pos := pos + 1;
        var _ :- CheckNumberLen(start);
        var _ :- ExpSign(start, pos);
        assert pos == from + ExpMark(b, from);
        var d :- Digits(start);
        if d == 0 {
          return Err(Syntax(pos, "digit"));
        }
      }
      return Ok(());
    }

    /** Reads one escape, positioned at its backslash. */
    method Escape() returns (r: Result<int>, ghost c: Char)
      requires pos < |b| && b[pos] == BACKSLASH
      modifies this`pos
      ensures old(pos) <= pos <= |b|
      ensures r.Ok? ==> pos > old(pos) && ValidChar(c) && b[old(pos)..pos] == SpellChar(c) && r.value == DecodeChar(c)
      ensures r.Err? ==> CharHalts(b, old(pos), r.error)
    {
      hide DigitMissing, Unpaired;
      c := Plain(0x20);
      var at := pos;
      pos := pos + 1;
      if pos == |b| {
        return Err(Syntax(pos, "escape character")), c;
      }
      var l := b[pos];
      if l == LOWER_U {
        pos := pos + 1;
        r, c := UnicodeEscape(at);
        return;
      }
      if !IsEscapeLetter(l) {
        return Err(Syntax(pos, "escape character")), c;
      }
      pos := pos + 1;
      c := Escaped(l);
      assert b[at..pos] == SpellChar(c);
      return Ok(EscapeMeaning(l)), c;
    }

    /** Reads the digits of the escape that starts at `at`, and of the surrogate it needs. */
    method UnicodeEscape(at: nat) returns (r: Result<int>, ghost c: Char)
      requires at + 2 == pos <= |b| && b[at] == BACKSLASH && b[at + 1] == LOWER_U
      modifies this`pos
      ensures old(pos) <= pos <= |b|
      ensures r.Ok? ==> ValidChar(c) && b[at..pos] == SpellChar(c) && r.value == DecodeChar(c)
      ensures r.Err? ==> CharHalts(b, at, r.error)
    {
      hide CharHalts, Hex4;
      c := Plain(0x20);
      var high := Hex4Digits();
      if high.Err? {
        DigitHalts(b, at, pos);
        return Err(high.error), c;
      }
      UnpairedHalts(b, at);
      var hi := high.value;
      if IsHighSurrogate(hi) {
        if !EscapeAt(b, pos) {
          return Err(Syntax(at, PAIR)), c;
        }
        pos := pos + 2;
        var low := Hex4Digits();
        if low.Err? {
          DigitHalts(b, at, pos);
          return Err(low.error), c;
        }
        var lo := low.value;
        if !IsLowSurrogate(lo) {
          return Err(Syntax(at, PAIR)), c;
        }
        c := Surrogates(b[at + 2..at + 6], b[at + 8..at + 12]);
        PairSpells(b, at);
        return Ok(0x10000 + (hi - 0xD800) * 0x400 + (lo - 0xDC00)), c;
      }
      if IsLowSurrogate(hi) {
        return Err(Syntax(at, PAIR)), c;
      }
      c := Unicode(b[at + 2..at + 6]);
      assert b[at..pos] == SpellChar(c);
      return Ok(hi), c;
    }

    /** Reads one character beyond ASCII, positioned at its first byte. */
    method Multibyte() returns (r: Result<Text>, ghost c: Char)
      requires pos < |b| && b[pos] >= 0x80
      modifies this`pos
      ensures old(pos) <= pos <= |b|
      ensures r.Ok? ==> pos > old(pos) && ValidChar(c) && b[old(pos)..pos] == SpellChar(c) && r.value == [DecodeChar(c)]
      ensures r.Err? ==> r.error == InvalidUtf8(old(pos)) && NotUtf8(b, old(pos))
    {
      c := Plain(0x20);
      var width := Utf8Width(b[pos]);
      ghost var x := b[pos..];
      if width == 0 {
        return Err(InvalidUtf8(pos)), c;
      }
      var end := pos + width;
      if end > |b| {
        return Err(InvalidUtf8(pos)), c;
      }
      var span := b[pos..end];
      assert span == x[..width];
      OneCharacter(span);
      match FromUtf8(span) {
        case None =>
          return Err(InvalidUtf8(pos)), c;
        case Some(text) =>
          c := Multi(span);
          pos := end;
          return Ok(text), c;
      }
    }

    /** Reads one character of a string, positioned at its first byte. */
    method Character() returns (r: Result<Text>, ghost c: Char)
      requires pos < |b| && b[pos] != QUOTE
      modifies this`pos
      ensures old(pos) <= pos <= |b|
      ensures r.Ok? ==> pos > old(pos) && ValidChar(c) && b[old(pos)..pos] == SpellChar(c) && r.value == [DecodeChar(c)]
      ensures r.Err? ==> CharHalts(b, old(pos), r.error)
    {
      if b[pos] == BACKSLASH {
        var e;
        e, c := Escape();
        r := if e.Ok? then Ok([e.value]) else Err(e.error);
      } else if b[pos] < 0x20 {
        r := Err(Syntax(pos, "escaped control character"));
        c := Plain(0x20);
      } else if b[pos] < 0x80 {
        c := Plain(b[pos]);
        r := Ok([b[pos]]);
        pos := pos + 1;
      } else {
        r, c := Multibyte();
      }
    }

    /** Reads a string, positioned at its opening quote; its text is kept only if `decode`. */
    method StringToken(decode: bool) returns (r: Result<Option<Text>>, ghost cs: seq<Char>)
      requires pos < |b| && b[pos] == QUOTE
      modifies this`pos
      ensures old(pos) <= pos <= |b|
      ensures r.Ok? ==> pos > old(pos) && ValidQuoted(Policy(limits, true), cs) && b[old(pos)..pos] == SpellQuoted(cs)
                        && r.value == if decode then Some(Decode(cs)) else None
      ensures r.Err? ==> StringHalts(limits, b, old(pos), r.error)
    {
      hide CharHalts, SpellChars, SpellChar, ValidChar;
      var open := pos;
      pos := pos + 1;
      var start := pos;
      var limit := limits.maxStringBytes;
      var out: Option<Text> := if decode then Some([]) else None;
      cs := [];
      assert Decode(cs) == [];
      CharsStep(cs, []);
      while true
        invariant start == open + 1 <= pos <= |b|
        invariant StringTo(b, open, pos, cs) && FitsButLast(limits, cs)
        invariant out == if decode then Some(Decode(cs)) else None
        decreases |b| - pos
      {
        if pos - start > limit {
          r := Err(StringTooLong(limit, open));
          assert BreaksAt(limits, b, open, pos, cs, r.error);
          return;
        }
        if pos == |b| {
          r := Err(Syntax(pos, "closing '\"'"));
          assert CharHalts(b, pos, r.error) by { EndHalts(b); }
          assert BreaksAt(limits, b, open, pos, cs, r.error);
          return;
        }
        var before := pos;
        if b[pos] == QUOTE {
          pos := pos + 1;
          QuoteCloses(b, open, before, cs);
          return Ok(out), cs;
        }
        var next, c := Character();
        if next.Err? {
          assert BreaksAt(limits, b, open, before, cs, next.error);
          return Err(next.error), cs;
        }
        ReadChar(b, start, before, pos, cs, c);
        assert (cs + [c])[..|cs|] == cs;
        cs := cs + [c];
        if out.Some? {
          out := Some(out.value + next.value);
        }
      }
    }

    // Counting and nesting.

    method CountValue() returns (r: Result<()>)
      modifies this`values
      ensures values == old(values) + 1
      ensures r.Err? <==> values > limits.maxTotalValues
      ensures r.Err? ==> r.error == TooManyValues(limits.maxTotalValues, pos)
    {
      values := values + 1;
      if values > limits.maxTotalValues {
        return Err(TooManyValues(limits.maxTotalValues, pos));
      }
      return Ok(());
    }

    method Push(frame: Frame) returns (r: Result<()>)
      modifies this`stack, this`maxDepthSeen
      ensures r.Err? <==> |old(stack)| >= limits.maxDepth
      ensures r.Err? ==> r.error == TooDeep(limits.maxDepth, pos) && stack == old(stack)
      ensures r.Ok? ==> stack == old(stack) + [frame] && maxDepthSeen == Max(old(maxDepthSeen), |stack|)
    {
      if |stack| >= limits.maxDepth {
        return Err(TooDeep(limits.maxDepth, pos));
      }
      stack := stack + [frame];
      maxDepthSeen := Max(maxDepthSeen, |stack|);
      return Ok(());
    }

    /** Counts a new member of the innermost container. */
    method BeginMember() returns (r: Result<()>)
      modifies this`stack
      ensures old(stack) == [] ==> r.Ok? && stack == []
      ensures old(stack) != [] ==> stack == Pop(old(stack)) + [Top(old(stack)).(len := Top(old(stack)).len + 1)]
      ensures old(stack) != [] ==> (r.Err? <==> Top(old(stack)).len + 1 > limits.maxCollectionLen)
      ensures r.Err? ==> r.error == CollectionTooLong(limits.maxCollectionLen, pos)
    {
      var limit := limits.maxCollectionLen;
      var offset := pos;
      if stack == [] {
        return Ok(());
      }
      var frame := Top(stack);
      stack := Pop(stack) + [frame.(len := frame.len + 1)];
      if frame.len + 1 > limit {
        return Err(CollectionTooLong(limit, offset));
      }
      return Ok(());
    }

    /** Reads a key and its colon, positioned at the opening quote. */
    method Key() returns (r: Result<()>)
      requires On(AtMember) && stack != [] && Top(stack).ObjectFrame?
      modifies this`pos, this`stack
      ensures r.Ok? ==> pos > old(pos) && On(AtValue)
      ensures r.Err? ==> Halted(limits, b, r.error)
    {
      hide OnTrack, StringHalts, NumberHalts, KeyBytes, SetBytes, Decode, SpellChars, ValidChar;
      ghost var s, from := At(AtMember), pos;
      if Peek() != Some(QUOTE) {
        r := Err(Syntax(pos, "object key"));
        assert Halts(limits, b, from, s, r.error);
        return;
      }
      var counted := BeginMember();
      if counted.Err? {
        assert Halts(limits, b, from, s, counted.error);
        return counted;
      }
      var offset := pos;
      var text, cs := StringToken(true);
      if text.Err? {
        assert Halts(limits, b, from, s, text.error);
        return Err(text.error);
      }
      ghost var k1 := pos;
      var key := text.value.value;
      var frame := Top(stack);
      if key in frame.keys {
        r := Err(DuplicateKey(if |key| > 64 then key[..64] else key, offset));
        assert KeyBreaks(limits, b, from, frame.keys, cs, k1, k1, r.error);
        assert Halts(limits, b, from, s, r.error);
        return;
      }
      stack := Pop(stack) + [frame.(keys := frame.keys + {key})];
      assert stack == Pop(s.frames) + [Top(s.frames).Grow({key})];
      SkipWs();
      if Peek() != Some(COLON) {
        r := Err(Syntax(pos, "':'"));
        assert KeyBreaks(limits, b, from, frame.keys, cs, k1, pos, r.error);
        assert Halts(limits, b, from, s, r.error);
        return;
      }
      ghost var k2 := pos;
      pos := pos + 1;
      SkipWs();
      TakeKey(limits, b, from, s, cs, k1, k2, pos);
      KeyBytesGrow(s.frames, cs);
      assert |b[from..k1]| == |SpellQuoted(cs)|;
      assert At(AtValue) == Entered(s, {key});
      return Ok(());
    }

    /** Reads the start of a value, positioned at its first byte. */
    method Value() returns (r: Result<Step>)
      requires On(AtValue)
      modifies this`pos, this`stack, this`values, this`maxDepthSeen
      ensures r.Ok? ==> pos > old(pos) && !r.value.AtMember? && On(r.value)
      ensures r.Err? ==> Halted(limits, b, r.error)
    {
      hide OnTrack, StringHalts, NumberHalts;
      ghost var s := At(AtValue);
      if pos == |b| {
        r := Err(Syntax(pos, "value"));
        assert Halts(limits, b, pos, s, r.error);
        return;
      }
      var c := b[pos];
      if c == OpenByte(Object) {
        r := Container(Object);
      } else if c == OpenByte(Array) {
        r := Container(Array);
      } else if c == QUOTE || c == MINUS || IsDigit(c) {
        r := StringOrNumber();
      } else if c == 0x74 {
        r := Literal(TRUE);
      } else if c == 0x66 {
        r := Literal(FALSE);
      } else if c == 0x6E {
        r := Literal(NULL);
      } else {
        r := Err(Syntax(pos, "value"));
        assert Halts(limits, b, pos, s, r.error);
      }
    }

    method StringOrNumber() returns (r: Result<Step>)
      requires On(AtValue) && pos < |b|
      requires b[pos] == QUOTE || b[pos] == MINUS || IsDigit(b[pos])
      modifies this`pos, this`values
      ensures r.Ok? ==> pos > old(pos) && r.value.AfterValue? && On(AfterValue)
      ensures r.Err? ==> Halted(limits, b, r.error)
    {
      hide OnTrack, StringHalts, NumberHalts;
      ghost var s, from := At(AtValue), pos;
      var counted := CountValue();
      if counted.Err? {
        assert Halts(limits, b, from, s, counted.error);
        return Err(counted.error);
      }
      if b[pos] == QUOTE {
        var text, cs := StringToken(false);
        if text.Err? {
          assert Halts(limits, b, from, s, text.error);
          return Err(text.error);
        }
        TakeAtom(limits, b, from, s, Quoted(cs), pos);
      } else {
        var read, n := Number();
        if read.Err? {
          assert Halts(limits, b, from, s, read.error);
          return Err(read.error);
        }
        TakeAtom(limits, b, from, s, Numeral(n), pos);
        assert |b[from..pos]| == |SpellNumber(n)|;
      }
      return Ok(AfterValue);
    }

    method Literal(word: Bytes) returns (r: Result<Step>)
      requires On(AtValue) && pos < |b|
      requires word == TRUE || word == FALSE || word == NULL
      requires b[pos] == word[0]
      modifies this`pos, this`values
      ensures r.Ok? ==> pos > old(pos) && r.value.AfterValue? && On(AfterValue)
      ensures r.Err? ==> Halted(limits, b, r.error)
    {
      hide OnTrack, StringHalts, NumberHalts;
      ghost var s, from := At(AtValue), pos;
      var counted := CountValue();
      if counted.Err? {
        assert Halts(limits, b, from, s, counted.error);
        return Err(counted.error);
      }
      if word <= b[pos..] {
        pos := pos + |word|;
        assert b[from..pos] == word;
        TakeAtom(limits, b, from, s, Word(word), pos);
        return Ok(AfterValue);
      }
      r := Err(Syntax(pos, LITERAL));
      OtherWord(b[from..], word);
      assert Halts(limits, b, from, s, r.error);
    }

    /** Opens an array or an object, and closes it at once if it is empty. */
    method Container(shape: Shape) returns (r: Result<Step>)
      requires On(AtValue) && pos < |b| && b[pos] == OpenByte(shape)
      modifies this`pos, this`stack, this`values, this`maxDepthSeen
      ensures r.Ok? ==> pos > old(pos) && !r.value.AtMember? && On(r.value)
      ensures r.Err? ==> Halted(limits, b, r.error)
    {
      hide OnTrack, StringHalts, NumberHalts, KeyBytes, SetBytes;
      ghost var s, from := At(AtValue), pos;
      var counted := CountValue();
      if counted.Err? {
        assert Halts(limits, b, from, s, counted.error);
        return Err(counted.error);
      }
      var pushed := Push(if shape.Array? then ArrayFrame(0) else ObjectFrame(0, {}));
      if pushed.Err? {
        assert Halts(limits, b, from, s, pushed.error);
        return Err(pushed.error);
      }
      KeyBytesOpen(s.frames, Top(stack));
      pos := pos + 1;
      SkipWs();
      if Peek() == Some(CloseByte(shape)) {
        pos := pos + 1;
        stack := Pop(stack);
        TakeEmpty(limits, b, from, s, shape, pos);
        return Ok(AfterValue);
      }
      TakeOpen(limits, b, from, s, shape, pos);
      assert At(AtMember) == Opened(s, shape);
      r := Member();
    }

    /** Begins the member that follows an opening bracket or a comma. */
    method Member() returns (r: Result<Step>)
      requires On(AtMember) && stack != []
      modifies this`pos, this`stack
      ensures r.Ok? ==> pos >= old(pos) && r.value.AtValue? && On(AtValue)
      ensures r.Err? ==> Halted(limits, b, r.error)
    {
      hide OnTrack, StringHalts, NumberHalts;
      if Top(stack).ObjectFrame? {
        var k :- Key();
        return Ok(AtValue);
      }
      ghost var s := At(AtMember);
      var counted := BeginMember();
      if counted.Err? {
        assert Halts(limits, b, pos, s, counted.error);
        return Err(counted.error);
      }
      TakeElement(limits, b, pos, s);
      KeyBytesPush(Pop(s.frames), Top(s.frames).Grow({}));
      assert At(AtValue) == Entered(s, {});
      return Ok(AtValue);
    }

    /** Goes on after a value inside a container: to another member or out of it. */
    method Continue() returns (r: Result<Step>)
      requires On(AfterValue) && stack != [] && !StartsWithSpace(b[pos..])
      modifies this`pos, this`stack
      ensures r.Ok? ==> pos > old(pos) && !r.value.AtMember? && On(r.value)
      ensures r.Err? ==> Halted(limits, b, r.error)
    {
      hide OnTrack, StringHalts, NumberHalts;
      ghost var s, from := At(AfterValue), pos;
      var shape := Top(stack).Shape();
      if Peek() == Some(COMMA) {
        pos := pos + 1;
        SkipWs();
        TakeComma(limits, b, from, s, pos);
        r := Member();
      } else if Peek() == Some(CloseByte(shape)) {
        pos := pos + 1;
        stack := Pop(stack);
        TakeClose(limits, b, from, s);
        r := Ok(AfterValue);
      } else {
        r := Err(Syntax(pos, if shape.Array? then "',' or ']'" else "',' or '}'"));
        assert Halts(limits, b, from, s, r.error);
      }
    }

    method Run() returns (r: Result<ScanStats>)
      requires pos == 0 && stack == [] && values == 0 && maxDepthSeen == 0
      requires |b| <= limits.maxBytes
      modifies this
      ensures r.Ok? ==> Measured(limits, b, r.value)
      ensures r.Err? ==> Refused(limits, b, r.error)
      ensures if IsGap(b) then r == Err(NoInput) else r.Err? ==> Halted(limits, b, r.error)
    {
      hide OnTrack, Viable, Completable;
      SkipWs();
      assert b[0..pos] == b[..pos];
      assert pos < |b| ==> b[pos..][0] == b[pos];
      if pos == |b| {
        assert b[..pos] == b;
        forall p, z | Wider(p, limits) ensures !Accepts(p, b, z) {
          GapIsNoDocument(p, b, z);
        }
        return Err(NoInput);
      }
      Begin(limits, b, pos);
      var step := AtValue;
      EveryStepIsViable(limits, b, pos, At(step));
      EveryStepCompletes(limits, b, pos, At(step));
      while true
        invariant !step.AtMember? && On(step)
        invariant Viable(limits, b, pos) && Completable(limits, b, pos, if step.AtValue? then 1 else 0)
        decreases |b| - pos
      {
        if step.AtValue? {
          var next := Value();
          if next.Err? {
            HaltIsRefusal(limits, b, next.error);
            return Err(next.error);
          }
          step := next.value;
        } else {
          ghost var from := pos;
          SkipWs();
          TakeGap(limits, b, from, At(AfterValue), pos);
          if stack == [] {
            if pos != |b| {
              assert Halts(limits, b, pos, At(AfterValue), TrailingData(pos));
              HaltIsRefusal(limits, b, TrailingData(pos));
              return Err(TrailingData(pos));
            }
            Finish(limits, b, At(AfterValue));
            return Ok(ScanStats(|b|, maxDepthSeen, values));
          }
          var next := Continue();
          if next.Err? {
            HaltIsRefusal(limits, b, next.error);
            return Err(next.error);
          }
          step := next.value;
        }
        EveryStepIsViable(limits, b, pos, At(step));
        EveryStepCompletes(limits, b, pos, At(step));
      }
    }
  }

  /** The grammar derives `b`, with distinct keys and within every limit. */
  ghost predicate Acceptable(limits: ParseLimits, b: Bytes) {
    exists z :: Accepts(Policy(limits, true), b, z)
  }

  /** Validates `b` as exactly one JSON text within `limits`: accepted with the size of its
      tree, or refused by a rule that refuses it however wide the others are, at a place up to
      which some acceptable text agrees with it, unless the error is late. */
  method Scan(b: Bytes, limits: ParseLimits) returns (r: Result<ScanStats>)
    ensures r.Ok? <==> Acceptable(limits, b)
    ensures r.Ok? ==> Measured(limits, b, r.value)
    ensures r.Err? ==> Refused(limits, b, r.error)
    ensures if |b| > limits.maxBytes then r == Err(TooLarge(limits.maxBytes, |b|))
            else if IsGap(b) then r == Err(NoInput)
            else r.Err? ==> Halted(limits, b, r.error)
  {
    if |b| > limits.maxBytes {
      return Err(TooLarge(limits.maxBytes, |b|));
    }
    var s := new Scanner(b, limits);
    r := s.Run();
    Decides(limits, b, r);
  }

  /** A measure and a refusal decide whether the text is acceptable. */
  lemma Decides(limits: ParseLimits, b: Bytes, r: Result<ScanStats>)
    requires if r.Ok? then Measured(limits, b, r.value) else Refused(limits, b, r.error)
    ensures r.Ok? <==> Acceptable(limits, b)
  {
    hide Accepts;
    var p := Policy(limits, true);
    assert Wider(p, limits);
    if r.Ok? {
      assert Accepts(p, b, Size(r.value.values, r.value.maxDepthSeen));
    } else {
      assert Keeps(p, limits, r.error);
    }
  }
}
