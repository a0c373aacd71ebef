/** Reading a growing trace file: lines as they become complete, and the last decision that is
    complete (crates/rustev-cli/src/trace.rs:119-215). */
module TraceTail {
  import opened Wrappers
  import opened TraceTree

  type Bytes = seq<int>

  const NEWLINE := 0x0A

  /** No valid line is longer. */
  const MAX_LINE_BYTES: nat := 65_536

  /** Reads one line; a line that is too long is none. */
  type LineReader = f: Bytes -> Option<Line> | Bounding(f) witness ((_: Bytes) => None)

  ghost predicate Bounding(f: Bytes -> Option<Line>) {
    forall s: Bytes | |s| > MAX_LINE_BYTES :: f(s).None?
  }

  // -------------------------------------------------------------- a whole file

  /** The lines of a file and the start of one more, or the number of the first bad line. */
  datatype Reading = Lines(lines: seq<Line>, rest: Bytes) | BadLine(number: nat)

  function IndexOfNewline(s: Bytes): (i: nat)
    ensures i <= |s| && (i < |s| ==> s[i] == NEWLINE)
    ensures forall k | 0 <= k < i :: s[k] != NEWLINE
  {
    if s == [] || s[0] == NEWLINE then 0 else 1 + IndexOfNewline(s[1..])
  }

  /** A reading that comes after `lines`. */
  function After(lines: seq<Line>, r: Reading): Reading {
    match r
    case BadLine(m) => BadLine(m)
    case Lines(more, rest) => Lines(lines + more, rest)
  }

  /** What `s` reads as, after `n` lines. */
  function Read(read: LineReader, s: Bytes, n: nat): Reading
    decreases |s|
  {
    var i := IndexOfNewline(s);
    if i == |s| then if |s| > MAX_LINE_BYTES then BadLine(n + 1) else Lines([], s)
    else
      match read(s[..i])
      case None => BadLine(n + 1)
      case Some(line) => After([line], Read(read, s[i + 1..], n + 1))
  }

  lemma AfterAfter(a: seq<Line>, b: seq<Line>, r: Reading)
    ensures After(a, After(b, r)) == After(a + b, r) && After([], r) == r
  {
    if r.Lines? {
      assert a + (b + r.lines) == a + b + r.lines;
    }
  }

  lemma NewlineUnmoved(s: Bytes, t: Bytes)
    requires IndexOfNewline(s) < |s|
    ensures IndexOfNewline(s + t) == IndexOfNewline(s)
  {
    assert forall k | 0 <= k < |s| :: (s + t)[k] == s[k];
  }

  /** How a reading starts. */
  lemma ReadFirst(read: LineReader, s: Bytes, n: nat)
    ensures var i := IndexOfNewline(s);
      Read(read, s, n) ==
        if i == |s| then if |s| > MAX_LINE_BYTES then BadLine(n + 1) else Lines([], s)
        else if read(s[..i]).None? then BadLine(n + 1)
        else After([read(s[..i]).value], Read(read, s[i + 1..], n + 1))
  {}

  /** What is appended continues the reading: a bad line stays the first, and what was read stays
      read. */
  lemma {:induction false} ReadOn(read: LineReader, s: Bytes, t: Bytes, n: nat)
    ensures var r := Read(read, s, n);
      Read(read, s + t, n) == if r.BadLine? then r else After(r.lines, Read(read, r.rest + t, n + |r.lines|))
    decreases |s|
  {
    var i := IndexOfNewline(s);
    ReadFirst(read, s, n);
    hide Read;
    if i < |s| {
      NewlineUnmoved(s, t);
      assert (s + t)[..i] == s[..i] && (s + t)[i + 1..] == s[i + 1..] + t;
      ReadFirst(read, s + t, n);
      hide IndexOfNewline;
      if read(s[..i]).Some? {
        ReadOn(read, s[i + 1..], t, n + 1);
        var r := Read(read, s[i + 1..], n + 1);
        if r.Lines? {
          AfterAfter([read(s[..i]).value], r.lines, Read(read, r.rest + t, n + 1 + |r.lines|));
        }
      }
    } else if |s| > MAX_LINE_BYTES {
      LongIsBad(read, s, t, n);
    } else {
      AfterAfter([], [], Read(read, s + t, n));
    }
  }

  lemma LongIsBad(read: LineReader, s: Bytes, t: Bytes, n: nat)
    requires IndexOfNewline(s) == |s| > MAX_LINE_BYTES
    ensures Read(read, s + t, n) == BadLine(n + 1)
  {
    var i := IndexOfNewline(s + t);
    assert forall k | 0 <= k < |s| :: (s + t)[k] == s[k];
    assert |(s + t)[..i]| > MAX_LINE_BYTES;
  }

  /** Each body followed by a newline. */
  function Ended(bodies: seq<Bytes>): Bytes {
    if bodies == [] then [] else bodies[0] + [NEWLINE] + Ended(bodies[1..])
  }

  /** `s` is the lines `bodies`, each ended, and then `rest`. */
  predicate CutInto(s: Bytes, bodies: seq<Bytes>, rest: Bytes) {
    s == Ended(bodies) + rest && NEWLINE !in rest && forall i | 0 <= i < |bodies| :: NEWLINE !in bodies[i]
  }

  /** The reader is given each body as it is, up to the first that is bad: all are read and what is
      left is kept, or the bad one is named, or the unfinished one because it is too long. */
  predicate Answers(read: LineReader, bodies: seq<Bytes>, rest: Bytes, n: nat, r: Reading) {
    match r
    case Lines(lines, left) =>
      && left == rest && |rest| <= MAX_LINE_BYTES && |lines| == |bodies|
      && forall i | 0 <= i < |bodies| :: read(bodies[i]) == Some(lines[i])
    case BadLine(m) =>
      && n < m <= n + |bodies| + 1
      && (forall i | 0 <= i < m - n - 1 :: read(bodies[i]).Some?)
      && if m == n + |bodies| + 1 then |rest| > MAX_LINE_BYTES else read(bodies[m - n - 1]).None?
  }

  lemma NewlineAfter(a: Bytes, t: Bytes)
    requires NEWLINE !in a
    ensures IndexOfNewline(a + [NEWLINE] + t) == |a| && IndexOfNewline(a) == |a|
  {
    var s := a + [NEWLINE] + t;
    assert forall k | 0 <= k < |a| :: s[k] == a[k] && a[k] in a;
    assert s[|a|] == NEWLINE;
  }

  /** A file is read as the lines it is cut into. */
  lemma {:induction false} ReadsItsLines(read: LineReader, s: Bytes, bodies: seq<Bytes>, rest: Bytes, n: nat)
    requires CutInto(s, bodies, rest)
    ensures Answers(read, bodies, rest, n, Read(read, s, n))
    decreases |bodies|
  {
    hide IndexOfNewline;
    ReadFirst(read, s, n);
    hide Read;
    if bodies == [] {
      assert s == rest;
      NewlineAfter(rest, []);
    } else {
      var a, t := bodies[0], Ended(bodies[1..]) + rest;
      assert s == a + [NEWLINE] + t;
      NewlineAfter(a, t);
      assert s[..|a|] == a && s[|a| + 1..] == t;
      if read(a).Some? {
        ReadsItsLines(read, t, bodies[1..], rest, n + 1);
        FirstAnswers(read, bodies, rest, n, read(a).value, Read(read, t, n + 1));
      }
    }
  }

  lemma FirstAnswers(read: LineReader, bodies: seq<Bytes>, rest: Bytes, n: nat, line: Line, r: Reading)
    requires bodies != [] && read(bodies[0]) == Some(line) && Answers(read, bodies[1..], rest, n + 1, r)
    ensures Answers(read, bodies, rest, n, After([line], r))
  {
    var more := bodies[1..];
    if r.Lines? {
      forall i | 0 <= i < |bodies| ensures read(bodies[i]) == Some(([line] + r.lines)[i]) {
        assert i > 0 ==> bodies[i] == more[i - 1];
      }
    } else {
      forall i | 0 <= i < r.number - n - 1 ensures read(bodies[i]).Some? {
        assert i > 0 ==> bodies[i] == more[i - 1];
      }
    }
  }

  /** Every file is cut into lines in one way. */
  lemma {:induction false} OneCut(s: Bytes) returns (bodies: seq<Bytes>, rest: Bytes)
    ensures CutInto(s, bodies, rest)
    ensures forall other, left | CutInto(s, other, left) :: other == bodies && left == rest
    decreases |s|
  {
    var i := IndexOfNewline(s);
    if i == |s| {
      bodies, rest := [], s;
      assert Ended([]) + s == s;
    } else {
      var more;
      more, rest := OneCut(s[i + 1..]);
      bodies := [s[..i]] + more;
      assert bodies[1..] == more && s == s[..i] + [NEWLINE] + (Ended(more) + rest);
    }
    forall other, left | CutInto(s, other, left) ensures other == bodies && left == rest {
      CutFirst(s, other, left);
      if other != [] {
        assert other == [other[0]] + other[1..];
      }
    }
  }

  lemma CutFirst(s: Bytes, bodies: seq<Bytes>, rest: Bytes)
    requires CutInto(s, bodies, rest)
    ensures var i := IndexOfNewline(s);
      if i == |s| then bodies == [] && rest == s
      else bodies != [] && bodies[0] == s[..i] && CutInto(s[i + 1..], bodies[1..], rest)
  {
    if bodies == [] {
      assert s == rest;
      NewlineAfter(rest, []);
    } else {
      var t := Ended(bodies[1..]) + rest;
      assert s == bodies[0] + [NEWLINE] + t;
      NewlineAfter(bodies[0], t);
      assert s[|bodies[0]| + 1..] == t;
    }
  }

  // ------------------------------------------------------------- the file so far

  class Tail {
    const read: LineReader
    var pending: Bytes
    var lineNo: nat
    var lines: seq<Line>
    ghost var total: Bytes

    constructor (read: LineReader)
      ensures this.read == read && Valid() && total == [] && lines == [] && pending == []
    {
      this.read := read;
      pending, lineNo, lines, total := [], 0, [], [];
      new;
      assert Read(read, [], 0) == Lines([], []);
    }

    /** All that was read so far is in complete lines and in `pending`. */
    ghost predicate Valid()
      reads this
    { lineNo == |lines| && Read(read, total, 0) == Lines(lines, pending) }

    /** Takes what was appended to the file, and its complete lines; a bad line is named. The
        result is that of reading the whole file at once. */
    method Append(bytes: Bytes) returns (bad: Option<nat>)
      requires Valid()
      modifies this
      ensures total == old(total) + bytes
      ensures match Read(read, total, 0)
              case BadLine(m) => bad == Some(m)
              case Lines(_, _) => bad.None? && Valid()
    {
      ReadOn(read, total, bytes, 0);
      hide Read;
      total := total + bytes;
      pending := pending + bytes;
      bad := Parse();
    }

    /** Parses every complete line; a partial line waits unless it is too long already. */
    method Parse() returns (bad: Option<nat>)
      requires lineNo == |lines| && Read(read, total, 0) == After(lines, Read(read, pending, lineNo))
      modifies this`pending, this`lineNo, this`lines
      ensures match Read(read, total, 0)
              case BadLine(m) => bad == Some(m)
              case Lines(_, _) => bad.None? && Valid()
    {
      hide Read;
      var end := IndexOfNewline(pending);
      while end < |pending|
        invariant lineNo == |lines| && end == IndexOfNewline(pending)
        invariant Read(read, total, 0) == After(lines, Read(read, pending, lineNo))
        decreases |pending|
      {
        ReadFirst(read, pending, lineNo);
        var body := pending[..end];
        pending := pending[end + 1..];
        lineNo := lineNo + 1;
        var line := read(body);
        if line.None? {
          return Some(lineNo);
        }
        AfterAfter(lines, [line.value], Read(read, pending, lineNo));
        lines := lines + [line.value];
        end := IndexOfNewline(pending);
      }
      ReadFirst(read, pending, lineNo);
      if |pending| > MAX_LINE_BYTES {
        return Some(lineNo + 1);
      }
      return None;
    }

    /** The last decision, of the trace if one is given, whose policy span follows it. */
    method Find(traceId: Option<Id>) returns (root: Option<nat>)
      ensures root.Some? ==> IsRoot(lines, traceId, root.value) && forall j | root.value < j :: !IsRoot(lines, traceId, j)
      ensures root.None? ==> forall j :: !IsRoot(lines, traceId, j)
    {
      for i := |lines| downto 0
        invariant forall j | i <= j :: !IsRoot(lines, traceId, j)
      {
        if lines[i].kind == Decision && (traceId.None? || traceId.value == lines[i].traceId) {
          var c := i;
          while c < |lines| && !IsPolicyOf(lines, i, c)
            invariant i <= c <= |lines| && forall k | i <= k < c :: !IsPolicyOf(lines, i, k)
          {
            c := c + 1;
          }
          if c < |lines| {
            return Some(i);
          }
        }
      }
      return None;
    }
  }

  /** Line `c` is the policy span of the decision at line `i`. */
  predicate IsPolicyOf(lines: seq<Line>, i: nat, c: nat) {
    i < |lines| && c < |lines| && lines[c].kind == Policy && IsChild(lines, i, c)
  }

  predicate IsRoot(lines: seq<Line>, traceId: Option<Id>, i: nat) {
    && i < |lines| && lines[i].kind == Decision
    && (traceId.None? || traceId.value == lines[i].traceId)
    && exists c | i <= c < |lines| :: IsPolicyOf(lines, i, c)
  }

  function Concat(chunks: seq<Bytes>): Bytes {
    if chunks == [] then [] else Concat(chunks[..|chunks| - 1]) + chunks[|chunks| - 1]
  }

  lemma {:induction false} ConcatSplit(chunks: seq<Bytes>, k: nat) returns (rest: Bytes)
    requires k <= |chunks|
    ensures Concat(chunks) == Concat(chunks[..k]) + rest
  {
    var n := |chunks|;
    if k == n {
      rest := [];
      assert chunks[..k] == chunks;
    } else {
      var init := chunks[..n - 1];
      assert init[..k] == chunks[..k];
      var r := ConcatSplit(init, k);
      rest := r + chunks[n - 1];
      assert Concat(chunks[..k]) + (r + chunks[n - 1]) == Concat(chunks[..k]) + r + chunks[n - 1];
    }
  }

  /** However a file is read piece by piece, it reads as the whole. */
  method Follow(read: LineReader, chunks: seq<Bytes>) returns (r: Reading)
    ensures r == Read(read, Concat(chunks), 0)
  {
    var tail := new Tail(read);
    for i := 0 to |chunks|
      invariant tail.Valid() && tail.total == Concat(chunks[..i]) && tail.read == read
    {
      assert chunks[..i + 1][..i] == chunks[..i];
      var bad := tail.Append(chunks[i]);
      if bad.Some? {
        ghost var rest := ConcatSplit(chunks, i + 1);
        ReadOn(read, Concat(chunks[..i + 1]), rest, 0);
        return BadLine(bad.value);
      }
    }
    assert chunks[..|chunks|] == chunks;
    return Lines(tail.lines, tail.pending);
  }
}
