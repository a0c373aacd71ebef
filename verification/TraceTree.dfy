/** Building the span tree of a trace from lines that name their parents, whatever they name
    (crates/rustev-cli/src/trace.rs:245-333). */
module TraceTree {
  import opened Wrappers

  type Id = seq<int>

  datatype Kind = Decision | Policy | Other

  /** A line of a trace: its kind of span, its trace, its span and the span it names as its parent. */
  datatype Line = Line(kind: Kind, traceId: Id, spanId: Id, parent: Option<Id>)

  /** A rendered span: the index of its line, and its children. */
  datatype Tree = Node(line: nat, children: seq<Tree>)

  datatype Malformed = ReachedTwice(line: nat) | TooDeep(line: nat)

  datatype Result = Ok(tree: Tree) | Err(error: Malformed)

  /** The deepest tree that is rendered. */
  const MAX_SPAN_DEPTH: nat := 64

  // --------------------------------------------------------------------- walks

  /** Line `j` names line `i` as its parent, in the same trace. */
  predicate IsChild(lines: seq<Line>, i: nat, j: nat) {
    i < |lines| && j < |lines| && lines[j].traceId == lines[i].traceId && lines[j].parent == Some(lines[i].spanId)
  }

  /** A walk from parent to child. */
  predicate Walk(lines: seq<Line>, w: seq<nat>) {
    && w != [] && (forall k | 0 <= k < |w| :: w[k] < |lines|)
    && forall k | 0 <= k < |w| - 1 :: IsChild(lines, w[k], w[k + 1])
  }

  predicate WalkTo(lines: seq<Line>, root: nat, w: seq<nat>, i: nat) {
    Walk(lines, w) && w[0] == root && w[|w| - 1] == i
  }

  ghost predicate Reaches(lines: seq<Line>, root: nat, i: nat) {
    exists w :: WalkTo(lines, root, w, i)
  }

  /** The lines reachable from `root` form a tree of at most 64 levels: one walk leads to each, and
      none is longer. */
  ghost predicate IsTree(lines: seq<Line>, root: nat) {
    && (forall w, i | WalkTo(lines, root, w, i) :: |w| <= MAX_SPAN_DEPTH)
    && forall v, w, i | WalkTo(lines, root, v, i) && WalkTo(lines, root, w, i) :: v == w
  }

  ghost predicate TwoWalks(lines: seq<Line>, root: nat, i: nat) {
    exists v, w :: WalkTo(lines, root, v, i) && WalkTo(lines, root, w, i) && v != w
  }

  ghost predicate LongWalk(lines: seq<Line>, root: nat, i: nat) {
    exists w :: WalkTo(lines, root, w, i) && |w| == MAX_SPAN_DEPTH + 1
  }

  /** What an error says of the line it names, by number: two walks lead to it, or one that is too
      long. */
  ghost predicate Shows(lines: seq<Line>, root: nat, e: Malformed) {
    match e
    case ReachedTwice(n) => n > 0 && TwoWalks(lines, root, n - 1)
    case TooDeep(n) => n > 0 && LongWalk(lines, root, n - 1)
  }

  // ---------------------------------------------------------------------- trees

  /** The children among the first `n` lines, in order. */
  function Children(lines: seq<Line>, i: nat, n: nat): (js: seq<nat>)
    requires n <= |lines|
    ensures forall j: nat :: j in js <==> j < n && IsChild(lines, i, j)
  {
    if n == 0 then [] else Children(lines, i, n - 1) + if IsChild(lines, i, n - 1) then [n - 1] else []
  }

  /** The lines of a tree, parents first. */
  function LinesOf(t: Tree): seq<nat> {
    [t.line] + LinesOfAll(t.children, |t.children|)
  }

  /** The lines of the first `n` trees. */
  function LinesOfAll(ts: seq<Tree>, n: nat): seq<nat>
    requires n <= |ts|
  {
    if n == 0 then [] else LinesOfAll(ts, n - 1) + LinesOf(ts[n - 1])
  }

  function Height(t: Tree): (h: nat)
    ensures h > 0
  {
    1 + HeightOfAll(t.children, |t.children|)
  }

  function HeightOfAll(ts: seq<Tree>, n: nat): (h: nat)
    requires n <= |ts|
    ensures forall k | 0 <= k < n :: Height(ts[k]) <= h
  {
    if n == 0 then 0 else
      var a, b := HeightOfAll(ts, n - 1), Height(ts[n - 1]);
      if a < b then b else a
  }

  function Roots(ts: seq<Tree>): (js: seq<nat>)
    ensures |js| == |ts| && forall k | 0 <= k < |ts| :: js[k] == ts[k].line
  {
    seq(|ts|, k requires 0 <= k < |ts| => ts[k].line)
  }

  /** The tree shows every child of each of its lines. */
  predicate Complete(lines: seq<Line>, t: Tree) {
    && t.line < |lines|
    && Roots(t.children) == Children(lines, t.line, |lines|)
    && forall k | 0 <= k < |t.children| :: Complete(lines, t.children[k])
  }

  // ------------------------------------------------------- complete trees and walks

  lemma {:induction false} InLinesOfAll(ts: seq<Tree>, n: nat, k: nat)
    requires k < n <= |ts|
    ensures forall i | i in LinesOf(ts[k]) :: i in LinesOfAll(ts, n)
  {
    if k < n - 1 {
      InLinesOfAll(ts, n - 1, k);
    }
  }

  lemma {:induction false} FromLinesOfAll(ts: seq<Tree>, n: nat, i: nat) returns (k: nat)
    requires n <= |ts| && i in LinesOfAll(ts, n)
    ensures k < n && i in LinesOf(ts[k])
  {
    if i in LinesOf(ts[n - 1]) {
      k := n - 1;
    } else {
      k := FromLinesOfAll(ts, n - 1, i);
    }
  }

  /** The child that a walk steps to. */
  lemma NextChild(lines: seq<Line>, t: Tree, w: seq<nat>) returns (k: nat)
    requires Complete(lines, t) && Walk(lines, w) && |w| > 1 && w[0] == t.line
    ensures k < |t.children| && t.children[k].line == w[1] && Complete(lines, t.children[k])
    ensures Walk(lines, w[1..]) && w[1..][0] == w[1]
  {
    assert IsChild(lines, w[0], w[0 + 1]);
    var js := Children(lines, t.line, |lines|);
    assert w[1] in js;
    k :| 0 <= k < |js| && js[k] == w[1];
    forall j | 0 <= j < |w[1..]| - 1 ensures IsChild(lines, w[1..][j], w[1..][j + 1]) {
      assert IsChild(lines, w[j + 1], w[j + 1 + 1]);
    }
  }

  /** A walk stays in a complete tree. */
  lemma {:induction false} WalkStays(lines: seq<Line>, t: Tree, w: seq<nat>)
    requires Complete(lines, t) && Walk(lines, w) && w[0] == t.line
    ensures |w| <= Height(t) && w[|w| - 1] in LinesOf(t)
    decreases |w|
  {
    if |w| > 1 {
      var k := NextChild(lines, t, w);
      WalkStays(lines, t.children[k], w[1..]);
      InLinesOfAll(t.children, |t.children|, k);
    }
  }

  lemma {:induction false} DistinctTrees(ts: seq<Tree>, n: nat, j: nat, k: nat, i: nat)
    requires n <= |ts| && j < n && k < n && Distinct(LinesOfAll(ts, n)) && i in LinesOf(ts[j]) && i in LinesOf(ts[k])
    ensures j == k && Distinct(LinesOf(ts[k]))
  {
    var a, b := LinesOfAll(ts, n - 1), LinesOf(ts[n - 1]);
    var s := a + b;
    assert Distinct(a) by {
      assert forall x | 0 <= x < |a| :: s[x] == a[x];
    }
    assert Distinct(b) by {
      assert forall x | 0 <= x < |b| :: s[|a| + x] == b[x];
    }
    forall x, y | 0 <= x < |a| && 0 <= y < |b| ensures a[x] != b[y] {
      assert s[x] != s[|a| + y];
    }
    if j < n - 1 {
      InLinesOfAll(ts, n - 1, j);
    }
    if k < n - 1 {
      InLinesOfAll(ts, n - 1, k);
    }
    if j < n - 1 && k < n - 1 {
      DistinctTrees(ts, n - 1, j, k, i);
    }
  }

  lemma RootApart(t: Tree)
    requires Distinct(LinesOf(t))
    ensures Distinct(LinesOfAll(t.children, |t.children|)) && t.line !in LinesOfAll(t.children, |t.children|)
  {
    var s, below := LinesOf(t), LinesOfAll(t.children, |t.children|);
    assert s[0] == t.line && s[1..] == below;
    assert forall x | 0 <= x < |below| :: s[x + 1] == below[x];
  }

  /** A longer walk leads below the root. */
  lemma WalkBelow(lines: seq<Line>, t: Tree, w: seq<nat>) returns (k: nat)
    requires Complete(lines, t) && Walk(lines, w) && w[0] == t.line && |w| > 1
    ensures k < |t.children| && t.children[k].line == w[1] && Complete(lines, t.children[k])
    ensures Walk(lines, w[1..]) && w[1..][0] == w[1]
    ensures w[|w| - 1] in LinesOf(t.children[k]) && w[|w| - 1] in LinesOfAll(t.children, |t.children|)
  {
    k := NextChild(lines, t, w);
    WalkStays(lines, t.children[k], w[1..]);
    InLinesOfAll(t.children, |t.children|, k);
  }

  /** In a complete tree that repeats no line, one walk leads to a line. */
  lemma {:induction false} OneWalk(lines: seq<Line>, t: Tree, v: seq<nat>, w: seq<nat>)
    requires Complete(lines, t) && Distinct(LinesOf(t))
    requires Walk(lines, v) && v[0] == t.line && Walk(lines, w) && w[0] == t.line && v[|v| - 1] == w[|w| - 1]
    ensures v == w
    decreases |v|
  {
    RootApart(t);
    hide Complete, Walk, LinesOf, LinesOfAll, Distinct;
    if |v| > 1 {
      var j := WalkBelow(lines, t, v);
      if |w| > 1 {
        var k := WalkBelow(lines, t, w);
        DistinctTrees(t.children, |t.children|, j, k, v[|v| - 1]);
        OneWalk(lines, t.children[j], v[1..], w[1..]);
        assert v == [v[0]] + v[1..] && w == [w[0]] + w[1..];
      }
    } else if |w| > 1 {
      var k := WalkBelow(lines, t, w);
    }
  }

  /** A walk leads to each line of a complete tree. */
  lemma {:induction false} LineIsReached(lines: seq<Line>, t: Tree, i: nat)
    requires Complete(lines, t) && i in LinesOf(t)
    ensures Reaches(lines, t.line, i)
    decreases t
  {
    if i == t.line {
      assert WalkTo(lines, t.line, [t.line], i);
    } else {
      var k := FromLinesOfAll(t.children, |t.children|, i);
      var child := t.children[k];
      LineIsReached(lines, child, i);
      var w :| WalkTo(lines, child.line, w, i);
      assert child.line in Children(lines, t.line, |lines|) by {
        assert Roots(t.children)[k] == child.line;
      }
      var v := [t.line] + w;
      forall x | 0 <= x < |v| - 1 ensures IsChild(lines, v[x], v[x + 1]) {
        if x > 0 {
          assert IsChild(lines, w[x - 1], w[x - 1 + 1]);
        }
      }
      assert WalkTo(lines, t.line, v, i);
    }
  }

  lemma TreeIsTree(lines: seq<Line>, t: Tree)
    requires Complete(lines, t) && Distinct(LinesOf(t)) && Height(t) <= MAX_SPAN_DEPTH
    ensures IsTree(lines, t.line)
    ensures forall i :: i in LinesOf(t) <==> Reaches(lines, t.line, i)
  {
    forall w, i | WalkTo(lines, t.line, w, i) ensures |w| <= MAX_SPAN_DEPTH && i in LinesOf(t) {
      WalkStays(lines, t, w);
    }
    forall v, w, i | WalkTo(lines, t.line, v, i) && WalkTo(lines, t.line, w, i) ensures v == w {
      OneWalk(lines, t, v, w);
    }
    forall i | i in LinesOf(t) ensures Reaches(lines, t.line, i) {
      LineIsReached(lines, t, i);
    }
  }

  lemma ShownIsNoTree(lines: seq<Line>, root: nat, e: Malformed)
    requires Shows(lines, root, e)
    ensures !IsTree(lines, root)
  {}

  // -------------------------------------------------------------------- building

  /** The lines placed since are those added, each once. */
  ghost predicate Placed(lines: seq<Line>, was: seq<bool>, now: seq<bool>, added: seq<nat>) {
    && |was| == |now| == |lines|
    && Distinct(added)
    && (forall k | k in added :: k < |lines| && !was[k])
    && forall k | 0 <= k < |lines| :: now[k] <==> was[k] || k in added
  }

  /** A walk for every placed line; none goes through `path`. */
  ghost predicate Via(lines: seq<Line>, root: nat, placed: seq<bool>, via: map<nat, seq<nat>>) {
    && |placed| == |lines|
    && (forall k | 0 <= k < |lines| :: placed[k] ==> k in via && WalkTo(lines, root, via[k], k))
  }

  ghost predicate Avoids(placed: seq<bool>, via: map<nat, seq<nat>>, path: seq<nat>) {
    forall k | 0 <= k < |placed| && placed[k] && k in via :: !(path <= via[k])
  }

  /** No walk goes through `path` and on to line `j` or a later one. */
  ghost predicate AvoidsFrom(placed: seq<bool>, via: map<nat, seq<nat>>, path: seq<nat>, j: nat) {
    forall k | j <= k < |placed| :: Avoids(placed, via, path + [k])
  }

  /** Walks of lines placed before stay; those of lines placed since go through `path`. */
  ghost predicate Extends(was: seq<bool>, now: seq<bool>, via: map<nat, seq<nat>>, next: map<nat, seq<nat>>, path: seq<nat>) {
    && |was| == |now|
    && (forall k | 0 <= k < |was| && was[k] :: now[k] && k in via && k in next && next[k] == via[k])
    && forall k | 0 <= k < |was| && now[k] && !was[k] :: k in next && path <= next[k]
  }

  lemma PlaceSelf(lines: seq<Line>, i: nat, root: nat, path: seq<nat>, via: map<nat, seq<nat>>, was: seq<bool>)
    requires WalkTo(lines, root, path, i) && Via(lines, root, was, via) && Avoids(was, via, path) && !was[i]
    ensures var now, next := was[i := true], via[i := path];
      && Placed(lines, was, now, [i]) && Via(lines, root, now, next) && Extends(was, now, via, next, path)
      && AvoidsFrom(now, next, path, 0)
  {}

  /** A child's tree is placed beside those before it. */
  lemma PlaceChild(lines: seq<Line>, root: nat, path: seq<nat>, j: nat,
                   was: seq<bool>, mid: seq<bool>, now: seq<bool>, before: seq<nat>, added: seq<nat>,
                   via: map<nat, seq<nat>>, next: map<nat, seq<nat>>, last: map<nat, seq<nat>>)
    requires Placed(lines, was, mid, before) && Placed(lines, mid, now, added)
    requires Extends(was, mid, via, next, path) && Extends(mid, now, next, last, path + [j])
    requires AvoidsFrom(mid, next, path, j)
    ensures Placed(lines, was, now, before + added)
    ensures Extends(was, now, via, last, path)
    ensures AvoidsFrom(now, last, path, j + 1)
  {
    hide Distinct;
    Beside(before, added);
    forall k | 0 <= k < |was| && now[k] && !was[k] ensures k in last && path <= last[k] {
      if !mid[k] {
        assert path <= path + [j];
      }
    }
    forall k | j < k < |lines| ensures Avoids(now, last, path + [k]) {
      forall x | 0 <= x < |now| && now[x] && x in last ensures !(path + [k] <= last[x]) {
        if !mid[x] {
          assert (path + [j])[|path|] == j && (path + [k])[|path|] == k;
        }
      }
    }
  }

  lemma AvoidNext(placed: seq<bool>, via: map<nat, seq<nat>>, path: seq<nat>, j: nat)
    requires AvoidsFrom(placed, via, path, j) && j < |placed|
    ensures Avoids(placed, via, path + [j]) && AvoidsFrom(placed, via, path, j + 1)
  {}

  lemma Beside(a: seq<nat>, b: seq<nat>)
    ensures Distinct(a) && Distinct(b) && (forall k | k in b :: k !in a) ==> Distinct(a + b)
  {
    var s := a + b;
    if Distinct(a) && Distinct(b) && (forall k | k in b :: k !in a) {
      forall i, j | 0 <= i < j < |s| ensures s[i] != s[j] {
        if j < |a| {
          assert s[i] == a[i] && s[j] == a[j];
        } else if i < |a| {
          assert s[i] == a[i] && s[j] == b[j - |a|] && s[i] in a && s[j] in b;
        } else {
          assert s[i] == b[i - |a|] && s[j] == b[j - |a|];
        }
      }
    }
  }

  lemma Descend(lines: seq<Line>, root: nat, path: seq<nat>, i: nat, j: nat)
    requires WalkTo(lines, root, path, i) && IsChild(lines, i, j)
    ensures WalkTo(lines, root, path + [j], j)
  {
    var w := path + [j];
    forall k | 0 <= k < |w| - 1 ensures IsChild(lines, w[k], w[k + 1]) {
      if k < |path| - 1 {
        assert IsChild(lines, path[k], path[k + 1]);
      }
    }
  }

  lemma {:induction false} SamePrefix(ts: seq<Tree>, us: seq<Tree>, n: nat)
    requires n <= |ts| && n <= |us| && ts[..n] == us[..n]
    ensures LinesOfAll(ts, n) == LinesOfAll(us, n) && HeightOfAll(ts, n) == HeightOfAll(us, n)
  {
    if n > 0 {
      assert ts[..n - 1] == ts[..n][..n - 1] && us[..n - 1] == us[..n][..n - 1];
      SamePrefix(ts, us, n - 1);
      assert ts[..n][n - 1] == us[..n][n - 1];
    }
  }

  lemma Appended(ts: seq<Tree>, t: Tree)
    ensures LinesOfAll(ts + [t], |ts| + 1) == LinesOfAll(ts, |ts|) + LinesOf(t)
    ensures HeightOfAll(ts + [t], |ts| + 1) == if HeightOfAll(ts, |ts|) < Height(t) then Height(t) else HeightOfAll(ts, |ts|)
    ensures Roots(ts + [t]) == Roots(ts) + [t.line]
  {
    assert (ts + [t])[..|ts|] == ts[..|ts|];
    SamePrefix(ts + [t], ts, |ts|);
  }

  /** What a call for the end of `path` leaves. */
  ghost predicate Built(lines: seq<Line>, root: nat, path: seq<nat>, was: seq<bool>, now: seq<bool>,
                        via: map<nat, seq<nat>>, next: map<nat, seq<nat>>, t: Tree)
    requires path != []
  {
    && t.line == path[|path| - 1]
    && Complete(lines, t) && |path| - 1 + Height(t) <= MAX_SPAN_DEPTH
    && Placed(lines, was, now, LinesOf(t))
    && Via(lines, root, now, next) && Extends(was, now, via, next, path)
  }

  /** What the loop over the lines has left when it comes to line `j`. */
  ghost predicate Building(lines: seq<Line>, root: nat, path: seq<nat>, j: nat, was: seq<bool>, now: seq<bool>,
                           via: map<nat, seq<nat>>, next: map<nat, seq<nat>>, ts: seq<Tree>)
    requires path != [] && j <= |lines|
  {
    var i := path[|path| - 1];
    && WalkTo(lines, root, path, i)
    && Roots(ts) == Children(lines, i, j)
    && (forall k | 0 <= k < |ts| :: Complete(lines, ts[k]))
    && |path| + HeightOfAll(ts, |ts|) <= MAX_SPAN_DEPTH
    && Placed(lines, was, now, [i] + LinesOfAll(ts, |ts|))
    && Via(lines, root, now, next) && Extends(was, now, via, next, path)
    && AvoidsFrom(now, next, path, j)
  }

  lemma BuildStart(lines: seq<Line>, root: nat, path: seq<nat>, i: nat, was: seq<bool>, via: map<nat, seq<nat>>)
    requires WalkTo(lines, root, path, i) && Via(lines, root, was, via) && Avoids(was, via, path) && !was[i]
    requires |path| <= MAX_SPAN_DEPTH
    ensures Building(lines, root, path, 0, was, was[i := true], via, via[i := path], [])
  {
    PlaceSelf(lines, i, root, path, via, was);
    hide Placed, Via, Extends, AvoidsFrom;
    assert [i] + LinesOfAll([], 0) == [i];
  }

  lemma BuildSkip(lines: seq<Line>, root: nat, path: seq<nat>, j: nat, was: seq<bool>, now: seq<bool>,
                  via: map<nat, seq<nat>>, next: map<nat, seq<nat>>, ts: seq<Tree>)
    requires path != [] && j < |lines| && Building(lines, root, path, j, was, now, via, next, ts)
    requires !IsChild(lines, path[|path| - 1], j)
    ensures Building(lines, root, path, j + 1, was, now, via, next, ts)
  {
    hide Placed, Extends, Complete, WalkTo;
  }

  lemma BuildDown(lines: seq<Line>, root: nat, path: seq<nat>, j: nat, was: seq<bool>, now: seq<bool>,
                  via: map<nat, seq<nat>>, next: map<nat, seq<nat>>, ts: seq<Tree>)
    requires path != [] && j < |lines| && Building(lines, root, path, j, was, now, via, next, ts)
    requires IsChild(lines, path[|path| - 1], j)
    ensures WalkTo(lines, root, path + [j], j) && |path| <= MAX_SPAN_DEPTH
    ensures Via(lines, root, now, next) && Avoids(now, next, path + [j])
  {
    Descend(lines, root, path, path[|path| - 1], j);
    AvoidNext(now, next, path, j);
    hide Placed, Extends, Complete, WalkTo, Via, Avoids, AvoidsFrom;
  }

  lemma OneMoreChild(lines: seq<Line>, i: nat, j: nat, ts: seq<Tree>, t: Tree)
    requires j < |lines| && IsChild(lines, i, j) && Roots(ts) == Children(lines, i, j) && t.line == j
    ensures Roots(ts + [t]) == Children(lines, i, j + 1)
  {
    assert Roots(ts + [t]) == Roots(ts) + [t.line];
  }

  lemma OneMoreTree(i: nat, ts: seq<Tree>, t: Tree)
    ensures [i] + LinesOfAll(ts + [t], |ts| + 1) == [i] + LinesOfAll(ts, |ts|) + LinesOf(t)
  {
    Appended(ts, t);
    hide LinesOfAll, LinesOf;
    var a, b := LinesOfAll(ts, |ts|), LinesOf(t);
    assert [i] + (a + b) == [i] + a + b;
  }

  lemma BuildUp(lines: seq<Line>, root: nat, path: seq<nat>, j: nat, was: seq<bool>, mid: seq<bool>, now: seq<bool>,
                via: map<nat, seq<nat>>, next: map<nat, seq<nat>>, last: map<nat, seq<nat>>, ts: seq<Tree>, t: Tree)
    requires path != [] && j < |lines| && Building(lines, root, path, j, was, mid, via, next, ts)
    requires IsChild(lines, path[|path| - 1], j)
    requires Built(lines, root, path + [j], mid, now, next, last, t)
    ensures Building(lines, root, path, j + 1, was, now, via, last, ts + [t])
  {
    hide Complete, WalkTo, Via, Placed, Extends, AvoidsFrom, IsChild, Children, Roots, LinesOf, LinesOfAll, Height, HeightOfAll;
    var i := path[|path| - 1];
    PlaceChild(lines, root, path, j, was, mid, now, [i] + LinesOfAll(ts, |ts|), LinesOf(t), via, next, last);
    OneMoreChild(lines, i, j, ts, t);
    OneMoreTree(i, ts, t);
    Appended(ts, t);
  }

  lemma BuildEnd(lines: seq<Line>, root: nat, path: seq<nat>, was: seq<bool>, now: seq<bool>,
                 via: map<nat, seq<nat>>, next: map<nat, seq<nat>>, ts: seq<Tree>)
    requires path != [] && Building(lines, root, path, |lines|, was, now, via, next, ts)
    ensures Built(lines, root, path, was, now, via, next, Node(path[|path| - 1], ts))
  {
    hide Via, Placed, Extends, AvoidsFrom;
  }

  lemma EndInRange(lines: seq<Line>, root: nat, path: seq<nat>, i: nat)
    requires WalkTo(lines, root, path, i)
    ensures i < |lines| && path[|path| - 1] == i
  {}

  /** A placed line was reached by another walk. */
  lemma SecondWalk(lines: seq<Line>, root: nat, path: seq<nat>, i: nat, was: seq<bool>, via: map<nat, seq<nat>>)
    requires WalkTo(lines, root, path, i) && Via(lines, root, was, via) && Avoids(was, via, path) && was[i]
    ensures Shows(lines, root, ReachedTwice(i + 1))
  {
    assert path != via[i];
    assert TwoWalks(lines, root, i);
  }

  lemma FirstLongWalk(lines: seq<Line>, root: nat, path: seq<nat>, i: nat)
    requires WalkTo(lines, root, path, i) && |path| == MAX_SPAN_DEPTH + 1
    ensures Shows(lines, root, TooDeep(i + 1))
  {
    assert LongWalk(lines, root, i);
  }

  /** Builds the tree of the line at the end of `path`; `placed` marks every line already in the
      tree. */
  method BuildNode(lines: seq<Line>, i: nat, depth: nat, placed: array<bool>,
                   ghost root: nat, ghost path: seq<nat>, ghost via: map<nat, seq<nat>>)
    returns (r: Result, ghost next: map<nat, seq<nat>>)
    requires placed.Length == |lines| && WalkTo(lines, root, path, i) && |path| == depth + 1 && depth <= MAX_SPAN_DEPTH
    requires Via(lines, root, placed[..], via) && Avoids(placed[..], via, path)
    modifies placed
    ensures r.Ok? ==> Built(lines, root, path, old(placed[..]), placed[..], via, next, r.tree)
    ensures r.Err? ==> Shows(lines, root, r.error)
    decreases MAX_SPAN_DEPTH - depth
  {
    next := via;
    ghost var was := placed[..];
    EndInRange(lines, root, path, i);
    hide WalkTo, Via, Avoids, Built, Building, IsChild, Shows;
    if placed[i] {
      SecondWalk(lines, root, path, i, was, via);
      return Err(ReachedTwice(i + 1)), next;
    }
    if depth >= MAX_SPAN_DEPTH {
      FirstLongWalk(lines, root, path, i);
      return Err(TooDeep(i + 1)), next;
    }
    BuildStart(lines, root, path, i, was, via);
    placed[i] := true;
    assert placed[..] == was[i := true];
    next := next[i := path];
    var children: seq<Tree> := [];
    for j := 0 to |lines|
      invariant Building(lines, root, path, j, was, placed[..], via, next, children)
    {
      if IsChild(lines, i, j) {
        BuildDown(lines, root, path, j, was, placed[..], via, next, children);
        ghost var mid, here := placed[..], next;
        var child;
        child, next := BuildNode(lines, j, depth + 1, placed, root, path + [j], next);
        if child.Err? {
          return child, next;
        }
        BuildUp(lines, root, path, j, was, mid, placed[..], via, here, next, children, child.tree);
        children := children + [child.tree];
      } else {
        BuildSkip(lines, root, path, j, was, placed[..], via, next, children);
      }
    }
    BuildEnd(lines, root, path, was, placed[..], via, next, children);
    r := Ok(Node(i, children));
  }

  /** A trace is rendered exactly when the lines that its root reaches form a tree of at most 64
      levels; the result then has every line that is reached, once, under the line it names. */
  method Render(lines: seq<Line>, root: nat) returns (r: Result)
    requires root < |lines|
    ensures r.Ok? <==> IsTree(lines, root)
    ensures r.Ok? ==>
              && r.tree.line == root && Complete(lines, r.tree)
              && Distinct(LinesOf(r.tree)) && forall i :: i in LinesOf(r.tree) <==> Reaches(lines, root, i)
    ensures r.Err? ==> Shows(lines, root, r.error)
  {
    var placed := new bool[|lines|](_ => false);
    ghost var via;
    r, via := BuildNode(lines, root, 0, placed, root, [root], map[]);
    if r.Ok? {
      TreeIsTree(lines, r.tree);
    } else {
      ShownIsNoTree(lines, root, r.error);
    }
  }
}
