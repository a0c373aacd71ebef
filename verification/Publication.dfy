/** Publishing a set of outputs whole or not at all, while calls fail and other writers create
    files (crates/rustev-cli/src/repeat.rs:211-292). */
module Publication {
  import opened Wrappers

  type Bytes = seq<int>

  /** A path by its names, from the root. */
  type Path = seq<seq<int>>

  datatype Entry = File(bytes: Bytes) | Dir

  type Entries = map<Path, Entry>

  function Parent(p: Path): Path { if p == [] then [] else p[..|p| - 1] }

  /** `p` is `d` or below it. */
  predicate Under(d: Path, p: Path) { d <= p }

  predicate IsDir(es: Entries, p: Path) { p in es && es[p].Dir? }

  predicate IsFile(es: Entries, p: Path) { p in es && es[p].File? }

  /** A new entry can be made at `p`. */
  predicate Vacant(es: Entries, p: Path) { p != [] && p !in es && IsDir(es, Parent(p)) }

  /** Every entry but the root is in a directory. */
  predicate Rooted(es: Entries) {
    && IsDir(es, [])
    && forall p | p in es && p != [] :: IsDir(es, Parent(p))
  }

  /** What a call meets: it works, or it fails having done part of its work. */
  datatype Fate = Works | Fails(written: nat, removed: set<Path>)

  datatype Op = MakeDir | Create | Write | Link | Unlink | Prune

  /** A call that was made: what it names, whether it found what it needs there, and whether it
      met a fate that works. */
  datatype Call = Call(op: Op, path: Path, room: bool, works: bool) {
    predicate Ok() { room && works }
  }

  /** What a removal that fails may remove: some of what is there, and nothing above what stays. */
  predicate Gone(es: Entries, removed: set<Path>, p: Path) {
    forall q | q in es && Under(p, q) :: q in removed
  }

  /** A file system that other writers create files in: those of `others(n)` before the `n`th call,
      where there is room for them. No writer touches another's entries. `log` has every call
      since the disk was first looked at. */
  class Disk {
    var entries: Entries
    var clock: nat
    const others: nat -> map<Path, Bytes>
    const fate: nat -> Fate
    ghost var arrived: Entries
    ghost var log: seq<Call>

    ghost constructor (entries: Entries, others: nat -> map<Path, Bytes>, fate: nat -> Fate)
      ensures this.entries == entries && clock == 0 && this.others == others && this.fate == fate
      ensures arrived == map[] && log == []
    {
      this.entries, clock, this.others, this.fate, arrived, log := entries, 0, others, fate, map[], [];
    }

    /** The files that other writers create before the next call. */
    function Arriving(): (es: Entries)
      reads this
      ensures forall p | p in es :: Vacant(entries, p) && es[p].File?
    {
      map p | p in others(clock) && Vacant(entries, p) :: File(others(clock)[p])
    }

    /** The entries that the next call finds. */
    function Settled(): Entries
      reads this
    { entries + Arriving() }

    method CreateDir(p: Path) returns (ok: bool)
      modifies this
      ensures log == old(log + [Call(MakeDir, p, Vacant(Settled(), p), fate(clock).Works?)]) && clock == old(clock) + 1
      ensures ok <==> log[|old(log)|].Ok()
      ensures entries == if ok then old(Settled())[p := Dir] else old(Settled())
      ensures arrived == old(arrived + Arriving())
    {
      var f, new_, found := fate(clock), Arriving(), Settled();
      log := log + [Call(MakeDir, p, Vacant(found, p), f.Works?)];
      ok := f.Works? && Vacant(found, p);
      entries, arrived, clock := if ok then found[p := Dir] else found, arrived + new_, clock + 1;
    }

    /** Creates an empty file where nothing is. */
    method CreateNew(p: Path) returns (ok: bool)
      modifies this
      ensures log == old(log + [Call(Create, p, Vacant(Settled(), p), fate(clock).Works?)]) && clock == old(clock) + 1
      ensures ok <==> log[|old(log)|].Ok()
      ensures entries == if ok then old(Settled())[p := File([])] else old(Settled())
      ensures arrived == old(arrived + Arriving())
    {
      var f, new_, found := fate(clock), Arriving(), Settled();
      log := log + [Call(Create, p, Vacant(found, p), f.Works?)];
      ok := f.Works? && Vacant(found, p);
      entries, arrived, clock := if ok then found[p := File([])] else found, arrived + new_, clock + 1;
    }

    /** Writes an open file; a failure may leave part of the bytes. */
    method WriteAll(p: Path, bytes: Bytes) returns (ok: bool)
      requires IsFile(entries, p)
      modifies this
      ensures log == old(log + [Call(Write, p, true, fate(clock).Works?)]) && clock == old(clock) + 1
      ensures ok <==> log[|old(log)|].Ok()
      ensures ok ==> entries == old(Settled())[p := File(bytes)]
      ensures !ok ==> exists part :: part <= bytes && entries == old(Settled())[p := File(part)]
      ensures arrived == old(arrived + Arriving())
    {
      var f, new_, found := fate(clock), Arriving(), Settled();
      log := log + [Call(Write, p, true, f.Works?)];
      ok := f.Works?;
      var part := if ok || f.written >= |bytes| then bytes else bytes[..f.written];
      entries, arrived, clock := found[p := File(part)], arrived + new_, clock + 1;
    }

    /** A second name for a file, where nothing is. */
    method HardLink(from: Path, to: Path) returns (ok: bool)
      modifies this
      ensures log == old(log + [Call(Link, to, IsFile(Settled(), from) && Vacant(Settled(), to), fate(clock).Works?)]) && clock == old(clock) + 1
      ensures ok <==> log[|old(log)|].Ok()
      ensures entries == if ok then old(Settled())[to := old(Settled())[from]] else old(Settled())
      ensures arrived == old(arrived + Arriving())
    {
      var f, new_, found := fate(clock), Arriving(), Settled();
      log := log + [Call(Link, to, IsFile(found, from) && Vacant(found, to), f.Works?)];
      ok := f.Works? && IsFile(found, from) && Vacant(found, to);
      entries, arrived, clock := if ok then found[to := found[from]] else found, arrived + new_, clock + 1;
    }

    method RemoveFile(p: Path) returns (ok: bool)
      modifies this
      ensures log == old(log + [Call(Unlink, p, IsFile(Settled(), p), fate(clock).Works?)]) && clock == old(clock) + 1
      ensures ok <==> log[|old(log)|].Ok()
      ensures entries == if ok then old(Settled()) - {p} else old(Settled())
      ensures arrived == old(arrived + Arriving())
    {
      var f, new_, found := fate(clock), Arriving(), Settled();
      log := log + [Call(Unlink, p, IsFile(found, p), f.Works?)];
      ok := f.Works? && IsFile(found, p);
      entries, arrived, clock := if ok then found - {p} else found, arrived + new_, clock + 1;
    }

    /** Removes a directory and all below it, from below; a failure may leave any part of it. */
    method RemoveDirAll(d: Path) returns (ok: bool)
      modifies this
      ensures log == old(log + [Call(Prune, d, IsDir(Settled(), d), fate(clock).Works?)]) && clock == old(clock) + 1
      ensures ok <==> log[|old(log)|].Ok()
      ensures ok ==> entries == Outside(old(Settled()), d)
      ensures !ok ==> exists removed :: entries == Partly(old(Settled()), d, removed)
      ensures arrived == old(arrived + Arriving())
    {
      var f, new_, found := fate(clock), Arriving(), Settled();
      log := log + [Call(Prune, d, IsDir(found, d), f.Works?)];
      ok := f.Works? && IsDir(found, d);
      var removed := if f.Fails? && IsDir(found, d) then f.removed else {};
      assert !ok && f.Works? ==> Partly(found, d, {}) == found;
      entries, arrived, clock := if ok then Outside(found, d) else Partly(found, d, removed), arrived + new_, clock + 1;
    }
  }

  /** All but `d` and what is below it. */
  function Outside(es: Entries, d: Path): Entries { map p | p in es && !Under(d, p) :: es[p] }

  /** What is left when `d` was removed in part. */
  function Partly(es: Entries, d: Path, removed: set<Path>): Entries {
    map p | p in es && !(Under(d, p) && Gone(es, removed, p)) :: es[p]
  }

  // ------------------------------------------------------------ what is whose

  /** Of the entries, `base` were there, `own` are the publisher's, and the rest arrived; what
      arrived outside the created directories is still there. */
  ghost predicate Accounts(base: Entries, es: Entries, arrived: Entries, own: Entries, created: seq<Path>) {
    && Rooted(base) && Rooted(es)
    && (forall p | p in base :: p in es && es[p] == base[p])
    && (forall p | p in es :: p in base || p in own || p in arrived)
    && (forall p | p in own :: p in es && es[p] == own[p] && p !in base && p !in arrived)
    && (forall p | p in arrived :: p !in base && arrived[p].File? && (p in es ==> es[p] == arrived[p]))
    && (forall d | d in created :: d !in base && d != [])
    && (forall p | p in arrived && (forall d | d in created :: !Under(d, p)) :: p in es)
  }

  /** Nothing that arrived has gone. */
  ghost predicate AllThere(es: Entries, arrived: Entries) { forall p | p in arrived :: p in es }

  /** New files that find room. */
  ghost predicate Arrival(es: Entries, more: Entries) {
    forall p | p in more :: Vacant(es, p) && more[p].File?
  }

  lemma Settles(base: Entries, es: Entries, arrived: Entries, own: Entries, created: seq<Path>, more: Entries)
    requires Accounts(base, es, arrived, own, created) && Arrival(es, more)
    ensures Accounts(base, es + more, arrived + more, own, created)
    ensures AllThere(es, arrived) ==> AllThere(es + more, arrived + more)
  {}

  /** A new entry where nothing was. */
  lemma Gains(base: Entries, es: Entries, arrived: Entries, own: Entries, created: seq<Path>, p: Path, e: Entry)
    requires Accounts(base, es, arrived, own, created) && AllThere(es, arrived) && Vacant(es, p)
    ensures Accounts(base, es[p := e], arrived, own[p := e], created) && AllThere(es[p := e], arrived)
  {
    RootedGains(es, p, e);
    hide Rooted, Accounts, AllThere;
    GainsThere(base, es, arrived, own, created, p, e);
  }

  lemma GainsThere(base: Entries, es: Entries, arrived: Entries, own: Entries, created: seq<Path>, p: Path, e: Entry)
    requires Accounts(base, es, arrived, own, created) && AllThere(es, arrived) && p !in es && Rooted(es[p := e])
    ensures Accounts(base, es[p := e], arrived, own[p := e], created) && AllThere(es[p := e], arrived)
  {
    hide Rooted;
    assert p !in base && p !in arrived && p !in own;
  }

  lemma RootedGains(es: Entries, p: Path, e: Entry)
    requires Rooted(es) && Vacant(es, p)
    ensures Rooted(es[p := e])
  {
    var next := es[p := e];
    forall q | q in next && q != [] ensures IsDir(next, Parent(q)) {
      assert q != p ==> IsDir(es, Parent(q));
    }
  }

  /** A created directory is accounted for. */
  lemma Creates(base: Entries, es: Entries, arrived: Entries, own: Entries, created: seq<Path>, d: Path)
    requires Accounts(base, es, arrived, own, created) && AllThere(es, arrived) && d in own && d != []
    ensures Accounts(base, es, arrived, own, created + [d])
  {
    hide Rooted;
  }

  /** Bytes written to a file of its own. */
  lemma Writes(base: Entries, es: Entries, arrived: Entries, own: Entries, created: seq<Path>, p: Path, bytes: Bytes)
    requires Accounts(base, es, arrived, own, created) && p in own && own[p].File?
    ensures Accounts(base, es[p := File(bytes)], arrived, own[p := File(bytes)], created)
    ensures AllThere(es, arrived) ==> AllThere(es[p := File(bytes)], arrived)
  {
    RootedWrites(es, p, bytes);
    hide Rooted, Accounts, AllThere;
    WritesThere(base, es, arrived, own, created, p, File(bytes));
  }

  lemma WritesThere(base: Entries, es: Entries, arrived: Entries, own: Entries, created: seq<Path>, p: Path, e: Entry)
    requires Accounts(base, es, arrived, own, created) && p in own && Rooted(es[p := e])
    ensures Accounts(base, es[p := e], arrived, own[p := e], created)
    ensures AllThere(es, arrived) ==> AllThere(es[p := e], arrived)
  {
    hide Rooted;
    assert p in es && p !in base && p !in arrived;
  }

  lemma RootedWrites(es: Entries, p: Path, bytes: Bytes)
    requires Rooted(es) && IsFile(es, p)
    ensures Rooted(es[p := File(bytes)])
  {
    var next := es[p := File(bytes)];
    forall q | q in next && q != [] ensures IsDir(next, Parent(q)) {
      assert IsDir(es, Parent(q));
    }
  }

  /** A file of its own removed. */
  lemma Loses(base: Entries, es: Entries, arrived: Entries, own: Entries, created: seq<Path>, p: Path)
    requires Accounts(base, es, arrived, own, created) && p in own && own[p].File?
    ensures Accounts(base, es - {p}, arrived, own - {p}, created)
    ensures AllThere(es, arrived) ==> AllThere(es - {p}, arrived)
  {}

  lemma {:induction false} Ancestors(es: Entries, d: Path, p: Path)
    requires Rooted(es) && p in es && Under(d, p)
    ensures d in es
    decreases |p|
  {
    if d == p {
    } else {
      assert d <= Parent(p);
      Ancestors(es, d, Parent(p));
    }
  }

  /** What is left of `own`. */
  function Left(own: Entries, es: Entries): Entries { map p | p in own && p in es :: own[p] }

  lemma PartlyRooted(es: Entries, d: Path, removed: set<Path>)
    requires Rooted(es) && d != []
    ensures Rooted(Partly(es, d, removed))
  {
    var left := Partly(es, d, removed);
    forall p | p in left && p != [] ensures Parent(p) in left {
      assert IsDir(es, Parent(p));
      GoneBelow(es, removed, p);
    }
  }

  /** What is below what goes, goes. */
  lemma GoneBelow(es: Entries, removed: set<Path>, p: Path)
    ensures Gone(es, removed, Parent(p)) ==> Gone(es, removed, p)
  {
    assert forall q | Under(p, q) :: Under(Parent(p), q);
  }

  lemma OutsideIsPartly(es: Entries, d: Path)
    ensures Outside(es, d) == Partly(es, d, set p | p in es)
  {}

  /** A created directory removed, all of it or part. */
  lemma Prunes(base: Entries, es: Entries, arrived: Entries, own: Entries, created: seq<Path>, d: Path, removed: set<Path>)
    requires Accounts(base, es, arrived, own, created) && d in created
    ensures var left := Partly(es, d, removed);
      Accounts(base, left, arrived, Left(own, left), created)
  {
    PartlyRooted(es, d, removed);
    BaseOutside(base, d);
    hide Rooted, Gone;
  }

  lemma BaseOutside(base: Entries, d: Path)
    requires Rooted(base) && d !in base
    ensures forall p | p in base :: !Under(d, p)
  {
    forall p | p in base ensures !Under(d, p) {
      if Under(d, p) {
        Ancestors(base, d, p);
      }
    }
  }

  // ------------------------------------------------------------------- the plan

  datatype Output = Output(path: Path, bytes: Bytes)

  /** `leftover` are temporary files that could not be removed; `uncleaned` is what the rollback
      could not remove. */
  datatype Result = Published(leftover: seq<Path>) | Failed(path: Path, uncleaned: seq<Path>)

  /** The temporary file beside `p`. */
  function Temporary(p: Path, name: seq<int>): Path { Parent(p) + [name] }

  /** A call to make, and the path that a failure of it is reported for. */
  datatype Task = Task(op: Op, path: Path, subject: Path)

  /** What is to be published, and the names of temporary files. */
  datatype Plan = Plan(files: seq<Output>, dirs: seq<Path>, name: nat -> seq<int>, next: nat) {
    function Temp(k: nat): Path
      requires k < |files|
    { Temporary(files[k].path, name(next + k)) }

    function Length(): nat { |dirs| + 3 * |files| }

    /** The calls in their order: directories, then each output staged, then each put in place. */
    function At(i: nat): Task
      requires i < Length()
    {
      var j := i - |dirs|;
      if j < 0 then Task(MakeDir, dirs[i], dirs[i])
      else if j < 2 * |files| then Task(if j % 2 == 0 then Create else Write, Temp(j / 2), files[j / 2].path)
      else Task(Link, files[j - 2 * |files|].path, files[j - 2 * |files|].path)
    }

    // What the first `n` calls make.

    function Dirs(n: nat): seq<Path> { if n < |dirs| then dirs[..n] else dirs }

    function Temps(n: nat): (ps: seq<Path>)
    {
      var k := if n < |dirs| then 0 else (n - |dirs| + 1) / 2;
      FirstTemps(if k < |files| then k else |files|)
    }

    function FirstTemps(k: nat): (ps: seq<Path>)
      requires k <= |files|
      ensures |ps| == k && forall i | 0 <= i < k :: ps[i] == Temp(i)
    { seq(k, i requires 0 <= i < k => Temp(i)) }

    function Placed(n: nat): seq<Path>
      requires n <= Length()
    { Paths(files, if n < |dirs| + 2 * |files| then 0 else n - |dirs| - 2 * |files|) }
  }

  function Paths(files: seq<Output>, n: nat): (ps: seq<Path>)
    requires n <= |files|
    ensures |ps| == n && forall k | 0 <= k < n :: ps[k] == files[k].path
  {
    seq(n, k requires 0 <= k < n => files[k].path)
  }

  /** The calls are the first of the plan. */
  predicate Follows(calls: seq<Call>, plan: Plan) {
    |calls| <= plan.Length() && forall k | 0 <= k < |calls| :: calls[k].op == plan.At(k).op && calls[k].path == plan.At(k).path
  }

  /** The calls are the first of the plan, and each works. */
  predicate Going(calls: seq<Call>, plan: Plan) {
    Follows(calls, plan) && forall k | 0 <= k < |calls| :: calls[k].Ok()
  }

  /** The calls are the first of the plan, and the last is the first that does not work. */
  predicate Stopped(calls: seq<Call>, plan: Plan) {
    && calls != [] && Follows(calls, plan)
    && Going(calls[..|calls| - 1], plan) && !calls[|calls| - 1].Ok()
  }

  lemma GoesOn(calls: seq<Call>, plan: Plan, c: Call)
    requires Going(calls, plan) && |calls| < plan.Length()
    requires c.op == plan.At(|calls|).op && c.path == plan.At(|calls|).path
    ensures c.Ok() ==> Going(calls + [c], plan)
    ensures !c.Ok() ==> Stopped(calls + [c], plan)
  {
    assert (calls + [c])[..|calls|] == calls;
  }

  /** The paths of the calls that do not work. */
  function FailedOf(calls: seq<Call>): (ps: seq<Path>)
    ensures forall p :: p in ps <==> exists k | 0 <= k < |calls| :: calls[k].path == p && !calls[k].Ok()
  {
    if calls == [] then []
    else
      var n := |calls| - 1;
      FailedOf(calls[..n]) + if calls[n].Ok() then [] else [calls[n].path]
  }

  lemma FailedNext(calls: seq<Call>, c: Call)
    ensures FailedOf(calls + [c]) == FailedOf(calls) + if c.Ok() then [] else [c.path]
  {
    assert (calls + [c])[..|calls|] == calls;
  }

  lemma {:induction false} FailedApart(a: seq<Call>, b: seq<Call>)
    ensures FailedOf(a + b) == FailedOf(a) + FailedOf(b)
  {
    if b == [] {
      assert a + b == a;
    } else {
      var n := |b| - 1;
      FailedApart(a, b[..n]);
      assert (a + b)[..|a + b| - 1] == a + b[..n];
    }
  }

  /** Removals of `ps[i..]`, the last first, each of something that is there. */
  predicate Backwards(calls: seq<Call>, op: Op, ps: seq<Path>, i: nat) {
    && i <= |ps| && |calls| == |ps| - i
    && forall k | 0 <= k < |calls| :: calls[k].op == op && calls[k].path == ps[|ps| - 1 - k] && calls[k].room
  }

  /** Removals of `ps[..i]`, the first first, each of something that is there. */
  predicate Forwards(calls: seq<Call>, op: Op, ps: seq<Path>, i: nat) {
    && |calls| == i <= |ps|
    && forall k | 0 <= k < i :: calls[k].op == op && calls[k].path == ps[k] && calls[k].room
  }

  /** The removals that undo what was made, in the reverse of its order. */
  predicate Undoes(calls: seq<Call>, placed: seq<Path>, temporary: seq<Path>, created: seq<Path>) {
    var i, j := |placed|, |placed| + |temporary|;
    && j <= |calls|
    && Backwards(calls[..i], Unlink, placed, 0)
    && Backwards(calls[i..j], Unlink, temporary, 0)
    && Backwards(calls[j..], Prune, created, 0)
  }

  // -------------------------------------------------------------------- publishing

  ghost predicate Publishing(base: Entries, disk: Disk, own: Entries, created: seq<Path>)
    reads disk
  {
    Accounts(base, disk.entries, disk.arrived, own, created) && AllThere(disk.entries, disk.arrived)
  }

  /** No directory was created before one that it is in. */
  predicate AncestorsFirst(created: seq<Path>) {
    forall i, j | 0 <= i < j < |created| :: !Under(created[j], created[i])
  }

  /** What a publisher owns: the directories it created, and files in place and temporary, all
      apart. */
  ghost predicate Owns(own: Entries, created: seq<Path>, placed: seq<Path>, temporary: seq<Path>) {
    && (forall p :: p in own <==> p in created || p in placed || p in temporary)
    && (forall d | d in created :: d in own && own[d].Dir?)
    && (forall p | p in placed :: p in own && own[p].File? && p !in temporary)
    && (forall p | p in temporary :: p in own && own[p].File?)
    && Distinct(placed) && Distinct(temporary) && AncestorsFirst(created)
  }

  /** One more call was made. */
  ghost predicate Logs(was: seq<Call>, now: seq<Call>, op: Op, path: Path, ok: bool) {
    |now| == |was| + 1 && now[..|was|] == was && now[|was|].op == op && now[|was|].path == path && now[|was|].Ok() == ok
  }

  lemma LogsGoOn(was: seq<Call>, now: seq<Call>, op: Op, path: Path, ok: bool, plan: Plan)
    requires Logs(was, now, op, path, ok) && Going(was, plan) && |was| < plan.Length()
    requires op == plan.At(|was|).op && path == plan.At(|was|).path
    ensures if ok then Going(now, plan) else Stopped(now, plan)
  {
    assert now == was + [now[|was|]];
    GoesOn(was, plan, now[|was|]);
  }

  method MakeOneDir(disk: Disk, d: Path, ghost base: Entries, ghost own: Entries, ghost created: seq<Path>)
    returns (ok: bool)
    requires Publishing(base, disk, own, created) && Owns(own, created, [], [])
    modifies disk
    ensures Logs(old(disk.log), disk.log, MakeDir, d, ok)
    ensures ok ==> Publishing(base, disk, own[d := Dir], created + [d]) && Owns(own[d := Dir], created + [d], [], [])
    ensures !ok ==> Publishing(base, disk, own, created)
  {
    hide Accounts, AllThere, Rooted, Owns;
    ghost var es, more, was := disk.entries, disk.Arriving(), disk.arrived;
    Settles(base, es, was, own, created, more);
    ok := disk.CreateDir(d);
    if ok {
      NotOwned(base, es + more, was + more, own, created, d);
      NoAncestor(base, es + more, was + more, own, created, d);
      Gains(base, es + more, was + more, own, created, d, Dir);
      Creates(base, disk.entries, was + more, own[d := Dir], created, d);
      OwnsDir(own, created, d);
    }
  }

  lemma NotOwned(base: Entries, es: Entries, arrived: Entries, own: Entries, created: seq<Path>, p: Path)
    requires Accounts(base, es, arrived, own, created) && Vacant(es, p)
    ensures p !in own && p !in base
  {}

  /** A new directory is above nothing that is there. */
  lemma NoAncestor(base: Entries, es: Entries, arrived: Entries, own: Entries, created: seq<Path>, d: Path)
    requires Accounts(base, es, arrived, own, created) && Vacant(es, d) && Owns(own, created, [], [])
    ensures forall c | c in created :: !Under(d, c)
  {
    forall c | c in created ensures !Under(d, c) {
      assert c in es;
      NotAbove(es, d, c);
    }
  }

  lemma NotAbove(es: Entries, d: Path, c: Path)
    requires Rooted(es) && c in es && d !in es
    ensures !Under(d, c)
  {
    if Under(d, c) {
      Ancestors(es, d, c);
    }
  }

  lemma OwnsDir(own: Entries, created: seq<Path>, d: Path)
    requires Owns(own, created, [], []) && d !in own && forall c | c in created :: !Under(d, c)
    ensures Owns(own[d := Dir], created + [d], [], [])
  {}

  method MakeDirs(disk: Disk, plan: Plan, ghost base: Entries) returns (failed: nat, ghost own: Entries)
    requires Publishing(base, disk, map[], []) && disk.log == []
    modifies disk
    ensures failed <= |plan.dirs|
    ensures if failed == |plan.dirs| then Going(disk.log, plan) && |disk.log| == failed
            else Stopped(disk.log, plan) && |disk.log| == failed + 1
    ensures Publishing(base, disk, own, plan.Dirs(failed)) && Owns(own, plan.Dirs(failed), [], [])
  {
    hide Publishing, Logs, Going, Stopped, Owns;
    own := map[];
    NothingDone(plan);
    for i := 0 to |plan.dirs|
      invariant |disk.log| == i && Going(disk.log, plan)
      invariant Publishing(base, disk, own, plan.Dirs(i)) && Owns(own, plan.Dirs(i), [], [])
    {
      ghost var was := disk.log;
      var ok := MakeOneDir(disk, plan.dirs[i], base, own, plan.Dirs(i));
      LogsGoOn(was, disk.log, MakeDir, plan.dirs[i], ok, plan);
      LogLonger(was, disk.log, MakeDir, plan.dirs[i], ok);
      if !ok {
        return i, own;
      }
      assert plan.Dirs(i + 1) == plan.Dirs(i) + [plan.dirs[i]];
      own := own[plan.dirs[i] := Dir];
    }
    failed := |plan.dirs|;
  }

  lemma LogLonger(was: seq<Call>, now: seq<Call>, op: Op, path: Path, ok: bool)
    requires Logs(was, now, op, path, ok)
    ensures |now| == |was| + 1
  {}

  lemma NothingDone(plan: Plan)
    ensures Going([], plan) && plan.Dirs(0) == [] && Owns(map[], [], [], [])
  {}

  method StageOne(disk: Disk, f: Output, temp: Path, ghost base: Entries, ghost own: Entries, ghost created: seq<Path>)
    returns (ok: bool, made: bool, ghost mid: seq<Call>, ghost next: Entries)
    requires Publishing(base, disk, own, created)
    modifies disk
    ensures Publishing(base, disk, next, created)
    ensures Logs(old(disk.log), mid, Create, temp, made)
    ensures if !made then !ok && next == own && disk.log == mid
            else temp !in own && (exists part :: part <= f.bytes && next == own[temp := File(part)])
                 && (ok ==> next == own[temp := File(f.bytes)])
                 && Logs(mid, disk.log, Write, temp, ok)
  {
    hide Accounts, AllThere, Rooted;
    next := own;
    ghost var es, more, was := disk.entries, disk.Arriving(), disk.arrived;
    Settles(base, es, was, own, created, more);
    made := disk.CreateNew(temp);
    mid := disk.log;
    if !made {
      return false, false, mid, next;
    }
    NotOwned(base, es + more, was + more, own, created, temp);
    Gains(base, es + more, was + more, own, created, temp, File([]));
    next := own[temp := File([])];
    es, more, was := disk.entries, disk.Arriving(), disk.arrived;
    Settles(base, es, was, next, created, more);
    ok := disk.WriteAll(temp, f.bytes);
    ghost var part :| part <= f.bytes && disk.entries == (es + more)[temp := File(part)] && (ok ==> part == f.bytes);
    Writes(base, es + more, was + more, next, created, temp, part);
    assert next[temp := File(part)] == own[temp := File(part)];
    next := own[temp := File(part)];
  }

  /** The first temporary files hold the first outputs' bytes. */
  ghost predicate Staged(plan: Plan, n: nat, own: Entries) {
    n <= |plan.files| && forall k | 0 <= k < n :: plan.Temp(k) in own && own[plan.Temp(k)] == File(plan.files[k].bytes)
  }

  /** Stages outputs until one fails; the last temporary file may then be incomplete. */
  method StageAll(disk: Disk, plan: Plan, ghost base: Entries, ghost had: Entries)
    returns (failed: nat, temporary: seq<Path>, ghost own: Entries)
    requires Publishing(base, disk, had, plan.dirs) && Owns(had, plan.dirs, [], [])
    requires Going(disk.log, plan) && |disk.log| == |plan.dirs|
    modifies disk
    ensures failed <= |plan.files|
    ensures if failed == |plan.files| then Going(disk.log, plan) && |disk.log| == |plan.dirs| + 2 * failed
            else Stopped(disk.log, plan) && |plan.dirs| + 2 * failed < |disk.log| <= |plan.dirs| + 2 * failed + 2
    ensures failed == |plan.files| ==> Staged(plan, failed, own) && temporary == plan.FirstTemps(failed)
    ensures failed < |plan.files| ==> temporary == plan.Temps(|disk.log| - 1)
    ensures Publishing(base, disk, own, plan.dirs) && Owns(own, plan.dirs, [], temporary)
  {
    hide Publishing, Logs, Going, Stopped, Owns, Staged;
    own := had;
    temporary := [];
    NothingStaged(plan, own);
    for i := 0 to |plan.files|
      invariant temporary == plan.FirstTemps(i) && Staged(plan, i, own)
      invariant Going(disk.log, plan) && |disk.log| == |plan.dirs| + 2 * i
      invariant Publishing(base, disk, own, plan.dirs) && Owns(own, plan.dirs, [], temporary)
    {
      var temp := plan.Temp(i);
      var ok, made;
      ghost var mid, was, log := [], own, disk.log;
      ok, made, mid, own := StageOne(disk, plan.files[i], temp, base, own, plan.dirs);
      LogsGoOn(log, mid, Create, temp, made, plan);
      LogLonger(log, mid, Create, temp, made);
      if made {
        StagedNext(plan, i, was, own, plan.dirs);
        temporary := temporary + [temp];
        LogsGoOn(mid, disk.log, Write, temp, ok, plan);
        LogLonger(mid, disk.log, Write, temp, ok);
      }
      if !ok {
        return i, temporary, own;
      }
    }
    failed := |plan.files|;
  }

  lemma NothingStaged(plan: Plan, own: Entries)
    ensures Staged(plan, 0, own) && plan.FirstTemps(0) == []
  {}

  lemma StagedNext(plan: Plan, n: nat, was: Entries, own: Entries, created: seq<Path>)
    requires n < |plan.files| && Staged(plan, n, was)
    requires Owns(was, created, [], plan.FirstTemps(n)) && plan.Temp(n) !in was
    requires exists bytes :: own == was[plan.Temp(n) := File(bytes)]
    ensures plan.FirstTemps(n + 1) == plan.FirstTemps(n) + [plan.Temp(n)]
    ensures Owns(own, created, [], plan.FirstTemps(n + 1))
    ensures own[plan.Temp(n)] == File(plan.files[n].bytes) ==> Staged(plan, n + 1, own)
  {
    var before, after := plan.FirstTemps(n), plan.FirstTemps(n + 1);
    assert after == before + [plan.Temp(n)];
    OwnsTemp(was, own, created, before, plan.Temp(n));
    hide Owns;
    forall k | 0 <= k < n ensures plan.Temp(k) != plan.Temp(n) {}
  }

  lemma OwnsTemp(was: Entries, own: Entries, created: seq<Path>, temporary: seq<Path>, temp: Path)
    requires Owns(was, created, [], temporary) && temp !in was && exists bytes :: own == was[temp := File(bytes)]
    ensures Owns(own, created, [], temporary + [temp])
  {
    hide AncestorsFirst;
  }

  method PlaceOne(disk: Disk, from: Path, to: Path, ghost base: Entries, ghost own: Entries, ghost created: seq<Path>)
    returns (ok: bool)
    requires Publishing(base, disk, own, created) && from in own && own[from].File?
    modifies disk
    ensures Logs(old(disk.log), disk.log, Link, to, ok)
    ensures ok ==> to !in own && Publishing(base, disk, own[to := own[from]], created)
    ensures !ok ==> Publishing(base, disk, own, created)
  {
    hide Accounts, AllThere, Rooted;
    ghost var es, more, was := disk.entries, disk.Arriving(), disk.arrived;
    Settles(base, es, was, own, created, more);
    Owned(base, es + more, was + more, own, created, from);
    ok := disk.HardLink(from, to);
    if ok {
      NotOwned(base, es + more, was + more, own, created, to);
      Gains(base, es + more, was + more, own, created, to, own[from]);
    }
  }

  lemma Owned(base: Entries, es: Entries, arrived: Entries, own: Entries, created: seq<Path>, p: Path)
    requires Accounts(base, es, arrived, own, created) && p in own
    ensures p in es && es[p] == own[p]
  {}

  /** The first outputs are in place. */
  ghost predicate InPlace(files: seq<Output>, n: nat, own: Entries) {
    n <= |files| && forall k | 0 <= k < n :: files[k].path in own && own[files[k].path] == File(files[k].bytes)
  }

  /** Links outputs into place until one fails. */
  method PlaceAll(disk: Disk, plan: Plan, ghost base: Entries, ghost had: Entries)
    returns (failed: nat, placed: seq<Path>, ghost own: Entries)
    requires Staged(plan, |plan.files|, had)
    requires Publishing(base, disk, had, plan.dirs) && Owns(had, plan.dirs, [], plan.FirstTemps(|plan.files|))
    requires Going(disk.log, plan) && |disk.log| == |plan.dirs| + 2 * |plan.files|
    modifies disk
    ensures failed <= |plan.files| && placed == Paths(plan.files, failed) && InPlace(plan.files, failed, own)
    ensures if failed == |plan.files| then Going(disk.log, plan) && |disk.log| == plan.Length()
            else Stopped(disk.log, plan) && |disk.log| == |plan.dirs| + 2 * |plan.files| + failed + 1
    ensures Publishing(base, disk, own, plan.dirs) && Owns(own, plan.dirs, placed, plan.FirstTemps(|plan.files|))
  {
    hide Publishing, Logs, Going, Stopped, Owns, InPlace, Staged;
    placed, own := [], had;
    NothingPlaced(plan, own);
    for i := 0 to |plan.files|
      invariant placed == Paths(plan.files, i) && InPlace(plan.files, i, own)
      invariant Staged(plan, |plan.files|, own)
      invariant Going(disk.log, plan) && |disk.log| == |plan.dirs| + 2 * |plan.files| + i
      invariant Publishing(base, disk, own, plan.dirs) && Owns(own, plan.dirs, placed, plan.FirstTemps(|plan.files|))
    {
      ghost var was := disk.log;
      TempIsFile(plan, i, own);
      var ok := PlaceOne(disk, plan.Temp(i), plan.files[i].path, base, own, plan.dirs);
      LogsGoOn(was, disk.log, Link, plan.files[i].path, ok, plan);
      LogLonger(was, disk.log, Link, plan.files[i].path, ok);
      if !ok {
        return i, placed, own;
      }
      PlacedNext(plan, placed, i, own, plan.dirs);
      placed := placed + [plan.files[i].path];
      own := own[plan.files[i].path := own[plan.Temp(i)]];
    }
    failed := |plan.files|;
  }

  lemma NothingPlaced(plan: Plan, own: Entries)
    ensures InPlace(plan.files, 0, own) && Paths(plan.files, 0) == []
  {}

  lemma TempIsFile(plan: Plan, i: nat, own: Entries)
    requires i < |plan.files| && Staged(plan, |plan.files|, own)
    ensures plan.Temp(i) in own && own[plan.Temp(i)].File?
  {}

  lemma PlacedNext(plan: Plan, placed: seq<Path>, i: nat, own: Entries, created: seq<Path>)
    requires i < |plan.files| && placed == Paths(plan.files, i) && InPlace(plan.files, i, own)
    requires Staged(plan, |plan.files|, own) && Owns(own, created, placed, plan.FirstTemps(|plan.files|))
    requires plan.files[i].path !in own
    ensures var to := plan.files[i].path;
      var next := own[to := own[plan.Temp(i)]];
      && placed + [to] == Paths(plan.files, i + 1) && InPlace(plan.files, i + 1, next)
      && Staged(plan, |plan.files|, next)
      && Owns(next, created, placed + [to], plan.FirstTemps(|plan.files|))
  {
    TempIsFile(plan, i, own);
    StagedStays(plan, i, own);
    OwnsFile(own, created, placed, plan.FirstTemps(|plan.files|), plan.files[i].path, own[plan.Temp(i)]);
    InPlaceNext(plan, i, own);
    hide Owns, InPlace, Staged;
  }

  lemma StagedStays(plan: Plan, i: nat, own: Entries)
    requires i < |plan.files| && Staged(plan, |plan.files|, own) && plan.files[i].path !in own
    ensures Staged(plan, |plan.files|, own[plan.files[i].path := own[plan.Temp(i)]])
  {}

  lemma InPlaceNext(plan: Plan, i: nat, own: Entries)
    requires i < |plan.files| && Staged(plan, |plan.files|, own) && InPlace(plan.files, i, own) && plan.files[i].path !in own
    ensures InPlace(plan.files, i + 1, own[plan.files[i].path := own[plan.Temp(i)]])
  {}

  lemma OwnsFile(own: Entries, created: seq<Path>, placed: seq<Path>, temporary: seq<Path>, to: Path, e: Entry)
    requires Owns(own, created, placed, temporary) && to !in own && e.File?
    ensures Owns(own[to := e], created, placed + [to], temporary)
  {}

  // ---------------------------------------------------------------------- rollback

  /** Nothing that was there is gone or changed. */
  ghost predicate Kept(base: Entries, es: Entries) {
    Rooted(base) && forall p | p in base :: p in es && es[p] == base[p]
  }

  /** A removal that finds its file, and so fails only by its fate. */
  method RemoveOwn(disk: Disk, p: Path, ghost base: Entries, ghost own: Entries, ghost created: seq<Path>)
    returns (ok: bool)
    requires Accounts(base, disk.entries, disk.arrived, own, created) && p in own && own[p].File?
    modifies disk
    ensures Logs(old(disk.log), disk.log, Unlink, p, ok) && disk.log[|old(disk.log)|].room
    ensures Accounts(base, disk.entries, disk.arrived, if ok then own - {p} else own, created)
    ensures old(AllThere(disk.entries, disk.arrived)) ==> AllThere(disk.entries, disk.arrived)
  {
    hide Accounts, AllThere, Rooted;
    ghost var es, more, was := disk.entries, disk.Arriving(), disk.arrived;
    Settles(base, es, was, own, created, more);
    Owned(base, es + more, was + more, own, created, p);
    ok := disk.RemoveFile(p);
    if ok {
      Loses(base, es + more, was + more, own, created, p);
    }
  }

  /** `own` is `had` without those of `ps` that are not left. */
  ghost predicate Without(own: Entries, had: Entries, ps: seq<Path>, left: seq<Path>) {
    && (forall p :: p in own <==> p in had && (p !in ps || p in left))
    && (forall p | p in own :: own[p] == had[p])
    && forall p | p in left :: p in ps
  }

  lemma BackwardsNext(was: seq<Call>, now: seq<Call>, calls: seq<Call>, op: Op, ps: seq<Path>, i: nat, ok: bool)
    requires i < |ps| && Backwards(calls, op, ps, i + 1) && Logs(was, now, op, ps[i], ok) && now[|was|].room
    ensures Backwards(calls + [now[|was|]], op, ps, i) && now == was + [now[|was|]]
    ensures FailedOf(calls + [now[|was|]]) == FailedOf(calls) + if ok then [] else [ps[i]]
  {
    FailedNext(calls, now[|was|]);
  }

  /** Removes files of its own, the last first; those whose call fails are left. */
  method RemoveFiles(disk: Disk, ps: seq<Path>, ghost base: Entries, ghost had: Entries, ghost created: seq<Path>)
    returns (left: seq<Path>, ghost calls: seq<Call>, ghost own: Entries)
    requires Accounts(base, disk.entries, disk.arrived, had, created)
    requires Distinct(ps) && forall p | p in ps :: p in had && had[p].File?
    modifies disk
    ensures disk.log == old(disk.log) + calls && Backwards(calls, Unlink, ps, 0) && left == FailedOf(calls)
    ensures Accounts(base, disk.entries, disk.arrived, own, created) && Without(own, had, ps, left)
  {
    hide Accounts, Logs, Backwards, FailedOf;
    left, own, calls := [], had, [];
    NothingRemoved(ps);
    for i := |ps| downto 0
      invariant Accounts(base, disk.entries, disk.arrived, own, created) && Without(own, had, ps[i..], left)
      invariant disk.log == old(disk.log) + calls && Backwards(calls, Unlink, ps, i) && left == FailedOf(calls)
    {
      assert ps[i..] == [ps[i]] + ps[i + 1..];
      assert ps[i] !in ps[i + 1..];
      ghost var was := disk.log;
      var ok := RemoveOwn(disk, ps[i], base, own, created);
      LogLonger(was, disk.log, Unlink, ps[i], ok);
      BackwardsNext(was, disk.log, calls, Unlink, ps, i, ok);
      calls := calls + [disk.log[|was|]];
      if ok {
        own := own - {ps[i]};
      } else {
        left := left + [ps[i]];
      }
    }
    assert ps[0..] == ps;
  }

  lemma NothingRemoved(ps: seq<Path>)
    ensures Backwards([], Unlink, ps, |ps|) && Backwards([], Prune, ps, |ps|) && Forwards([], Unlink, ps, 0)
    ensures FailedOf([]) == []
  {}

  /** A recursive removal that finds its directory, and so fails only by its fate. */
  method RemoveOneDir(disk: Disk, d: Path, ghost base: Entries, ghost own: Entries, ghost created: seq<Path>)
    returns (ok: bool, ghost next: Entries)
    requires Accounts(base, disk.entries, disk.arrived, own, created) && d in created && d in own && own[d].Dir?
    modifies disk
    ensures Logs(old(disk.log), disk.log, Prune, d, ok) && disk.log[|old(disk.log)|].room
    ensures Accounts(base, disk.entries, disk.arrived, next, created)
    ensures forall p | p in next :: p in own && next[p] == own[p] && !(ok && Under(d, p))
    ensures forall p | p in own && !Under(d, p) :: p in next
  {
    hide Accounts, Rooted, Gone;
    ghost var es, more, was := disk.entries, disk.Arriving(), disk.arrived;
    Settles(base, es, was, own, created, more);
    Owned(base, es + more, was + more, own, created, d);
    forall p | p in own ensures p in es + more {
      Owned(base, es + more, was + more, own, created, p);
    }
    ok := disk.RemoveDirAll(d);
    ghost var removed: set<Path>;
    if ok {
      removed := set p | p in es + more;
      OutsideIsPartly(es + more, d);
    } else {
      removed :| disk.entries == Partly(es + more, d, removed);
    }
    Prunes(base, es + more, was + more, own, created, d, removed);
    next := Left(own, disk.entries);
  }

  /** What is owned after removing `created[i..]`: nothing under a directory that was removed, and
      all the directories before. */
  ghost predicate Cleared(own: Entries, had: Entries, created: seq<Path>, i: nat, left: seq<Path>) {
    && i <= |created|
    && (forall p | p in own :: p in had && own[p] == had[p])
    && (forall k | 0 <= k < i :: created[k] in own)
    && forall k, p | i <= k < |created| && created[k] !in left && p in own :: !Under(created[k], p)
  }

  lemma ClearsNext(own: Entries, next: Entries, had: Entries, created: seq<Path>, i: nat, left: seq<Path>, ok: bool)
    requires i < |created| && AncestorsFirst(created) && Cleared(own, had, created, i + 1, left)
    requires forall p | p in next :: p in own && next[p] == own[p] && !(ok && Under(created[i], p))
    requires forall p | p in own && !Under(created[i], p) :: p in next
    ensures Cleared(next, had, created, i, left + if ok then [] else [created[i]])
  {}

  /** Removes created directories with all below them, the last first; those whose call fails are
      left, in part. */
  method RemoveDirs(disk: Disk, created: seq<Path>, ghost base: Entries, ghost had: Entries)
    returns (left: seq<Path>, ghost calls: seq<Call>, ghost own: Entries)
    requires Accounts(base, disk.entries, disk.arrived, had, created) && AncestorsFirst(created)
    requires forall d | d in created :: d in had && had[d].Dir?
    modifies disk
    ensures disk.log == old(disk.log) + calls && Backwards(calls, Prune, created, 0) && left == FailedOf(calls)
    ensures Accounts(base, disk.entries, disk.arrived, own, created) && Cleared(own, had, created, 0, left)
  {
    hide Accounts, Logs, Backwards, FailedOf, Cleared;
    left, own, calls := [], had, [];
    NothingRemoved(created);
    NothingCleared(had, created);
    for i := |created| downto 0
      invariant Accounts(base, disk.entries, disk.arrived, own, created) && Cleared(own, had, created, i, left)
      invariant disk.log == old(disk.log) + calls && Backwards(calls, Prune, created, i) && left == FailedOf(calls)
    {
      ghost var was, before := disk.log, own;
      StillOwned(own, had, created, i, left);
      var ok;
      ok, own := RemoveOneDir(disk, created[i], base, own, created);
      ClearsNext(before, own, had, created, i, left, ok);
      LogLonger(was, disk.log, Prune, created[i], ok);
      BackwardsNext(was, disk.log, calls, Prune, created, i, ok);
      calls := calls + [disk.log[|was|]];
      left := left + if ok then [] else [created[i]];
    }
  }

  lemma NothingCleared(had: Entries, created: seq<Path>)
    requires forall d | d in created :: d in had
    ensures Cleared(had, had, created, |created|, [])
  {}

  lemma StillOwned(own: Entries, had: Entries, created: seq<Path>, i: nat, left: seq<Path>)
    requires Cleared(own, had, created, i + 1, left) && forall d | d in created :: d in had && had[d].Dir?
    ensures created[i] in own && own[created[i]].Dir?
  {}

  /** `p` is below `d`. */
  predicate Below(d: Path, p: Path) { Under(d, p) && p != d }

  /** What a rollback leaves: all that was there, what it could not remove, and what other writers
      made, all of it outside the directories that were created and none below one that was
      removed. */
  ghost predicate Restored(base: Entries, es: Entries, arrived: Entries, created: seq<Path>, uncleaned: seq<Path>) {
    && (forall p | p in base :: p in es && es[p] == base[p])
    && (forall p | p in es :: p in base || p in uncleaned || (p in arrived && es[p] == arrived[p]))
    && (forall p, d | p in es && d in created && Below(d, p) :: d in uncleaned)
    && forall p | p in arrived && (forall d | d in created :: !Under(d, p)) :: p in es
  }

  lemma {:induction false} BelowDir(es: Entries, d: Path, p: Path)
    requires Rooted(es) && p in es && Below(d, p)
    ensures IsDir(es, d)
    decreases |p|
  {
    assert d <= Parent(p);
    if d != Parent(p) {
      BelowDir(es, d, Parent(p));
    }
  }

  /** What is still owned is what could not be removed. */
  lemma RestoredBut(base: Entries, es: Entries, arrived: Entries, own: Entries, created: seq<Path>, uncleaned: seq<Path>)
    requires Accounts(base, es, arrived, own, created) && forall p | p in own :: p in uncleaned
    ensures Restored(base, es, arrived, created, uncleaned)
  {
    forall p, d | p in es && d in created && Below(d, p) ensures d in uncleaned {
      BelowDir(es, d, p);
    }
  }

  /** Undoes what was made, in the reverse of its order. Each removal finds what it is for, so
      the calls that fail are just those whose fate does; what they were for is reported, and
      nothing else is left. */
  method Rollback(disk: Disk, placed: seq<Path>, temporary: seq<Path>, created: seq<Path>, ghost base: Entries, ghost own: Entries)
    returns (uncleaned: seq<Path>, ghost undo: seq<Call>)
    requires Publishing(base, disk, own, created) && Owns(own, created, placed, temporary)
    modifies disk
    ensures disk.log == old(disk.log) + undo && Undoes(undo, placed, temporary, created) && uncleaned == FailedOf(undo)
    ensures Kept(base, disk.entries) && Restored(base, disk.entries, disk.arrived, created, uncleaned)
  {
    hide Accounts, AllThere, Backwards, FailedOf, Undoes, Restored, Kept;
    ghost var next, last, rest;
    ghost var x, y, z;
    var a, b, c;
    a, x, next := RemoveFiles(disk, placed, base, own, created);
    b, y, last := RemoveFiles(disk, temporary, base, next, created);
    c, z, rest := RemoveDirs(disk, created, base, last);
    uncleaned := a + b + c;
    undo := x + y + z;
    assert disk.log == old(disk.log) + undo;
    UndoesAll(x, y, z, placed, temporary, created);
    OnlyUncleaned(own, next, last, rest, created, placed, temporary, a, b, c);
    RestoredBut(base, disk.entries, disk.arrived, rest, created, uncleaned);
    StillKept(base, disk.entries, disk.arrived, rest, created);
  }

  lemma UndoesAll(x: seq<Call>, y: seq<Call>, z: seq<Call>, placed: seq<Path>, temporary: seq<Path>, created: seq<Path>)
    requires Backwards(x, Unlink, placed, 0) && Backwards(y, Unlink, temporary, 0) && Backwards(z, Prune, created, 0)
    ensures Undoes(x + y + z, placed, temporary, created)
    ensures FailedOf(x + y + z) == FailedOf(x) + FailedOf(y) + FailedOf(z)
  {
    var calls := x + y + z;
    assert calls[..|x|] == x && calls[|x|..|x| + |y|] == y && calls[|x| + |y|..] == z;
    FailedApart(x + y, z);
    FailedApart(x, y);
  }

  lemma OnlyUncleaned(own: Entries, next: Entries, last: Entries, rest: Entries, created: seq<Path>, placed: seq<Path>,
                      temporary: seq<Path>, a: seq<Path>, b: seq<Path>, c: seq<Path>)
    requires Owns(own, created, placed, temporary)
    requires Without(next, own, placed, a) && Without(last, next, temporary, b) && Cleared(rest, last, created, 0, c)
    ensures forall p | p in rest :: p in a + b + c
  {
    hide AncestorsFirst, Distinct;
    assert forall k | 0 <= k < |created| :: Under(created[k], created[k]);
    forall p | p in rest ensures p in a + b + c {
      if p in created {
        var k :| 0 <= k < |created| && created[k] == p;
      }
    }
  }

  lemma StillKept(base: Entries, es: Entries, arrived: Entries, own: Entries, created: seq<Path>)
    requires Accounts(base, es, arrived, own, created)
    ensures Kept(base, es)
  {}

  // --------------------------------------------------------------- all or nothing

  /** What success leaves: every output with exactly its bytes, every directory, all that was
      there and all that arrived, and nothing else but temporary files that could not be removed. */
  ghost predicate Delivered(base: Entries, es: Entries, arrived: Entries, plan: Plan, leftover: seq<Path>) {
    && (forall k | 0 <= k < |plan.files| :: plan.files[k].path in es && es[plan.files[k].path] == File(plan.files[k].bytes))
    && (forall k | 0 <= k < |plan.files| :: plan.files[k].path !in base && plan.files[k].path !in arrived)
    && (forall d | d in plan.dirs :: IsDir(es, d) && d !in base)
    && (forall p | p in base :: p in es && es[p] == base[p])
    && (forall p | p in arrived :: p in es && es[p] == arrived[p])
    && forall p | p in es ::
         p in base || p in arrived || p in plan.dirs || p in leftover || exists k | 0 <= k < |plan.files| :: plan.files[k].path == p
  }

  lemma AllDelivered(base: Entries, es: Entries, arrived: Entries, own: Entries, next: Entries, plan: Plan,
                     temporary: seq<Path>, leftover: seq<Path>)
    requires Accounts(base, es, arrived, next, plan.dirs) && AllThere(es, arrived)
    requires Owns(own, plan.dirs, Paths(plan.files, |plan.files|), temporary) && InPlace(plan.files, |plan.files|, own)
    requires Without(next, own, temporary, leftover)
    ensures Delivered(base, es, arrived, plan, leftover)
  {
    hide Rooted, AncestorsFirst, Distinct;
    var placed := Paths(plan.files, |plan.files|);
    forall k | 0 <= k < |plan.files| ensures plan.files[k].path in next {
      assert placed[k] in placed;
    }
    forall p | p in placed ensures exists k | 0 <= k < |plan.files| :: plan.files[k].path == p {
      InPaths(plan.files, p);
    }
  }

  lemma InPaths(files: seq<Output>, p: Path)
    requires p in Paths(files, |files|)
    ensures exists k | 0 <= k < |files| :: files[k].path == p
  {
    var placed := Paths(files, |files|);
    var k :| 0 <= k < |placed| && placed[k] == p;
    assert files[k].path == p;
  }

  lemma ForwardsNext(was: seq<Call>, now: seq<Call>, calls: seq<Call>, op: Op, ps: seq<Path>, i: nat, ok: bool)
    requires i < |ps| && Forwards(calls, op, ps, i) && Logs(was, now, op, ps[i], ok) && now[|was|].room
    ensures Forwards(calls + [now[|was|]], op, ps, i + 1) && now == was + [now[|was|]]
    ensures FailedOf(calls + [now[|was|]]) == FailedOf(calls) + if ok then [] else [ps[i]]
  {
    FailedNext(calls, now[|was|]);
  }

  /** Removes temporary files, the first first; one that stays is no reason to withdraw. */
  method RemoveTemporary(disk: Disk, ps: seq<Path>, ghost base: Entries, ghost had: Entries, ghost created: seq<Path>)
    returns (left: seq<Path>, ghost calls: seq<Call>, ghost own: Entries)
    requires Publishing(base, disk, had, created)
    requires Distinct(ps) && forall p | p in ps :: p in had && had[p].File?
    modifies disk
    ensures disk.log == old(disk.log) + calls && Forwards(calls, Unlink, ps, |ps|) && left == FailedOf(calls)
    ensures Publishing(base, disk, own, created) && Without(own, had, ps, left)
  {
    hide Accounts, AllThere, Logs, Forwards, FailedOf;
    left, own, calls := [], had, [];
    NothingRemoved(ps);
    for i := 0 to |ps|
      invariant Publishing(base, disk, own, created) && Without(own, had, ps[..i], left)
      invariant disk.log == old(disk.log) + calls && Forwards(calls, Unlink, ps, i) && left == FailedOf(calls)
    {
      assert ps[..i + 1] == ps[..i] + [ps[i]];
      assert ps[i] !in ps[..i];
      ghost var was := disk.log;
      var ok := RemoveOwn(disk, ps[i], base, own, created);
      LogLonger(was, disk.log, Unlink, ps[i], ok);
      ForwardsNext(was, disk.log, calls, Unlink, ps, i, ok);
      calls := calls + [disk.log[|was|]];
      if ok {
        own := own - {ps[i]};
      } else {
        left := left + [ps[i]];
      }
    }
    assert ps[..|ps|] == ps;
  }

  lemma NothingYet(base: Entries)
    requires Rooted(base)
    ensures Accounts(base, base, map[], map[], []) && AllThere(base, map[])
  {}

  lemma OwnedFiles(own: Entries, created: seq<Path>, placed: seq<Path>, temporary: seq<Path>)
    requires Owns(own, created, placed, temporary)
    ensures Distinct(temporary) && forall p | p in temporary :: p in own && own[p].File?
  {}

  /** Publication is all or nothing, whichever calls fail and whatever other writers create. The
      plan's calls are made in order up to the first that does not work. If all work, every output
      is delivered. If one does not, the failure names its subject, and what the calls before it
      made is undone: what was there stays, what other writers made outside the created directories
      stays, and nothing else is left but what a removal that failed was for. */
  method PublishOutputs(disk: Disk, plan: Plan) returns (r: Result, ghost done: seq<Call>, ghost undo: seq<Call>)
    requires Rooted(disk.entries) && disk.arrived == map[] && disk.log == []
    modifies disk
    ensures disk.log == done + undo && Kept(old(disk.entries), disk.entries)
    ensures r.Published? <==> Going(done, plan) && |done| == plan.Length()
    ensures r.Failed? <==> Stopped(done, plan)
    ensures r.Published? ==>
              && Forwards(undo, Unlink, plan.FirstTemps(|plan.files|), |plan.files|) && r.leftover == FailedOf(undo)
              && Delivered(old(disk.entries), disk.entries, disk.arrived, plan, r.leftover)
    ensures r.Failed? ==>
              var n := |done| - 1;
              && r.path == plan.At(n).subject
              && Undoes(undo, plan.Placed(n), plan.Temps(n), plan.Dirs(n)) && r.uncleaned == FailedOf(undo)
              && Restored(old(disk.entries), disk.entries, disk.arrived, plan.Dirs(n), r.uncleaned)
    ensures (forall c | c in done :: c.works && c.room) ==> r.Published?
    ensures r.Failed? && (forall c | c in undo :: c.works) ==> r.uncleaned == []
  {
    hide Accounts, AllThere, Rooted, Owns, Staged, InPlace, Delivered, Restored, Kept, Without, Going, Stopped, Undoes,
         FailedOf, Forwards;
    ghost var base := disk.entries;
    var failed, temporary, placed;
    ghost var own;
    NothingYet(base);
    failed, own := MakeDirs(disk, plan, base);
    if failed < |plan.dirs| {
      done := disk.log;
      var left;
      left, undo := Rollback(disk, [], [], plan.Dirs(failed), base, own);
      r := Failed(plan.dirs[failed], left);
      StopsDirs(plan, failed);
      Decided(done, plan);
      UndoneIfWorks(undo, [], [], plan.Dirs(failed));
      return;
    }
    failed, temporary, own := StageAll(disk, plan, base, own);
    if failed < |plan.files| {
      done := disk.log;
      var left;
      left, undo := Rollback(disk, [], temporary, plan.dirs, base, own);
      r := Failed(plan.files[failed].path, left);
      StopsStaging(plan, failed, |done|);
      Decided(done, plan);
      UndoneIfWorks(undo, [], temporary, plan.dirs);
      return;
    }
    failed, placed, own := PlaceAll(disk, plan, base, own);
    done := disk.log;
    Decided(done, plan);
    if failed < |plan.files| {
      var left;
      left, undo := Rollback(disk, placed, temporary, plan.dirs, base, own);
      r := Failed(plan.files[failed].path, left);
      StopsPlacing(plan, failed);
      UndoneIfWorks(undo, placed, temporary, plan.dirs);
      return;
    }
    var leftover;
    ghost var last;
    OwnedFiles(own, plan.dirs, placed, temporary);
    leftover, undo, last := RemoveTemporary(disk, temporary, base, own, plan.dirs);
    AllDelivered(base, disk.entries, disk.arrived, own, last, plan, temporary, leftover);
    StillKept(base, disk.entries, disk.arrived, last, plan.dirs);
    r := Published(leftover);
  }

  lemma StopsDirs(plan: Plan, k: nat)
    requires k < |plan.dirs|
    ensures plan.At(k).subject == plan.dirs[k] && plan.Placed(k) == [] && plan.Temps(k) == []
  {}

  lemma StopsStaging(plan: Plan, k: nat, n: nat)
    requires k < |plan.files| && |plan.dirs| + 2 * k < n <= |plan.dirs| + 2 * k + 2
    ensures plan.At(n - 1).subject == plan.files[k].path && plan.Placed(n - 1) == [] && plan.Dirs(n - 1) == plan.dirs
  {}

  lemma StopsPlacing(plan: Plan, k: nat)
    requires k < |plan.files|
    ensures var n := |plan.dirs| + 2 * |plan.files| + k;
      && plan.At(n).subject == plan.files[k].path && plan.Placed(n) == Paths(plan.files, k)
      && plan.Temps(n) == plan.FirstTemps(|plan.files|) && plan.Dirs(n) == plan.dirs
  {}

  /** Calls that all work are not stopped. */
  lemma Decided(done: seq<Call>, plan: Plan)
    ensures !(Going(done, plan) && Stopped(done, plan))
    ensures Stopped(done, plan) ==> exists c | c in done :: !(c.works && c.room)
  {
    hide Follows;
    if done != [] && !done[|done| - 1].Ok() {
      assert done[|done| - 1] in done;
    }
  }

  /** Removals that find what they are for fail only by their fates. */
  lemma UndoneIfWorks(undo: seq<Call>, placed: seq<Path>, temporary: seq<Path>, created: seq<Path>)
    requires Undoes(undo, placed, temporary, created)
    ensures (forall c | c in undo :: c.works) ==> FailedOf(undo) == []
  {
    var i, j := |placed|, |placed| + |temporary|;
    forall k | 0 <= k < |undo| ensures undo[k].room {
      assert undo[k] == if k < i then undo[..i][k] else if k < j then undo[i..j][k - i] else undo[j..][k - j];
    }
    if forall c | c in undo :: c.works {
      NoneFailed(undo);
    }
  }

  lemma {:induction false} NoneFailed(calls: seq<Call>)
    requires forall k | 0 <= k < |calls| :: calls[k].Ok()
    ensures FailedOf(calls) == []
  {
    if calls != [] {
      NoneFailed(calls[..|calls| - 1]);
    }
  }
}
