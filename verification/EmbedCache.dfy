/** The memo of pooled embeddings: least recently used first, bounded in entries and bytes,
    with tickets that an invalidation outdates (backends/rustev-backend-embed-linear/src/cache.rs).

    Digests are modelled by what they digest, and a generation by the identity of its
    allocation: `G` is the type of those identities. */
module EmbedCache {
  import opened Wrappers

  const U64_MAX: nat := 0xFFFF_FFFF_FFFF_FFFF

  /** A stored float; only finite ones are ever retained. */
  datatype Float = Finite(bits: nat) | NonFinite

  type Embedding = seq<Float>
  type Handle = seq<nat>

  datatype Key = Key(artifact: string, principal: Handle, ids: seq<nat>, mask: seq<nat>)

  datatype Entry = Entry(key: Key, embedding: Embedding)

  datatype CacheLimits = CacheLimits(maxEntries: nat, maxBytes: nat)

  datatype CacheMiss<G> = CacheMiss(key: Key, generation: G)

  datatype CacheLookup<G> = Hit(embedding: Embedding) | Miss(miss: CacheMiss<G>)

  datatype RunOutcome = Completed | Cancelled | Incomplete

  datatype CacheStats = CacheStats(hits: nat, misses: nat, admitted: nat, evicted: nat, bytes: nat, invalidations: nat)

  function Bump(n: nat): nat { if n < U64_MAX then n + 1 else n }

  /** What a cache is set up with: its limits, the manifest's artifact and width, and the bytes
      an entry takes besides its artifact and payload. */
  datatype Setup = Setup(limits: Option<CacheLimits>, artifact: string, hidden: nat, entryBytes: nat)

  datatype Cache<G> = Cache(setup: Setup, entries: seq<Entry>, generation: G, stats: CacheStats)

  function EntryBytes(u: Setup, e: Entry): nat {
    u.entryBytes + |e.key.artifact| + 4 * |e.embedding|
  }

  function TotalBytes(u: Setup, es: seq<Entry>): nat {
    if es == [] then 0 else EntryBytes(u, es[0]) + TotalBytes(u, es[1..])
  }

  predicate HasKey(es: seq<Entry>, k: Key) {
    exists i | 0 <= i < |es| :: es[i].key == k
  }

  function Position(es: seq<Entry>, k: Key): (i: nat)
    requires HasKey(es, k)
    ensures i < |es| && es[i].key == k && forall j | 0 <= j < i :: es[j].key != k
  {
    if es[0].key == k then 0 else
      assert HasKey(es[1..], k) by {
        var j :| 0 <= j < |es| && es[j].key == k;
        assert es[1..][j - 1].key == k;
      }
      1 + Position(es[1..], k)
  }

  predicate AllFinite(e: Embedding) {
    forall i | 0 <= i < |e| :: e[i].Finite?
  }

  predicate Storable(u: Setup, e: Embedding) {
    |e| == u.hidden && e != [] && AllFinite(e)
  }

  predicate Retainable(u: Setup, e: Entry) {
    Storable(u, e.embedding) && e.key.artifact == u.artifact
  }

  predicate Unrepeated(es: seq<Entry>) {
    forall i, j | 0 <= i < j < |es| :: es[i].key != es[j].key
  }

  /** Bytes of any entry a cache with this setup retains: all are the same size. */
  function UnitBytes(u: Setup): nat { u.entryBytes + |u.artifact| + 4 * u.hidden }

  /** What every operation keeps. */
  predicate Valid<G>(c: Cache<G>) {
    && c.stats.bytes == TotalBytes(c.setup, c.entries)
    && Unrepeated(c.entries)
    && (forall e | e in c.entries :: Retainable(c.setup, e))
    && match c.setup.limits
       case None => c.entries == []
       case Some(l) => |c.entries| <= l.maxEntries && TotalBytes(c.setup, c.entries) <= l.maxBytes
  }

  // -------------------------------------------------------------- operations

  function Without(es: seq<Entry>, i: nat): seq<Entry>
    requires i < |es|
  { es[..i] + es[i + 1..] }

  function ToEnd(es: seq<Entry>, i: nat): seq<Entry>
    requires i < |es|
  { Without(es, i) + [es[i]] }

  function KeyFor<G>(c: Cache<G>, principal: Handle, ids: seq<nat>, mask: seq<nat>): Key {
    Key(c.setup.artifact, principal, ids, mask)
  }

  /** A hit becomes the most recent entry; a miss yields a ticket of this generation. */
  function Lookup<G>(c: Cache<G>, k: Key): (Cache<G>, CacheLookup<G>) {
    if HasKey(c.entries, k) then
      var i := Position(c.entries, k);
      (c.(entries := ToEnd(c.entries, i), stats := c.stats.(hits := Bump(c.stats.hits))),
       Hit(c.entries[i].embedding))
    else
      (c.(stats := c.stats.(misses := Bump(c.stats.misses))), Miss(CacheMiss(k, c.generation)))
  }

  /** `es` leaves room for `need` more bytes in one more entry. */
  predicate Room(u: Setup, l: CacheLimits, es: seq<Entry>, need: nat) {
    |es| < l.maxEntries && TotalBytes(u, es) + need <= l.maxBytes
  }

  /** How many of the least recent entries have to go to leave room. */
  function Evictions(u: Setup, l: CacheLimits, es: seq<Entry>, need: nat): (n: nat)
    ensures n <= |es|
    ensures n < |es| ==> Room(u, l, es[n..], need)
    ensures forall j | 0 <= j < n :: !Room(u, l, es[j..], need)
  {
    if es == [] || Room(u, l, es, need) then 0 else
      var n := Evictions(u, l, es[1..], need);
      assert es[1..][n..] == es[n + 1..];
      assert forall j | 1 <= j < n + 1 :: es[j..] == es[1..][j - 1..];
      n + 1
  }

  predicate Admissible<G(==)>(c: Cache<G>, miss: CacheMiss<G>, e: Embedding, outcome: RunOutcome) {
    && c.setup.limits.Some?
    && outcome.Completed?
    && miss.generation == c.generation
    && Storable(c.setup, e)
    && !HasKey(c.entries, miss.key)
    && c.setup.limits.value.maxEntries > 0
    && EntryBytes(c.setup, Entry(miss.key, e)) <= c.setup.limits.value.maxBytes
  }

  function BumpBy(x: nat, n: nat): nat { if x + n < U64_MAX then x + n else if x <= U64_MAX then U64_MAX else x }

  /** Stores an admissible embedding as the most recent entry, in place of as few of the least
      recent as make room; changes nothing otherwise. */
  function Admit<G(==)>(c: Cache<G>, miss: CacheMiss<G>, e: Embedding, outcome: RunOutcome): (Cache<G>, bool) {
    if !Admissible(c, miss, e, outcome) then (c, false)
    else
      var entry := Entry(miss.key, e);
      var n := Evictions(c.setup, c.setup.limits.value, c.entries, EntryBytes(c.setup, entry));
      var es := c.entries[n..] + [entry];
      (c.(entries := es,
          stats := c.stats.(bytes := TotalBytes(c.setup, es), admitted := Bump(c.stats.admitted),
                            evicted := BumpBy(c.stats.evicted, n))), true)
  }

  function Clear<G>(c: Cache<G>, next: G): Cache<G> {
    c.(entries := [], generation := next,
       stats := c.stats.(bytes := 0, invalidations := Bump(c.stats.invalidations)))
  }

  /** The entries of other principals, in their order. */
  function Others(es: seq<Entry>, p: Handle): seq<Entry> {
    if es == [] then []
    else if es[0].key.principal != p then [es[0]] + Others(es[1..], p)
    else Others(es[1..], p)
  }

  function ErasePrincipal<G>(c: Cache<G>, p: Handle, next: G): Cache<G> {
    var es := Others(c.entries, p);
    c.(entries := es, generation := next,
       stats := c.stats.(bytes := TotalBytes(c.setup, es), invalidations := Bump(c.stats.invalidations)))
  }

  // --------------------------------------------------------------- accounting

  lemma {:induction false} TotalAppend(u: Setup, a: seq<Entry>, b: seq<Entry>)
    ensures TotalBytes(u, a + b) == TotalBytes(u, a) + TotalBytes(u, b)
  {
    if a == [] {
      assert a + b == b;
    } else {
      assert (a + b)[1..] == a[1..] + b;
      TotalAppend(u, a[1..], b);
    }
  }

  lemma TotalOne(u: Setup, e: Entry)
    ensures TotalBytes(u, [e]) == EntryBytes(u, e)
  {
    assert TotalBytes(u, []) == 0;
    assert [e][1..] == [];
  }

  lemma {:induction false} TotalUniform(u: Setup, es: seq<Entry>)
    requires forall i | 0 <= i < |es| :: EntryBytes(u, es[i]) == UnitBytes(u)
    ensures TotalBytes(u, es) == |es| * UnitBytes(u)
  {
    if es != [] {
      TotalUniform(u, es[1..]);
    }
  }

  lemma MovedBytes(u: Setup, es: seq<Entry>, i: nat)
    requires i < |es|
    ensures TotalBytes(u, ToEnd(es, i)) == TotalBytes(u, es)
  {
    hide EntryBytes;
    var a, b := es[..i], es[i + 1..];
    assert es == a + ([es[i]] + b);
    TotalAppend(u, a, [es[i]] + b);
    TotalAppend(u, [es[i]], b);
    TotalAppend(u, a + b, [es[i]]);
    TotalAppend(u, a, b);
  }

  /** Moving an entry to the end changes neither what is held nor how often. */
  lemma Moved(es: seq<Entry>, i: nat)
    requires i < |es|
    ensures forall e :: e in ToEnd(es, i) <==> e in es
    ensures Unrepeated(es) ==> Unrepeated(ToEnd(es, i))
  {
    var r := ToEnd(es, i);
    forall j | 0 <= j < |r| ensures r[j] == es[if j < i then j else if j < |r| - 1 then j + 1 else i] {}
    forall e ensures e in r <==> e in es {
      if e in es {
        var j :| 0 <= j < |es| && es[j] == e;
        assert r[if j < i then j else if j == i then |r| - 1 else j - 1] == e;
      }
    }
  }

  lemma LookupIsValid<G>(c: Cache<G>, k: Key)
    requires Valid(c)
    ensures Valid(Lookup(c, k).0)
    ensures Lookup(c, k).1.Hit? <==> HasKey(c.entries, k)
    ensures forall e :: e in Lookup(c, k).0.entries <==> e in c.entries
  {
    if HasKey(c.entries, k) {
      Moved(c.entries, Position(c.entries, k));
      MovedBytes(c.setup, c.entries, Position(c.entries, k));
    }
  }

  /** Room for a unit in a valid cache: one eviction makes it. */
  lemma OneEviction(u: Setup, l: CacheLimits, es: seq<Entry>)
    requires forall i | 0 <= i < |es| :: EntryBytes(u, es[i]) == UnitBytes(u)
    requires |es| <= l.maxEntries && TotalBytes(u, es) <= l.maxBytes
    ensures Evictions(u, l, es, UnitBytes(u)) <= 1
  {
    if |es| > 1 {
      assert Room(u, l, es[1..], UnitBytes(u));
    }
  }

  /** An admission keeps the cache valid, and evicts the fewest of the least recent entries that
      make room: at most one, since entries have one size. */
  lemma AdmitIsValid<G>(c: Cache<G>, miss: CacheMiss<G>, e: Embedding, outcome: RunOutcome)
    requires Valid(c)
    requires miss.generation == c.generation ==> miss.key.artifact == c.setup.artifact
    ensures Valid(Admit(c, miss, e, outcome).0)
    ensures Admit(c, miss, e, outcome).1 ==>
              var n := Evictions(c.setup, c.setup.limits.value, c.entries, UnitBytes(c.setup));
              n <= 1 && Admit(c, miss, e, outcome).0.entries == c.entries[n..] + [Entry(miss.key, e)]
  {
    if Admissible(c, miss, e, outcome) {
      UnitSized(c);
      OneEviction(c.setup, c.setup.limits.value, c.entries);
      Pushed(c.setup, c.setup.limits.value, c.entries, Entry(miss.key, e));
    }
  }

  /** An embedding is stored exactly when the run completed, its ticket is of this generation, its
      key is not held, and it is a finite vector of the manifest's width that fits the limits;
      otherwise nothing changes. */
  lemma AdmitsExactly<G>(c: Cache<G>, miss: CacheMiss<G>, e: Embedding, outcome: RunOutcome)
    requires miss.generation == c.generation ==> miss.key.artifact == c.setup.artifact
    ensures var (d, admitted) := Admit(c, miss, e, outcome);
      && (admitted <==>
            && outcome.Completed? && miss.generation == c.generation
            && (forall i | 0 <= i < |c.entries| :: c.entries[i].key != miss.key)
            && |e| == c.setup.hidden && |e| > 0 && (forall i | 0 <= i < |e| :: e[i].Finite?)
            && c.setup.limits.Some? && c.setup.limits.value.maxEntries > 0
            && UnitBytes(c.setup) <= c.setup.limits.value.maxBytes)
      && (!admitted ==> d == c)
  {}

  /** What was just stored is found. */
  lemma StoredIsFound<G>(c: Cache<G>, miss: CacheMiss<G>, e: Embedding, outcome: RunOutcome)
    requires Valid(c)
    requires miss.generation == c.generation ==> miss.key.artifact == c.setup.artifact
    requires Admit(c, miss, e, outcome).1
    ensures Lookup(Admit(c, miss, e, outcome).0, miss.key).1 == Hit(e)
  {
    AdmitIsValid(c, miss, e, outcome);
    var es := Admit(c, miss, e, outcome).0.entries;
    HeldIsFound(es, |es| - 1);
  }

  lemma HeldIsFound(es: seq<Entry>, i: nat)
    requires Unrepeated(es) && i < |es|
    ensures HasKey(es, es[i].key) && Position(es, es[i].key) == i
  {}

  /** A miss that is run to completion is a hit the next time, also in an empty cache. */
  lemma MissThenHit<G>(c: Cache<G>, k: Key, e: Embedding)
    requires Valid(c) && k.artifact == c.setup.artifact && Lookup(c, k).1.Miss?
    requires |e| == c.setup.hidden && |e| > 0 && (forall i | 0 <= i < |e| :: e[i].Finite?)
    requires c.setup.limits.Some? && c.setup.limits.value.maxEntries > 0
    requires UnitBytes(c.setup) <= c.setup.limits.value.maxBytes
    ensures var (d, found) := Lookup(c, k);
      var (next, admitted) := Admit(d, found.miss, e, Completed);
      admitted && Lookup(next, k).1 == Hit(e)
  {
    LookupIsValid(c, k);
    var (d, found) := Lookup(c, k);
    AdmitsExactly(d, found.miss, e, Completed);
    StoredIsFound(d, found.miss, e, Completed);
  }

  lemma UnitSized<G>(c: Cache<G>)
    requires Valid(c)
    ensures forall i | 0 <= i < |c.entries| :: EntryBytes(c.setup, c.entries[i]) == UnitBytes(c.setup)
  {
    forall i | 0 <= i < |c.entries| ensures EntryBytes(c.setup, c.entries[i]) == UnitBytes(c.setup) {
      assert c.entries[i] in c.entries;
    }
  }

  lemma Pushed(u: Setup, l: CacheLimits, es: seq<Entry>, entry: Entry)
    requires l.maxEntries > 0 && EntryBytes(u, entry) <= l.maxBytes
    requires Unrepeated(es) && !HasKey(es, entry.key)
    ensures var n := Evictions(u, l, es, EntryBytes(u, entry));
      var r := es[n..] + [entry];
      && Unrepeated(r)
      && (forall e :: e in r ==> e in es || e == entry)
      && |r| <= l.maxEntries && TotalBytes(u, r) <= l.maxBytes
  {
    var n := Evictions(u, l, es, EntryBytes(u, entry));
    TotalAppend(u, es[n..], [entry]);
    TotalOne(u, entry);
    assert n == |es| ==> TotalBytes(u, es[n..]) == 0;
  }

  lemma {:induction false} OthersHold(u: Setup, es: seq<Entry>, p: Handle)
    ensures forall e :: e in Others(es, p) <==> e in es && e.key.principal != p
    ensures |Others(es, p)| <= |es| && TotalBytes(u, Others(es, p)) <= TotalBytes(u, es)
    ensures Unrepeated(es) ==> Unrepeated(Others(es, p))
  {
    hide EntryBytes;
    if es != [] {
      OthersHold(u, es[1..], p);
      assert es == [es[0]] + es[1..];
      var r := Others(es[1..], p);
      if es[0].key.principal != p {
        TotalAppend(u, [es[0]], r);
        TotalOne(u, es[0]);
        if Unrepeated(es) {
          UnrepeatedCons(es, r);
        }
      }
    }
  }

  lemma UnrepeatedCons(es: seq<Entry>, r: seq<Entry>)
    requires es != [] && Unrepeated(es) && Unrepeated(r) && forall e :: e in r ==> e in es[1..]
    ensures Unrepeated([es[0]] + r)
  {
    forall j | 0 <= j < |r| ensures r[j].key != es[0].key {
      assert r[j] in r && r[j] in es[1..];
    }
  }

  lemma EraseIsValid<G>(c: Cache<G>, p: Handle, next: G)
    requires Valid(c)
    ensures Valid(ErasePrincipal(c, p, next))
    ensures forall e :: e in ErasePrincipal(c, p, next).entries <==> e in c.entries && e.key.principal != p
  {
    OthersHold(c.setup, c.entries, p);
  }
}
