/** Raising a cache's limits never turns a hit into a miss: driven by the same calls, the
    smaller cache holds the most recent of what the larger one holds. */
module EmbedCacheInclusion {
  import opened EmbedCache

  /** One call on a cache whose misses run to completion. `G` values are the generations the
      invalidations start. */
  datatype Call<G> = Use(key: Key) | ClearAll(next: G) | Erase(principal: Handle, next: G)

  /** The encoder: a key's tokens determine its embedding. */
  type Encoder = Key -> Embedding

  /** Looks the key up and, on a miss, admits what the encoder yields. */
  function UseKey<G(==)>(c: Cache<G>, k: Key, encode: Encoder): Cache<G> {
    var (d, found) := Lookup(c, k);
    match found
    case Hit(_) => d
    case Miss(miss) => Admit(d, miss, encode(k), Completed).0
  }

  function Step<G(==)>(c: Cache<G>, call: Call<G>, encode: Encoder): Cache<G> {
    match call
    case Use(k) => UseKey(c, k, encode)
    case ClearAll(g) => Clear(c, g)
    case Erase(p, g) => ErasePrincipal(c, p, g)
  }

  function Run<G(==)>(c: Cache<G>, calls: seq<Call<G>>, encode: Encoder): Cache<G>
    decreases |calls|
  {
    if calls == [] then c else Run(Step(c, calls[0], encode), calls[1..], encode)
  }

  predicate OfArtifact<G>(u: Setup, calls: seq<Call<G>>) {
    forall i | 0 <= i < |calls| :: calls[i].Use? ==> calls[i].key.artifact == u.artifact
  }

  predicate IsSuffix(a: seq<Entry>, b: seq<Entry>) {
    |a| <= |b| && a == b[|b| - |a|..]
  }

  /** One manifest, and limits no smaller. */
  predicate Larger(u: Setup, w: Setup) {
    && u.limits.Some? && w.limits.Some?
    && w == u.(limits := w.limits)
    && u.limits.value.maxEntries <= w.limits.value.maxEntries
    && u.limits.value.maxBytes <= w.limits.value.maxBytes
  }

  /** `a` is a smaller cache in step with `b`: both valid, of one generation, and holding what
      the encoder yields. */
  predicate InStep<G(==)>(a: Cache<G>, b: Cache<G>, encode: Encoder) {
    && Larger(a.setup, b.setup)
    && Valid(a) && Valid(b)
    && IsSuffix(a.entries, b.entries)
    && forall e | e in b.entries :: e.embedding == encode(e.key)
  }

  lemma SuffixHas(a: seq<Entry>, b: seq<Entry>, k: Key)
    requires IsSuffix(a, b) && HasKey(a, k)
    ensures HasKey(b, k)
  {
    var i :| 0 <= i < |a| && a[i].key == k;
    assert b[|b| - |a| + i].key == k;
  }

  /** In both, the entry of a key is the same one. */
  lemma SamePosition(a: seq<Entry>, b: seq<Entry>, k: Key)
    requires IsSuffix(a, b) && HasKey(a, k) && HasKey(b, k) && Unrepeated(b)
    ensures Position(b, k) == |b| - |a| + Position(a, k)
  {
    var i, j := Position(a, k), Position(b, k);
    assert b[|b| - |a| + i] == a[i];
  }

  lemma HitsInStep(a: seq<Entry>, b: seq<Entry>, k: Key)
    requires IsSuffix(a, b) && HasKey(a, k) && HasKey(b, k) && Unrepeated(b)
    ensures IsSuffix(ToEnd(a, Position(a, k)), ToEnd(b, Position(b, k)))
  {
    hide ToEnd, IsSuffix, HasKey, Unrepeated;
    SamePosition(a, b, k);
    MovedInStep(a, b, Position(a, k));
  }

  lemma MovedInStep(a: seq<Entry>, b: seq<Entry>, i: nat)
    requires IsSuffix(a, b) && i < |a|
    ensures IsSuffix(ToEnd(a, i), ToEnd(b, |b| - |a| + i))
  {
    var d := |b| - |a|;
    assert b[..d + i] == b[..d] + a[..i];
    assert b[d + i + 1..] == a[i + 1..];
    assert b[d + i] == a[i];
    assert ToEnd(b, d + i) == b[..d] + ToEnd(a, i);
  }

  /** The larger cache hits, the smaller one misses and admits. */
  lemma MissInStep(a: seq<Entry>, b: seq<Entry>, k: Key, n: nat)
    requires IsSuffix(a, b) && !HasKey(a, k) && HasKey(b, k) && n <= |a|
    ensures IsSuffix(a[n..] + [b[Position(b, k)]], ToEnd(b, Position(b, k)))
  {
    var d, j := |b| - |a|, Position(b, k);
    if j >= d {
      InSuffix(a, b, j);
    }
    assert b[j + 1..] == b[j + 1..d] + a;
    assert ToEnd(b, j) == (b[..j] + b[j + 1..d] + a[..n]) + (a[n..] + [b[j]]);
  }

  lemma InSuffix(a: seq<Entry>, b: seq<Entry>, j: nat)
    requires IsSuffix(a, b) && |b| - |a| <= j < |b|
    ensures HasKey(a, b[j].key)
  {
    assert a[j - (|b| - |a|)] == b[j];
  }

  lemma BothAdmit(a: seq<Entry>, b: seq<Entry>, e: Entry, m: nat, n: nat)
    requires IsSuffix(a, b) && m <= |a| && n <= |b|
    requires n <= |b| - |a| + m
    ensures IsSuffix(a[m..] + [e], b[n..] + [e])
  {
    var d := |b| - |a|;
    assert a[m..] == b[d + m..];
    assert b[n..] == b[n..d + m] + a[m..];
    assert b[n..] + [e] == b[n..d + m] + (a[m..] + [e]);
  }

  /** The larger cache evicts no deeper than the smaller one. */
  lemma EvictsLess(u: Setup, w: Setup, a: seq<Entry>, b: seq<Entry>, need: nat)
    requires Larger(u, w) && IsSuffix(a, b) && need <= u.limits.value.maxBytes && u.limits.value.maxEntries > 0
    ensures Evictions(w, w.limits.value, b, need) <= |b| - |a| + Evictions(u, u.limits.value, a, need)
  {
    hide TotalBytes, Evictions, IsSuffix, Room;
    var m := Evictions(u, u.limits.value, a, need);
    SuffixOfSuffix(a, b, m);
    if m == |a| {
      EmptyHasRoom(u, a[m..], need);
    }
    RoomInLarger(u, w, a[m..], need);
  }

  lemma SuffixOfSuffix(a: seq<Entry>, b: seq<Entry>, m: nat)
    requires IsSuffix(a, b) && m <= |a|
    ensures |a| <= |b| && b[|b| - |a| + m..] == a[m..]
  {}

  lemma EmptyHasRoom(u: Setup, es: seq<Entry>, need: nat)
    requires es == [] && u.limits.Some? && need <= u.limits.value.maxBytes && u.limits.value.maxEntries > 0
    ensures Room(u, u.limits.value, es, need)
  {}

  lemma RoomInLarger(u: Setup, w: Setup, es: seq<Entry>, need: nat)
    requires Larger(u, w) && Room(u, u.limits.value, es, need)
    ensures Room(w, w.limits.value, es, need)
  {
    SameBytes(u, w, es);
  }

  lemma {:induction false} SameBytes(u: Setup, w: Setup, es: seq<Entry>)
    requires w == u.(limits := w.limits)
    ensures TotalBytes(u, es) == TotalBytes(w, es)
  {
    if es != [] {
      SameBytes(u, w, es[1..]);
    }
  }

  lemma UseInStep<G>(a: Cache<G>, b: Cache<G>, k: Key, encode: Encoder)
    requires InStep(a, b, encode) && k.artifact == a.setup.artifact
    ensures InStep(UseKey(a, k, encode), UseKey(b, k, encode), encode)
    ensures HasKey(a.entries, k) ==> HasKey(b.entries, k)
  {
    UseIsValid(a, k, encode);
    UseIsValid(b, k, encode);
    var e := Entry(k, encode(k));
    if HasKey(a.entries, k) {
      SuffixHas(a.entries, b.entries, k);
      HitsInStep(a.entries, b.entries, k);
      Moved(b.entries, Position(b.entries, k));
    } else if HasKey(b.entries, k) {
      var held := b.entries[Position(b.entries, k)];
      assert held in b.entries && held == e;
      Moved(b.entries, Position(b.entries, k));
      MissInStep(a.entries, b.entries, k, 0);
      assert a.entries[0..] == a.entries;
      SmallerAdmits(a, b, k, encode);
    } else {
      BothMiss(a, b, k, encode);
    }
  }

  lemma UseIsValid<G>(c: Cache<G>, k: Key, encode: Encoder)
    requires Valid(c) && k.artifact == c.setup.artifact
    ensures Valid(UseKey(c, k, encode))
  {
    LookupIsValid(c, k);
    if !HasKey(c.entries, k) {
      AdmitIsValid(Lookup(c, k).0, CacheMiss(k, c.generation), encode(k), Completed);
    }
  }

  lemma SmallerAdmits<G>(a: Cache<G>, b: Cache<G>, k: Key, encode: Encoder)
    requires InStep(a, b, encode) && k.artifact == a.setup.artifact
    requires !HasKey(a.entries, k) && HasKey(b.entries, k)
    ensures IsSuffix(UseKey(a, k, encode).entries, ToEnd(b.entries, Position(b.entries, k)))
  {
    var held := b.entries[Position(b.entries, k)];
    assert held in b.entries;
    var c := Lookup(a, k).0;
    var miss := CacheMiss(k, a.generation);
    if Admissible(c, miss, encode(k), Completed) {
      var n := Evictions(a.setup, a.setup.limits.value, a.entries, EntryBytes(a.setup, Entry(k, encode(k))));
      MissInStep(a.entries, b.entries, k, n);
      assert held == Entry(k, encode(k));
    } else {
      Unadmitted(a, b, k, encode);
    }
  }

  /** What the larger cache holds, the smaller one would have admitted, had it any room at all. */
  lemma Unadmitted<G>(a: Cache<G>, b: Cache<G>, k: Key, encode: Encoder)
    requires InStep(a, b, encode) && k.artifact == a.setup.artifact
    requires !HasKey(a.entries, k) && HasKey(b.entries, k)
    requires !Admissible(Lookup(a, k).0, CacheMiss(k, a.generation), encode(k), Completed)
    ensures a.entries == []
  {
    var held := b.entries[Position(b.entries, k)];
    assert held in b.entries && Retainable(b.setup, held);
    Refuses(a, k, encode(k));
  }

  /** What a miss leaves: the embedding last, if it is admitted. */
  function AfterMiss<G(==)>(c: Cache<G>, k: Key, encode: Encoder): (es: seq<Entry>)
    requires c.setup.limits.Some?
  {
    var e := Entry(k, encode(k));
    if Admissible(Lookup(c, k).0, CacheMiss(k, c.generation), encode(k), Completed) then
      c.entries[Evictions(c.setup, c.setup.limits.value, c.entries, EntryBytes(c.setup, e))..] + [e]
    else c.entries
  }

  lemma UseMisses<G>(c: Cache<G>, k: Key, encode: Encoder)
    requires c.setup.limits.Some? && !HasKey(c.entries, k)
    ensures UseKey(c, k, encode).entries == AfterMiss(c, k, encode)
  {}

  lemma BothMiss<G>(a: Cache<G>, b: Cache<G>, k: Key, encode: Encoder)
    requires InStep(a, b, encode) && k.artifact == a.setup.artifact
    requires !HasKey(a.entries, k) && !HasKey(b.entries, k)
    ensures var d := UseKey(b, k, encode);
      && IsSuffix(UseKey(a, k, encode).entries, d.entries)
      && forall e | e in d.entries :: e.embedding == encode(e.key)
  {
    hide UseKey;
    UseMisses(a, k, encode);
    UseMisses(b, k, encode);
    MissesInStep(a, b, k, encode);
    var d := AfterMiss(b, k, encode);
    forall e | e in d ensures e.embedding == encode(e.key) {
      assert e in b.entries || e == Entry(k, encode(k));
    }
  }

  lemma MissesInStep<G>(a: Cache<G>, b: Cache<G>, k: Key, encode: Encoder)
    requires InStep(a, b, encode) && k.artifact == a.setup.artifact
    requires !HasKey(a.entries, k) && !HasKey(b.entries, k)
    ensures IsSuffix(AfterMiss(a, k, encode), AfterMiss(b, k, encode))
  {
    hide TotalBytes, Unrepeated, Evictions, HasKey, Retainable;
    var e := Entry(k, encode(k));
    var need := EntryBytes(a.setup, e);
    var inA := Admissible(Lookup(a, k).0, CacheMiss(k, a.generation), encode(k), Completed);
    var inB := Admissible(Lookup(b, k).0, CacheMiss(k, b.generation), encode(k), Completed);
    var m := Evictions(a.setup, a.setup.limits.value, a.entries, need);
    var n := Evictions(b.setup, b.setup.limits.value, b.entries, need);
    if inA {
      EvictsLess(a.setup, b.setup, a.entries, b.entries, need);
      BothAdmit(a.entries, b.entries, e, m, n);
    } else if inB {
      Refuses(a, k, encode(k));
    }
  }

  /** A cache that refuses a storable embedding it does not hold has no room for any. */
  lemma Refuses<G>(a: Cache<G>, k: Key, e: Embedding)
    requires Valid(a) && a.setup.limits.Some? && k.artifact == a.setup.artifact && !HasKey(a.entries, k)
    requires Storable(a.setup, e)
    requires !Admissible(Lookup(a, k).0, CacheMiss(k, a.generation), e, Completed)
    ensures a.entries == []
  {
    if a.entries != [] {
      HasHadRoom(a);
    }
  }

  lemma HasHadRoom<G>(a: Cache<G>)
    requires Valid(a) && a.setup.limits.Some? && a.entries != []
    ensures a.setup.limits.value.maxEntries > 0 && UnitBytes(a.setup) <= a.setup.limits.value.maxBytes
  {
    UnitSized(a);
    assert TotalBytes(a.setup, a.entries) >= EntryBytes(a.setup, a.entries[0]);
  }

  lemma {:induction false} OthersSuffix(a: seq<Entry>, b: seq<Entry>, p: Handle)
    requires IsSuffix(a, b)
    ensures IsSuffix(Others(a, p), Others(b, p))
  {
    if |a| < |b| {
      assert a == b[1..][|b| - 1 - |a|..];
      OthersSuffix(a, b[1..], p);
      var r, s := Others(a, p), Others(b[1..], p);
      var t := Others(b, p);
      assert t == s || t == [b[0]] + s;
      assert t[|t| - |r|..] == s[|s| - |r|..];
    } else {
      assert a == b;
    }
  }

  lemma StepInStep<G>(a: Cache<G>, b: Cache<G>, call: Call<G>, encode: Encoder)
    requires InStep(a, b, encode) && OfArtifact(a.setup, [call])
    ensures InStep(Step(a, call, encode), Step(b, call, encode), encode)
  {
    match call
    case Use(k) =>
      assert [call][0].key == k;
      UseInStep(a, b, k, encode);
    case ClearAll(_) =>
    case Erase(p, g) =>
      EraseIsValid(a, p, g);
      EraseIsValid(b, p, g);
      OthersSuffix(a.entries, b.entries, p);
  }

  /** Over any sequence of calls, the smaller cache stays a suffix of the larger one, so
      whatever it hits the larger one hits. */
  lemma {:induction false} Inclusion<G>(a: Cache<G>, b: Cache<G>, calls: seq<Call<G>>, encode: Encoder)
    requires InStep(a, b, encode) && OfArtifact(a.setup, calls)
    ensures InStep(Run(a, calls, encode), Run(b, calls, encode), encode)
    ensures forall k :: HasKey(Run(a, calls, encode).entries, k) ==> HasKey(Run(b, calls, encode).entries, k)
    decreases |calls|
  {
    if calls == [] {
      forall k | HasKey(a.entries, k) ensures HasKey(b.entries, k) {
        SuffixHas(a.entries, b.entries, k);
      }
    } else {
      assert OfArtifact(a.setup, [calls[0]]);
      StepInStep(a, b, calls[0], encode);
      StepKeepsSetup(a, calls[0], encode);
      Inclusion(Step(a, calls[0], encode), Step(b, calls[0], encode), calls[1..], encode);
    }
  }

  lemma StepKeepsSetup<G>(a: Cache<G>, call: Call<G>, encode: Encoder)
    ensures Step(a, call, encode).setup == a.setup
  {}
}
