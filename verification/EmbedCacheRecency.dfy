/** What a cache holds after any uses: the keys used last, as many as fit, in the order of their
    last use (backends/rustev-backend-embed-linear/src/cache.rs:171-241). */
module EmbedCacheRecency {
  import opened Wrappers
  import opened EmbedCache
  import opened EmbedCacheInclusion

  /** The keys without `k`. */
  function Besides(ks: seq<Key>, k: Key): seq<Key> {
    if ks == [] then [] else (if ks[0] != k then [ks[0]] else []) + Besides(ks[1..], k)
  }

  /** The keys that were used, each once, in the order of their last use. */
  function Recency(uses: seq<Key>): seq<Key> {
    if uses == [] then []
    else
      var n := |uses| - 1;
      Besides(Recency(uses[..n]), uses[n]) + [uses[n]]
  }

  function LastOf(ks: seq<Key>, n: nat): seq<Key> {
    if |ks| <= n then ks else ks[|ks| - n..]
  }

  function EntriesOf(ks: seq<Key>, encode: Encoder): seq<Entry> {
    seq(|ks|, i requires 0 <= i < |ks| => Entry(ks[i], encode(ks[i])))
  }

  /** The cache after the uses, each miss run to completion. */
  function Uses<G(==)>(c: Cache<G>, uses: seq<Key>, encode: Encoder): Cache<G> {
    if uses == [] then c
    else
      var n := |uses| - 1;
      UseKey(Uses(c, uses[..n], encode), uses[n], encode)
  }

  /** How many entries fit. */
  function Capacity(u: Setup): nat
    requires u.limits.Some? && UnitBytes(u) > 0
  {
    var l := u.limits.value;
    if l.maxEntries <= l.maxBytes / UnitBytes(u) then l.maxEntries else l.maxBytes / UnitBytes(u)
  }

  // ------------------------------------------------------------------- keys

  lemma {:induction false} BesidesNone(ks: seq<Key>, k: Key)
    requires k !in ks
    ensures Besides(ks, k) == ks
  {
    if ks != [] {
      BesidesNone(ks[1..], k);
    }
  }

  lemma {:induction false} BesidesAt(ks: seq<Key>, i: nat)
    requires i < |ks| && Distinct(ks)
    ensures Besides(ks, ks[i]) == ks[..i] + ks[i + 1..]
  {
    assert Distinct(ks[1..]);
    if i == 0 {
      BesidesNone(ks[1..], ks[0]);
    } else {
      BesidesAt(ks[1..], i - 1);
      assert ks[..i] == [ks[0]] + ks[1..][..i - 1];
      assert ks[1..][i..] == ks[i + 1..];
    }
  }

  lemma {:induction false} RecencyIsDistinct(uses: seq<Key>)
    ensures Distinct(Recency(uses))
  {
    if uses != [] {
      var n := |uses| - 1;
      RecencyIsDistinct(uses[..n]);
      BesidesIsDistinct(Recency(uses[..n]), uses[n]);
    }
  }

  lemma BesidesIsDistinct(ks: seq<Key>, k: Key)
    requires Distinct(ks)
    ensures Distinct(Besides(ks, k) + [k])
  {
    if k in ks {
      var i :| 0 <= i < |ks| && ks[i] == k;
      BesidesAt(ks, i);
    } else {
      BesidesNone(ks, k);
    }
  }

  lemma LastSplits(ks: seq<Key>, n: nat)
    ensures var r := LastOf(ks, n);
      |r| <= |ks| && ks == ks[..|ks| - |r|] + r && |r| <= n && (|r| < n ==> |r| == |ks|)
  {}

  lemma LastOfBoth(a: seq<Key>, b: seq<Key>, n: nat)
    requires |b| <= n && (|b| < n ==> a == [])
    ensures LastOf(a + b, n) == b
  {}

  /** A key among the last moves to the end. */
  lemma LastMoved(ks: seq<Key>, i: nat, n: nat)
    requires Distinct(ks) && i < |LastOf(ks, n)|
    ensures var r := LastOf(ks, n); LastOf(Besides(ks, r[i]) + [r[i]], n) == r[..i] + r[i + 1..] + [r[i]]
  {
    LastSplits(ks, n);
    hide Besides, Distinct, LastOf;
    var r := LastOf(ks, n);
    var d := |ks| - |r|;
    assert ks[d + i] == r[i];
    BesidesAt(ks, d + i);
    assert ks[..d + i] == ks[..d] + r[..i] && ks[d + i + 1..] == r[i + 1..];
    var next := ks[..d + i] + ks[d + i + 1..] + [r[i]];
    assert next == ks[..d] + (r[..i] + r[i + 1..] + [r[i]]);
    LastOfBoth(ks[..d], r[..i] + r[i + 1..] + [r[i]], n);
  }

  /** A key before the last comes back, and the first of the last goes. */
  lemma LastReturned(ks: seq<Key>, j: nat, n: nat)
    requires Distinct(ks) && n > 0 && j < |ks| - |LastOf(ks, n)|
    ensures var r := LastOf(ks, n); |r| == n && LastOf(Besides(ks, ks[j]) + [ks[j]], n) == r[1..] + [ks[j]]
  {
    hide Besides, Distinct;
    var r := LastOf(ks, n);
    var d := |ks| - |r|;
    BesidesAt(ks, j);
    assert ks[j + 1..] == ks[j + 1..d] + r;
    var next := ks[..j] + ks[j + 1..] + [ks[j]];
    assert next == (ks[..j] + ks[j + 1..d] + [r[0]]) + (r[1..] + [ks[j]]);
  }

  /** A new key comes in, and the first of the last goes if they were as many as fit. */
  lemma LastNew(ks: seq<Key>, k: Key, n: nat)
    requires k !in ks && n > 0
    ensures var r := LastOf(ks, n); LastOf(Besides(ks, k) + [k], n) == r[if |r| == n then 1 else 0..] + [k]
  {
    BesidesNone(ks, k);
  }

  lemma AmongLast(ks: seq<Key>, j: nat, n: nat)
    requires |ks| - |LastOf(ks, n)| <= j < |ks|
    ensures ks[j] in LastOf(ks, n)
  {
    assert LastOf(ks, n)[j - (|ks| - |LastOf(ks, n)|)] == ks[j];
  }

  /** One more use of a key that is not among the last. */
  lemma LastAfter(ks: seq<Key>, k: Key, n: nat)
    requires Distinct(ks) && n > 0 && k !in LastOf(ks, n)
    ensures var r := LastOf(ks, n); LastOf(Besides(ks, k) + [k], n) == r[if |r| == n then 1 else 0..] + [k]
  {
    hide Besides, Distinct;
    if k in ks {
      var j :| 0 <= j < |ks| && ks[j] == k;
      if j >= |ks| - |LastOf(ks, n)| {
        AmongLast(ks, j, n);
      }
      LastReturned(ks, j, n);
    } else {
      LastNew(ks, k, n);
    }
  }

  // ------------------------------------------------------------------ entries

  lemma HasEntry(ks: seq<Key>, encode: Encoder, k: Key)
    requires Distinct(ks)
    ensures HasKey(EntriesOf(ks, encode), k) <==> k in ks
    ensures k in ks ==> ks[Position(EntriesOf(ks, encode), k)] == k
  {
    var es := EntriesOf(ks, encode);
    if k in ks {
      var i :| 0 <= i < |ks| && ks[i] == k;
      assert es[i].key == k;
    }
  }

  /** Entries of one size leave room for one more exactly when they are fewer than fit. */
  lemma RoomIsCapacity(u: Setup, es: seq<Entry>)
    requires u.limits.Some? && UnitBytes(u) > 0
    requires forall i | 0 <= i < |es| :: EntryBytes(u, es[i]) == UnitBytes(u)
    ensures Room(u, u.limits.value, es, UnitBytes(u)) <==> |es| < Capacity(u)
  {
    TotalUniform(u, es);
    FitsIn(|es| + 1, UnitBytes(u), u.limits.value.maxBytes);
    Distributed(|es|, UnitBytes(u));
  }

  lemma Distributed(n: nat, unit: nat)
    ensures (n + 1) * unit == n * unit + unit
  {}

  lemma FitsIn(n: nat, unit: nat, bytes: nat)
    requires unit > 0
    ensures n * unit <= bytes <==> n <= bytes / unit
  {
    var q := bytes / unit;
    assert q * unit <= bytes < q * unit + unit;
    if n <= q {
      Times(n, q, unit);
    } else {
      Times(q + 1, n, unit);
      Distributed(q, unit);
    }
  }

  lemma Times(a: nat, b: nat, unit: nat)
    requires a <= b
    ensures a * unit <= b * unit
  {}

  /** What the cache holds, and that nothing more fits. */
  ghost predicate HoldsLast<G>(c: Cache<G>, ks: seq<Key>, encode: Encoder)
    requires c.setup.limits.Some? && UnitBytes(c.setup) > 0
  {
    Valid(c) && Distinct(ks) && c.entries == EntriesOf(LastOf(ks, Capacity(c.setup)), encode)
  }

  lemma HitHoldsLast<G>(c: Cache<G>, ks: seq<Key>, k: Key, encode: Encoder)
    requires c.setup.limits.Some? && c.setup.hidden > 0 && HoldsLast(c, ks, encode)
    requires k in LastOf(ks, Capacity(c.setup))
    ensures UseKey(c, k, encode).setup == c.setup && HoldsLast(UseKey(c, k, encode), Besides(ks, k) + [k], encode)
  {
    hide Besides, LastOf, Capacity, Valid, Position;
    var r := LastOf(ks, Capacity(c.setup));
    LookupIsValid(c, k);
    BesidesIsDistinct(ks, k);
    LastIsDistinct(ks, Capacity(c.setup));
    HasEntry(r, encode, k);
    var i := Position(c.entries, k);
    LastMoved(ks, i, Capacity(c.setup));
    assert ToEnd(c.entries, i) == EntriesOf(r[..i] + r[i + 1..] + [k], encode);
  }

  lemma LastIsDistinct(ks: seq<Key>, n: nat)
    requires Distinct(ks)
    ensures Distinct(LastOf(ks, n)) && |LastOf(ks, n)| <= n
  {}

  /** What has to go for one more entry. */
  lemma EvictionsAtCapacity(u: Setup, es: seq<Entry>)
    requires u.limits.Some? && UnitBytes(u) > 0 && 0 < Capacity(u) && |es| <= Capacity(u)
    requires forall i | 0 <= i < |es| :: EntryBytes(u, es[i]) == UnitBytes(u)
    ensures Evictions(u, u.limits.value, es, UnitBytes(u)) == if |es| == Capacity(u) then 1 else 0
  {
    hide Capacity, Room, UnitBytes, EntryBytes;
    RoomIsCapacity(u, es);
    if |es| == Capacity(u) {
      RoomIsCapacity(u, es[1..]);
      assert Evictions(u, u.limits.value, es[1..], UnitBytes(u)) == 0;
    }
  }

  lemma MissHoldsLast<G>(c: Cache<G>, ks: seq<Key>, k: Key, encode: Encoder)
    requires c.setup.limits.Some? && c.setup.hidden > 0 && HoldsLast(c, ks, encode)
    requires k.artifact == c.setup.artifact && Storable(c.setup, encode(k))
    requires k !in LastOf(ks, Capacity(c.setup))
    ensures UseKey(c, k, encode).setup == c.setup && HoldsLast(UseKey(c, k, encode), Besides(ks, k) + [k], encode)
  {
    var n, es := Capacity(c.setup), c.entries;
    var r := LastOf(ks, n);
    LookupIsValid(c, k);
    BesidesIsDistinct(ks, k);
    LastIsDistinct(ks, n);
    HasEntry(r, encode, k);
    var (d, found) := Lookup(c, k);
    AdmitIsValid(d, found.miss, encode(k), Completed);
    AdmitsExactly(d, found.miss, encode(k), Completed);
    FitsIn(1, UnitBytes(c.setup), c.setup.limits.value.maxBytes);
    UnitSized(c);
    if n > 0 {
      LastAfter(ks, k, n);
      EvictionsAtCapacity(c.setup, es);
      hide Besides, LastOf, Capacity, Valid, Admit, Evictions, UnitBytes, HasKey, Distinct;
      var m := if |r| == n then 1 else 0;
      assert es[m..] + [Entry(k, encode(k))] == EntriesOf(r[m..] + [k], encode);
    }
  }

  lemma UseHoldsLast<G>(c: Cache<G>, ks: seq<Key>, k: Key, encode: Encoder)
    requires c.setup.limits.Some? && c.setup.hidden > 0 && HoldsLast(c, ks, encode)
    requires k.artifact == c.setup.artifact && Storable(c.setup, encode(k))
    ensures UseKey(c, k, encode).setup == c.setup && HoldsLast(UseKey(c, k, encode), Besides(ks, k) + [k], encode)
  {
    if k in LastOf(ks, Capacity(c.setup)) {
      HitHoldsLast(c, ks, k, encode);
    } else {
      MissHoldsLast(c, ks, k, encode);
    }
  }

  /** After any uses, the keys that are held are those used last, as many as fit. */
  lemma {:induction false} HeldAreLatest<G>(c: Cache<G>, uses: seq<Key>, encode: Encoder)
    requires Valid(c) && c.entries == [] && c.setup.limits.Some? && c.setup.hidden > 0
    requires forall i | 0 <= i < |uses| :: uses[i].artifact == c.setup.artifact && Storable(c.setup, encode(uses[i]))
    ensures Uses(c, uses, encode).setup == c.setup
    ensures Uses(c, uses, encode).entries == EntriesOf(LastOf(Recency(uses), Capacity(c.setup)), encode)
    ensures HoldsLast(Uses(c, uses, encode), Recency(uses), encode)
  {
    if uses != [] {
      var n := |uses| - 1;
      HeldAreLatest(c, uses[..n], encode);
      UseHoldsLast(Uses(c, uses[..n], encode), Recency(uses[..n]), uses[n], encode);
    }
  }

  // --------------------------------------------------------------- what is counted

  /** A use is a hit when its key is among those used last, as many as fit. */
  function HitsIn(uses: seq<Key>, capacity: nat): nat {
    if uses == [] then 0
    else
      var n := |uses| - 1;
      HitsIn(uses[..n], capacity) + if uses[n] in LastOf(Recency(uses[..n]), capacity) then 1 else 0
  }

  /** What the counters of a cache that has seen `uses` and no invalidation say. */
  predicate Counts<G>(c: Cache<G>, uses: nat, hits: nat) {
    && c.stats.hits == hits && c.stats.misses + hits == uses
    && c.stats.admitted == c.stats.evicted + |c.entries|
    && c.stats.admitted <= c.stats.misses
    && c.stats.invalidations == 0
  }

  lemma UseCounts<G>(c: Cache<G>, k: Key, encode: Encoder, uses: nat, hits: nat)
    requires Valid(c) && Counts(c, uses, hits) && uses < U64_MAX && k.artifact == c.setup.artifact
    ensures Counts(UseKey(c, k, encode), uses + 1, if HasKey(c.entries, k) then hits + 1 else hits)
  {
    hide Evictions, Valid;
    if !HasKey(c.entries, k) {
      LookupIsValid(c, k);
      var (d, found) := Lookup(c, k);
      AdmitsExactly(d, found.miss, encode(k), Completed);
    }
  }

  /** The counters add up: each use is a hit or a miss, the hits are the uses of keys among the
      last that fit, and what was admitted was evicted or is still held. */
  lemma {:induction false} UsesAreCounted<G>(c: Cache<G>, uses: seq<Key>, encode: Encoder)
    requires Valid(c) && c.entries == [] && c.stats == CacheStats(0, 0, 0, 0, 0, 0)
    requires c.setup.limits.Some? && c.setup.hidden > 0 && |uses| <= U64_MAX
    requires forall i | 0 <= i < |uses| :: uses[i].artifact == c.setup.artifact && Storable(c.setup, encode(uses[i]))
    ensures Counts(Uses(c, uses, encode), |uses|, HitsIn(uses, Capacity(c.setup)))
  {
    hide Counts, Capacity, LastOf, Recency, UseKey, Valid;
    if uses == [] {
      FreshCounts(c);
    } else {
      var n := |uses| - 1;
      var d := Uses(c, uses[..n], encode);
      UsesAreCounted(c, uses[..n], encode);
      HeldAreLatest(c, uses[..n], encode);
      var r := LastOf(Recency(uses[..n]), Capacity(c.setup));
      LastIsDistinct(Recency(uses[..n]), Capacity(c.setup));
      HasEntry(r, encode, uses[n]);
      UseCounts(d, uses[n], encode, n, HitsIn(uses[..n], Capacity(c.setup)));
    }
  }

  lemma FreshCounts<G>(c: Cache<G>)
    requires c.entries == [] && c.stats == CacheStats(0, 0, 0, 0, 0, 0)
    ensures Counts(c, 0, 0)
  {}
}
