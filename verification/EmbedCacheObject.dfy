/** The cache as its callers hold it: one object whose operations update its fields, each
    proved against the specification in `EmbedCache`. */
module EmbedCacheObject {
  import opened Wrappers
  import opened EmbedCache

  /** An allocation that stands for a generation; only its identity matters. */
  class Generation {
    constructor () {}
  }

  class EmbeddingCache {
    const setup: Setup
    // Oldest first.
    var entries: seq<Entry>
    var generation: Generation
    var stats: CacheStats

    function View(): Cache<Generation>
      reads this
    { Cache(setup, entries, generation, stats) }

    constructor (setup: Setup)
      ensures this.setup == setup && fresh(generation)
      ensures View() == Cache(setup, [], generation, CacheStats(0, 0, 0, 0, 0, 0))
      ensures Valid(View())
    {
      this.setup := setup;
      entries := [];
      generation := new Generation();
      stats := CacheStats(0, 0, 0, 0, 0, 0);
    }

    method Find(k: Key) returns (index: Option<nat>)
      ensures index.Some? <==> HasKey(entries, k)
      ensures index.Some? ==> index.value == Position(entries, k)
    {
      var i := 0;
      while i < |entries|
        invariant 0 <= i <= |entries|
        invariant forall j | 0 <= j < i :: entries[j].key != k
      {
        if entries[i].key == k {
          return Some(i);
        }
        i := i + 1;
      }
      return None;
    }

    method LookupKey(principal: Handle, ids: seq<nat>, mask: seq<nat>) returns (r: CacheLookup<Generation>)
      modifies this`entries, this`stats
      ensures (View(), r) == Lookup(old(View()), KeyFor(old(View()), principal, ids, mask))
    {
      var key := Key(setup.artifact, principal, ids, mask);
      var index := Find(key);
      if index.Some? {
        var entry := entries[index.value];
        entries := Without(entries, index.value);
        entries := entries + [entry];
        stats := stats.(hits := Bump(stats.hits));
        return Hit(entry.embedding);
      }
      stats := stats.(misses := Bump(stats.misses));
      return Miss(CacheMiss(key, generation));
    }

    /** Evicts the least recent entries until one of `bytes` more bytes fits. */
    method MakeRoom(limits: CacheLimits, bytes: nat)
      requires limits.maxEntries > 0 && bytes <= limits.maxBytes && stats.bytes == TotalBytes(setup, entries)
      modifies this`entries, this`stats
      ensures var n := Evictions(setup, limits, old(entries), bytes);
        && entries == old(entries)[n..]
        && stats == old(stats).(bytes := TotalBytes(setup, entries), evicted := BumpBy(old(stats).evicted, n))
    {
      ghost var was, counted := entries, stats;
      ghost var n := 0;
      while |entries| >= limits.maxEntries || stats.bytes > limits.maxBytes - bytes
        invariant n <= |was| && entries == was[n..]
        invariant forall j | 0 <= j < n :: !Room(setup, limits, was[j..], bytes)
        invariant stats == counted.(bytes := TotalBytes(setup, entries), evicted := BumpBy(counted.evicted, n))
        decreases |entries|
      {
        EmptyHasRoom(setup, limits, entries, bytes);
        var entry := entries[0];
        entries := entries[1..];
        stats := stats.(bytes := stats.bytes - EntryBytes(setup, entry), evicted := Bump(stats.evicted));
        n := n + 1;
      }
      EvictionsAre(setup, limits, was, bytes, n);
    }

    /** The checks before anything is stored. */
    method MayAdmit(miss: CacheMiss<Generation>, embedding: Embedding, outcome: RunOutcome) returns (may: bool)
      requires miss.generation == generation ==> miss.key.artifact == setup.artifact
      ensures may <==> Admissible(View(), miss, embedding, outcome)
    {
      if setup.limits.None? {
        return false;
      }
      var limits := setup.limits.value;
      if outcome != Completed || miss.generation != generation || |embedding| != setup.hidden
         || embedding == [] || !AllFinite(embedding) {
        return false;
      }
      var known := Find(miss.key);
      if known.Some? {
        return false;
      }
      var bytes := 4 * |embedding| + setup.entryBytes + |miss.key.artifact|;
      return limits.maxEntries > 0 && bytes <= limits.maxBytes;
    }

    /** Tickets are opaque: one of this generation was issued by this cache. */
    method Admit(miss: CacheMiss<Generation>, embedding: Embedding, outcome: RunOutcome) returns (admitted: bool)
      requires Valid(View())
      requires miss.generation == generation ==> miss.key.artifact == setup.artifact
      modifies this`entries, this`stats
      ensures Valid(View())
      ensures (View(), admitted) == EmbedCache.Admit(old(View()), miss, embedding, outcome)
    {
      ghost var was := View();
      assert stats.bytes == TotalBytes(setup, entries);
      AdmitIsValid(was, miss, embedding, outcome);
      hide EmbedCache.Admit, Valid, TotalBytes, Evictions, HasKey, AllFinite, Storable;
      NotAdmissible(was, miss, embedding, outcome);
      admitted := MayAdmit(miss, embedding, outcome);
      if admitted {
        Stored(was, miss, embedding);
        var bytes := 4 * |embedding| + setup.entryBytes + |miss.key.artifact|;
        MakeRoom(setup.limits.value, bytes);
        entries := entries + [Entry(miss.key, embedding)];
        stats := stats.(bytes := stats.bytes + bytes, admitted := Bump(stats.admitted));
      }
    }

    method Invalidate()
      modifies this`generation, this`stats
      ensures fresh(generation)
      ensures stats == old(stats).(invalidations := Bump(old(stats).invalidations))
    {
      generation := new Generation();
      stats := stats.(invalidations := Bump(stats.invalidations));
    }

    method Clear()
      modifies this`entries, this`generation, this`stats
      ensures fresh(generation)
      ensures View() == EmbedCache.Clear(old(View()), generation)
    {
      Invalidate();
      entries := [];
      stats := stats.(bytes := 0);
    }

    method ErasePrincipal(principal: Handle)
      modifies this`entries, this`generation, this`stats
      ensures fresh(generation)
      ensures View() == EmbedCache.ErasePrincipal(old(View()), principal, generation)
    {
      Invalidate();
      var kept: seq<Entry> := [];
      var bytes := 0;
      var i := 0;
      while i < |entries|
        invariant 0 <= i <= |entries|
        invariant kept == Others(entries[..i], principal) && bytes == TotalBytes(setup, kept)
        invariant entries == old(entries) && fresh(generation)
        invariant stats == old(stats).(invalidations := Bump(old(stats).invalidations))
      {
        OthersStep(entries, i, principal);
        if entries[i].key.principal != principal {
          TotalAppend(setup, kept, [entries[i]]);
          TotalOne(setup, entries[i]);
          kept := kept + [entries[i]];
          bytes := bytes + EntryBytes(setup, entries[i]);
        }
        i := i + 1;
      }
      assert entries[..i] == entries;
      entries := kept;
      stats := stats.(bytes := bytes);
    }
  }

  lemma NotAdmissible<G>(c: Cache<G>, miss: CacheMiss<G>, e: Embedding, outcome: RunOutcome)
    ensures !Admissible(c, miss, e, outcome) ==> Admit(c, miss, e, outcome) == (c, false)
  {}

  /** What is stored, with its bytes counted on top of those that stay. */
  lemma Stored<G>(c: Cache<G>, miss: CacheMiss<G>, e: Embedding)
    requires Admissible(c, miss, e, Completed)
    ensures var entry := Entry(miss.key, e);
      var n := Evictions(c.setup, c.setup.limits.value, c.entries, EntryBytes(c.setup, entry));
      Admit(c, miss, e, Completed)
      == (c.(entries := c.entries[n..] + [entry],
             stats := c.stats.(bytes := TotalBytes(c.setup, c.entries[n..]) + EntryBytes(c.setup, entry),
                               admitted := Bump(c.stats.admitted), evicted := BumpBy(c.stats.evicted, n))), true)
  {
    hide TotalBytes, EntryBytes;
    var entry := Entry(miss.key, e);
    var n := Evictions(c.setup, c.setup.limits.value, c.entries, EntryBytes(c.setup, entry));
    TotalAppend(c.setup, c.entries[n..], [entry]);
    TotalOne(c.setup, entry);
  }

  lemma EmptyHasRoom(u: Setup, l: CacheLimits, es: seq<Entry>, need: nat)
    requires l.maxEntries > 0 && need <= l.maxBytes
    requires !Room(u, l, es, need)
    ensures es != []
  {}

  lemma EvictionsAre(u: Setup, l: CacheLimits, es: seq<Entry>, need: nat, n: nat)
    requires n <= |es| && Room(u, l, es[n..], need)
    requires forall j | 0 <= j < n :: !Room(u, l, es[j..], need)
    ensures Evictions(u, l, es, need) == n
  {}

  lemma {:induction false} OthersStep(es: seq<Entry>, i: nat, p: Handle)
    requires i < |es|
    ensures Others(es[..i + 1], p) == Others(es[..i], p) + (if es[i].key.principal != p then [es[i]] else [])
  {
    if i == 0 {
      assert es[..1] == [es[0]] && es[..0] == [] && [es[0]][1..] == [];
    } else {
      assert es[..i + 1][1..] == es[1..][..i] && es[..i][1..] == es[1..][..i - 1];
      OthersStep(es[1..], i - 1, p);
    }
  }
}
