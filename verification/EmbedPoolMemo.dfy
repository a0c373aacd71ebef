/** The pool's cache along a run: what it holds is faithful to the pipeline, and outlives no
    invalidation (backends/rustev-backend-embed-linear/src/backend.rs:188-200, 257-277, 421-459;
    backends/rustev-backend-embed-linear/src/cache.rs:171-270). */
module EmbedPoolMemo {
  import opened Wrappers
  import opened EmbedCache
  import opened EmbedPool
  import opened EmbedPoolSafety

  /** A ticket is for what its job asks, and is current only if it was issued after the last
      call that removed entries. */
  predicate TicketSound(s: System, job: Job, t: Ticket)
    requires s.cache.Some?
  {
    && t.miss.key == KeyFor(s.cache.value, job.principal, job.request.ids, job.request.mask)
    && (t.miss.generation == s.cache.value.generation ==> s.invalidated < t.issued)
    && t.issued < s.now
  }

  predicate TicketsSound(s: System)
    requires s.cache.Some?
  {
    && (forall j | j in s.jobs && s.jobs[j].ticket.Some? :: TicketSound(s, s.jobs[j], s.jobs[j].ticket.value))
    && (forall w | 0 <= w < |s.workers| && s.workers[w].Busy? && s.workers[w].ticket.Some? ::
          s.workers[w].job in s.jobs && TicketSound(s, s.jobs[s.workers[w].job], s.workers[w].ticket.value))
  }

  /** The entry comes from a ticket issued after the last `clear`, and after the last
      `erase_principal` of its principal. */
  predicate BornSince(s: System, e: Entry) {
    && e.key in s.born
    && s.cleared < s.born[e.key] < s.now
    && (e.key.principal in s.erased ==> s.erased[e.key.principal] < s.born[e.key])
  }

  predicate EntriesSound(s: System)
    requires s.cache.Some?
  {
    && Valid(s.cache.value)
    && Faithful(s)
    && forall e | e in s.cache.value.entries :: BornSince(s, e)
  }

  predicate TimesSound(s: System) {
    && s.cleared <= s.invalidated < s.now
    && forall p | p in s.erased :: s.erased[p] <= s.invalidated
  }

  predicate MemoSound(s: System) {
    && TimesSound(s)
    && (s.cache.Some? ==> TicketsSound(s) && EntriesSound(s))
  }

  // ----------------------------------------------------------- tickets that move

  predicate SameAsk(a: Job, b: Job) { a.principal == b.principal && a.request == b.request }

  /** Every ticket held by `ks` and `vs` is one of those that `js` and `ws` held, for the same
      request. */
  predicate TicketsFrom(js: map<nat, Job>, ws: seq<Worker>, ks: map<nat, Job>, vs: seq<Worker>) {
    && (forall j | j in js :: j in ks && SameAsk(js[j], ks[j]))
    && (forall j | j in ks && ks[j].ticket.Some? :: j in js && js[j].ticket == ks[j].ticket)
    && |vs| == |ws|
    && (forall w | 0 <= w < |vs| && vs[w].Busy? && vs[w].ticket.Some? ::
          || vs[w] == ws[w]
          || (vs[w].job in js && js[vs[w].job].ticket == vs[w].ticket))
  }

  lemma MovedTickets(s: System, t: System)
    requires s.cache.Some? && t.cache.Some? && TicketsSound(s) && TicketsFrom(s.jobs, s.workers, t.jobs, t.workers)
    requires t.invalidated == s.invalidated && t.now >= s.now
    requires t.cache.value.generation == s.cache.value.generation && t.cache.value.setup == s.cache.value.setup
    ensures TicketsSound(t)
  {}

  /** Steps that leave the cache alone. */
  predicate CacheAlone(step: Step) {
    !step.Begin? && !step.Finish? && !step.ClearCache? && !step.EraseHandle?
  }

  /** Tickets only move or go, and nothing else of the memo changes. */
  ghost predicate Keeps(s: System, t: System) {
    && TicketsFrom(s.jobs, s.workers, t.jobs, t.workers)
    && t.config == s.config && t.cache == s.cache && t.born == s.born && t.cleared == s.cleared && t.erased == s.erased
    && t.invalidated == s.invalidated && t.now == s.now
  }

  lemma PutMoves(s: System, t: System, j: nat, job: Job)
    requires j in s.jobs && t.jobs == s.jobs[j := job] && t.workers == s.workers
    requires SameAsk(s.jobs[j], job) && (job.ticket.Some? ==> job.ticket == s.jobs[j].ticket)
    ensures TicketsFrom(s.jobs, s.workers, t.jobs, t.workers)
  {}

  lemma SetMoves(s: System, t: System, w: nat, x: Worker)
    requires w < |s.workers| && t.workers == s.workers[w := x]
    requires !x.Busy? && t.jobs == s.jobs
    ensures TicketsFrom(s.jobs, s.workers, t.jobs, t.workers)
  {}

  lemma EnqueueMoves(s: System, j: nat)
    requires j in s.jobs
    ensures Keeps(s, EnqueueJob(s, j))
  {
    hide TicketsFrom, ReportOf;
    var job := EnqueueJob(s, j).jobs[j];
    PutMoves(s, EnqueueJob(s, j), j, job);
  }

  lemma PollMoves(s: System, j: nat)
    requires j in s.jobs
    ensures Keeps(s, Noted(PollJob(s, j), j))
  {
    hide TicketsFrom, ReportOf, CancelledReport, Retain;
    var t := Noted(PollJob(s, j), j);
    PutMoves(s, t, j, t.jobs[j]);
  }

  lemma DropMoves(s: System, j: nat)
    requires j in s.jobs
    ensures Keeps(s, DropJob(s, j))
  {
    hide TicketsFrom, Retain;
    PutMoves(s, DropJob(s, j), j, DropJob(s, j).jobs[j]);
  }

  lemma PickMoves(s: System, w: nat)
    requires w < |s.workers|
    ensures Keeps(s, PickJob(s, w))
  {
    if s.shutdown || s.queue == [] {
      hide TicketsFrom;
      SetMoves(s, PickJob(s, w), w, if s.shutdown then Exited else Waiting);
    }
  }

  lemma AloneMoves(s: System, step: Step)
    requires Enabled(s, step) && CacheAlone(step)
    ensures Keeps(s, TakeStep(s, step).(now := s.now)) && TakeStep(s, step).now == s.now + 1
  {
    hide EnqueueJob, PollJob, DropJob, PickJob, Held, TicketsFrom;
    match step
    case Enqueue(j) => EnqueueMoves(s, j);
    case Poll(j) => PollMoves(s, j);
    case Drop(j) => DropMoves(s, j);
    case Pick(w) => PickMoves(s, w);
    case Raise(j) => RaiseMoves(s, j);
    case Wake(w) => WakeMoves(s, w);
    case Notify(w) => NotifyMoves(s, w);
    case Spurious(w) => SpuriousMoves(s, w);
    case Shutdown => ShutdownMoves(s);
  }

  lemma RaiseMoves(s: System, j: nat)
    requires j in s.jobs
    ensures Keeps(s, Put(s, j, s.jobs[j].(raised := true, asleep := false)))
  {
    PutMoves(s, Put(s, j, s.jobs[j].(raised := true, asleep := false)), j, s.jobs[j].(raised := true, asleep := false));
  }

  lemma WakeMoves(s: System, w: nat)
    requires Enabled(s, Wake(w))
    ensures Keeps(s, TakeStep(s, Wake(w)).(now := s.now)) && TakeStep(s, Wake(w)).now == s.now + 1
  {
    IdleMoves(s, TakeStep(s, Wake(w)));
  }

  lemma NotifyMoves(s: System, w: Option<nat>)
    requires Enabled(s, Notify(w))
    ensures Keeps(s, TakeStep(s, Notify(w)).(now := s.now)) && TakeStep(s, Notify(w)).now == s.now + 1
  {
    IdleMoves(s, TakeStep(s, Notify(w)));
  }

  lemma SpuriousMoves(s: System, w: nat)
    requires Enabled(s, Spurious(w))
    ensures Keeps(s, TakeStep(s, Spurious(w)).(now := s.now)) && TakeStep(s, Spurious(w)).now == s.now + 1
  {
    IdleMoves(s, TakeStep(s, Spurious(w)));
  }

  lemma ShutdownMoves(s: System)
    requires Enabled(s, Shutdown)
    ensures Keeps(s, TakeStep(s, Shutdown).(now := s.now)) && TakeStep(s, Shutdown).now == s.now + 1
  {
    IdleMoves(s, TakeStep(s, Shutdown));
  }

  lemma IdleMoves(s: System, t: System)
    requires t.jobs.Keys == s.jobs.Keys && |t.workers| == |s.workers|
    requires forall j | j in s.jobs :: t.jobs[j] == s.jobs[j] || t.jobs[j] == s.jobs[j].(asleep := false)
    requires forall w | 0 <= w < |s.workers| :: t.workers[w] == s.workers[w] || !t.workers[w].Busy?
    ensures TicketsFrom(s.jobs, s.workers, t.jobs, t.workers)
  {}

  lemma AloneIsSound(s: System, step: Step)
    requires MemoSound(s) && Enabled(s, step) && CacheAlone(step)
    ensures MemoSound(TakeStep(s, step))
  {
    hide TicketsFrom, TicketsSound, TakeStep, Valid, Pooled;
    AloneMoves(s, step);
    var t := TakeStep(s, step);
    if s.cache.Some? {
      MovedTickets(s, t);
      forall e | e in t.cache.value.entries ensures BornSince(t, e) {
        assert BornSince(s, e);
      }
    }
  }

  // ----------------------------------------------------------- steps on the cache

  lemma BeginIsSound(s: System, j: nat, p: Handle, r: Request, raised: bool)
    requires MemoSound(s) && Enabled(s, Begin(j, p, r, raised)) && WorkersSound(s.workers, s.jobs)
    ensures MemoSound(TakeStep(s, Begin(j, p, r, raised)))
  {
    hide Valid, Pooled, Lookup, FromCache, ReportOf, Held, TicketsSound;
    if s.cache.Some? {
      var c := s.cache.value;
      var k := KeyFor(c, p, r.ids, r.mask);
      LookupIsValid(c, k);
      LookedUp(c, k);
      BeginTickets(s, j, p, r, raised);
      var t := TakeStep(s, Begin(j, p, r, raised));
      assert t.cache == Some(Lookup(c, k).0);
      assert EntriesSound(t) by {
        hide BeginCall;
        forall e | e in t.cache.value.entries ensures BornSince(t, e) {
          assert BornSince(s, e);
        }
      }
    }
  }

  lemma BeginTickets(s: System, j: nat, p: Handle, r: Request, raised: bool)
    requires s.cache.Some? && TimesSound(s) && TicketsSound(s)
    requires Enabled(s, Begin(j, p, r, raised)) && WorkersSound(s.workers, s.jobs)
    ensures TakeStep(s, Begin(j, p, r, raised)).cache.Some? && TicketsSound(TakeStep(s, Begin(j, p, r, raised)))
  {
    hide Pooled, Lookup, FromCache, ReportOf, Held;
    LookedUp(s.cache.value, KeyFor(s.cache.value, p, r.ids, r.mask));
  }

  lemma LookedUp<G>(c: Cache<G>, k: Key)
    ensures Lookup(c, k).0.generation == c.generation && Lookup(c, k).0.setup == c.setup
    ensures Lookup(c, k).1.Miss? ==> Lookup(c, k).1.miss == CacheMiss(k, c.generation)
  {}

  lemma ClearIsSound(s: System, a: Addr)
    requires MemoSound(s) && Enabled(s, ClearCache(a))
    ensures MemoSound(TakeStep(s, ClearCache(a)))
  {
    hide Pooled;
  }

  lemma EraseIsSound(s: System, p: Handle, a: Addr)
    requires MemoSound(s) && Enabled(s, EraseHandle(p, a))
    ensures MemoSound(TakeStep(s, EraseHandle(p, a)))
  {
    hide Pooled, Valid, Others, ErasePrincipal;
    var t := TakeStep(s, EraseHandle(p, a));
    EraseIsValid(s.cache.value, p, a);
    assert ErasePrincipal(s.cache.value, p, a).generation == a by { Erased(s.cache.value, p, a); }
    Erased(s.cache.value, p, a);
    forall e | e in t.cache.value.entries ensures BornSince(t, e) {
      assert BornSince(s, e);
    }
  }

  lemma Erased<G>(c: Cache<G>, p: Handle, next: G)
    ensures ErasePrincipal(c, p, next).generation == next && ErasePrincipal(c, p, next).setup == c.setup
  {}

  /** An admission adds the ticket's entry and no other. */
  lemma Admitted<G>(c: Cache<G>, miss: CacheMiss<G>, e: Embedding, outcome: RunOutcome)
    ensures var (d, admitted) := Admit(c, miss, e, outcome);
      && d.generation == c.generation && d.setup == c.setup
      && (!admitted ==> d == c)
      && (admitted ==>
            && outcome.Completed? && miss.generation == c.generation && !HasKey(c.entries, miss.key)
            && forall x | x in d.entries :: x in c.entries || x == Entry(miss.key, e))
  {}

  /** What a finished run offers keeps the cache sound. */
  lemma OfferIsSound(s: System, job: Job, ticket: Option<Ticket>)
    requires MemoSound(s)
    requires s.cache.Some? && ticket.Some? ==> TicketSound(s, job, ticket.value)
    requires !job.raised ==> Direct(s.config.f, job.request).Good?
    ensures MemoSound(Offer(s, job, ticket))
  {
    if s.cache.Some? && ticket.Some? {
      var outcome := if job.abandoned || job.raised then RunOutcome.Cancelled else Completed;
      var e := OfferedEmbedding(s.config.f, job);
      hide Valid, Pooled, Direct, TicketsSound, EntriesSound, Admit, TicketsFrom, Offer;
      AdmitEntries(s, job, ticket.value, e, outcome);
      Admitted(s.cache.value, ticket.value.miss, e, outcome);
      hide TicketSound;
      OfferAdmits(s, job, ticket.value, e, outcome);
      var t := Offer(s, job, ticket);
      SameTickets(s, t);
      MovedTickets(s, t);
    } else {
      hide Direct;
    }
  }

  lemma SameTickets(s: System, t: System)
    requires t.jobs == s.jobs && t.workers == s.workers
    ensures TicketsFrom(s.jobs, s.workers, t.jobs, t.workers)
  {}

  /** The embedding that a completed run computed. */
  lemma OfferedEmbedding(f: Pipeline, job: Job) returns (e: Embedding)
    requires !job.raised ==> Direct(f, job.request).Good?
    ensures e == match Pooled(f, job.request.ids, job.request.mask) case None => [] case Some(e) => e
    ensures !job.raised ==> Pooled(f, job.request.ids, job.request.mask) == Some(e)
  {
    e := match Pooled(f, job.request.ids, job.request.mask) case None => [] case Some(e) => e;
  }

  lemma OfferAdmits(s: System, job: Job, ticket: Ticket, e: Embedding, outcome: RunOutcome)
    requires s.cache.Some?
    requires outcome == if job.abandoned || job.raised then RunOutcome.Cancelled else Completed
    requires e == match Pooled(s.config.f, job.request.ids, job.request.mask) case None => [] case Some(e) => e
    ensures var (d, admitted) := Admit(s.cache.value, ticket.miss, e, outcome);
      Offer(s, job, Some(ticket)) ==
        s.(cache := Some(d), born := if admitted then s.born[ticket.miss.key := ticket.issued] else s.born)
  {
    hide Admit, Pooled;
  }

  lemma AdmitEntries(s: System, job: Job, ticket: Ticket, e: Embedding, outcome: RunOutcome)
    requires TimesSound(s) && s.cache.Some? && EntriesSound(s) && TicketSound(s, job, ticket)
    requires outcome.Completed? ==> Pooled(s.config.f, job.request.ids, job.request.mask) == Some(e)
    ensures var (d, admitted) := Admit(s.cache.value, ticket.miss, e, outcome);
      EntriesSound(s.(cache := Some(d), born := if admitted then s.born[ticket.miss.key := ticket.issued] else s.born))
  {
    var c := s.cache.value;
    AdmitIsValid(c, ticket.miss, e, outcome);
    Admitted(c, ticket.miss, e, outcome);
    hide Valid, Admit, Pooled;
    var (d, admitted) := Admit(c, ticket.miss, e, outcome);
    var t := s.(cache := Some(d), born := if admitted then s.born[ticket.miss.key := ticket.issued] else s.born);
    forall x | x in d.entries
      ensures BornSince(t, x) && Pooled(t.config.f, x.key.ids, x.key.mask) == Some(x.embedding)
    {
      if x in c.entries {
        assert BornSince(s, x) && HasKey(c.entries, x.key);
      }
    }
  }

  lemma FinishIsSound(s: System, w: nat, other: Output)
    requires MemoSound(s) && Enabled(s, Finish(w, other))
    ensures MemoSound(TakeStep(s, Finish(w, other)))
  {
    var job := s.jobs[s.workers[w].job];
    var output := if job.raised then other else Direct(s.config.f, job.request);
    var u := if output.Good? then Offer(s, job, s.workers[w].ticket) else s;
    FinishShape(s, w, other, u);
    hide Direct, Offer, EntriesSound, TicketSound, TicketsFrom, FinishJob, Held;
    if output.Good? {
      OfferIsSound(s, job, s.workers[w].ticket);
    }
    hide TicketsSound, Enabled;
    var t := TakeStep(s, Finish(w, other));
    if u.cache.Some? {
      FinishMoves(u, t, w);
      MovedTickets(u, t);
      Later(u, t);
    }
  }

  lemma FinishShape(s: System, w: nat, other: Output, u: System)
    requires Enabled(s, Finish(w, other))
    requires var job := s.jobs[s.workers[w].job];
      var output := if job.raised then other else Direct(s.config.f, job.request);
      u == if output.Good? then Offer(s, job, s.workers[w].ticket) else s
    ensures var j := s.workers[w].job;
      var t := TakeStep(s, Finish(w, other));
      && u == s.(cache := u.cache, born := u.born)
      && t == u.(jobs := t.jobs, workers := t.workers, running := t.running, now := s.now + 1)
      && |t.workers| == |s.workers| && t.workers == s.workers[w := t.workers[w]] && !t.workers[w].Busy?
      && j in t.jobs && t.jobs == s.jobs[j := t.jobs[j]]
      && SameAsk(s.jobs[j], t.jobs[j]) && t.jobs[j].ticket == s.jobs[j].ticket
  {
    OfferOnlyCaches(s, s.jobs[s.workers[w].job], s.workers[w].ticket);
    hide Offer, Direct, Held;
  }

  lemma OfferOnlyCaches(s: System, job: Job, ticket: Option<Ticket>)
    ensures var t := Offer(s, job, ticket);
      t == s.(cache := t.cache, born := t.born)
  {}

  lemma FinishMoves(s: System, t: System, w: nat)
    requires w < |s.workers| && |t.workers| == |s.workers| && t.workers == s.workers[w := t.workers[w]]
    requires !t.workers[w].Busy? && s.workers[w].Busy? && s.workers[w].job in s.jobs
    requires var j := s.workers[w].job;
      && j in t.jobs && t.jobs == s.jobs[j := t.jobs[j]]
      && SameAsk(s.jobs[j], t.jobs[j]) && t.jobs[j].ticket == s.jobs[j].ticket
    ensures TicketsFrom(s.jobs, s.workers, t.jobs, t.workers)
  {}

  lemma Later(s: System, t: System)
    requires s.cache.Some? && EntriesSound(s)
    requires t == s.(jobs := t.jobs, workers := t.workers, running := t.running, now := t.now) && s.now <= t.now
    ensures EntriesSound(t)
  {
    hide Valid, Pooled;
    forall e | e in t.cache.value.entries ensures BornSince(t, e) {
      assert BornSince(s, e);
    }
  }

  lemma MemoStep(s: System, step: Step)
    requires MemoSound(s) && Enabled(s, step) && WorkersSound(s.workers, s.jobs)
    ensures MemoSound(TakeStep(s, step))
  {
    hide MemoSound, TakeStep, Enabled, WorkersSound;
    match step
    case Begin(j, p, r, raised) => BeginIsSound(s, j, p, r, raised);
    case Finish(w, other) => FinishIsSound(s, w, other);
    case ClearCache(a) => ClearIsSound(s, a);
    case EraseHandle(p, a) => EraseIsSound(s, p, a);
    case _ =>
      AloneIsSound(s, step);
  }
}
