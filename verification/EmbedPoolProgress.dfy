/** What the pool's steps get done: attempts are taken in while there is room, in their order, run
    to an answer that the next poll reports, and remembered for the same principal
    (backends/rustev-backend-embed-linear/src/backend.rs:257-303, 345-468). */
module EmbedPoolProgress {
  import opened Wrappers
  import opened EmbedCache
  import opened EmbedPool
  import opened EmbedPoolSafety
  import opened EmbedPoolMemo
  import opened EmbedPoolRuns
  import Steps = EmbedPoolSteps

  /** An attempt is taken in exactly while the workers that run and the jobs that wait leave room. */
  lemma EnqueuedWhileRoom(s: System, j: nat)
    requires Reachable(s) && Enabled(s, Enqueue(j))
    ensures var t := TakeStep(s, Enqueue(j));
      if Tally(s.workers, IsBusy) + |s.queue| < s.config.capacity then
        t.queue == s.queue + [j] && t.notifies == s.notifies + 1 && t.jobs[j].reported.None?
      else
        && t.queue == s.queue && t.jobs[j].reported.Some?
        && t.jobs[j].reported.value.result.Bad? && t.jobs[j].reported.value.result.failure == Overloaded
  {
    ReachableIsSound(s);
    assert Coherent(s.config, s.jobs[j]);
    hide Sound, MemoSound, Coherent, Held;
  }

  /** A poll reports exactly when the job is done or its signal was raised; a poll that reports
      nothing leaves a waker, and the task sleeps. */
  lemma PollReports(s: System, j: nat)
    requires Reachable(s) && Enabled(s, Poll(j))
    ensures var t := TakeStep(s, Poll(j));
      && (t.jobs[j].reported.Some? <==> s.jobs[j].phase == Done || s.jobs[j].raised)
      && (t.jobs[j].reported.None? ==> t.jobs[j].waker && Sleeps(t.jobs[j]))
  {
    ReachableIsSound(s);
    assert Coherent(s.config, s.jobs[j]);
    assert s.jobs[j].result.Some? <==> s.jobs[j].phase == Done;
    assert Pending(s.jobs[j]);
    hide Sound, MemoSound, Coherent, Retain, Held, ReportOf, CancelledReport, Direct;
  }

  /** A run that nobody cancelled ends in an answer, and the next poll reports it in full. */
  lemma FinishThenPoll(s: System, w: nat, other: Output)
    requires Reachable(s) && Enabled(s, Finish(w, other))
    requires var job := s.jobs[s.workers[w].job]; Pending(job) && !job.raised
    ensures var j := s.workers[w].job;
      var t := TakeStep(s, Finish(w, other));
      && t.jobs[j].phase == Done && !RunsJob(t.workers, j)
      && Enabled(t, Poll(j))
      && TakeStep(t, Poll(j)).jobs[j].reported ==
           Some(Report(Direct(s.config.f, s.jobs[j].request), FullCharge(s.config, s.jobs[j].request), NotRequested, Finished))
  {
    var j := s.workers[w].job;
    ReachableIsSound(s);
    StepIsSound(s, Finish(w, other));
    assert Coherent(s.config, s.jobs[j]) && s.jobs[j].phase == Running;
    assert !s.jobs[j].abandoned;
    var t := TakeStep(s, Finish(w, other));
    OfferOnlyCaches(s, s.jobs[j], s.workers[w].ticket);
    assert t.jobs[j] == s.jobs[j].(phase := Done, waker := false, result := Some(Direct(s.config.f, s.jobs[j].request))) by {
      hide Sound, MemoSound, Coherent, Offer, Direct, Held;
    }
    hide Sound, MemoSound, TakeStep, Offer, Direct, Coherent;
    StillDone(s, t, j);
    PolledDone(t, j);
  }

  lemma StillDone(s: System, t: System, j: nat)
    requires Sound(t) && j in t.jobs && t.jobs[j].phase == Done
    ensures !RunsJob(t.workers, j)
  {}

  lemma PolledDone(t: System, j: nat)
    requires Enabled(t, Poll(j)) && t.jobs[j].result.Some? && !t.jobs[j].raised
    ensures TakeStep(t, Poll(j)).jobs[j].reported
            == Some(ReportOf(t.jobs[j].result.value, if t.jobs[j].hasRequest then 0 else t.jobs[j].units, false))
  {
    hide Retain, ReportOf, CancelledReport, Held;
  }

  // ----------------------------------------------------------------- the memo

  /** The cache holds what the principal's tokens pooled to. */
  predicate Holds(s: System, p: Handle, ids: seq<nat>, mask: seq<nat>) {
    s.cache.Some? && HasKey(s.cache.value.entries, Key(s.cache.value.setup.artifact, p, ids, mask))
  }

  /** A call is a hit exactly when an entry of its own principal, artifact and tokens is held; it is
      then answered at once, by its head over what the tokens pool to. */
  lemma HitsAreOwn(s: System, j: nat, p: Handle, r: Request, raised: bool)
    requires Reachable(s) && Enabled(s, Begin(j, p, r, raised))
    ensures var t := TakeStep(s, Begin(j, p, r, raised));
      && j in t.jobs
      && (IsHit(t, j) <==> Holds(s, p, r.ids, r.mask))
      && (if t.jobs[j].hit then
            && Pooled(s.config.f, r.ids, r.mask).Some?
            && t.jobs[j].reported == Some(Report(FromCache(s.config.f, r.head, Pooled(s.config.f, r.ids, r.mask).value),
                                                 s.config.perCall, NotRequested, Finished))
          else t.jobs[j].reported.None? && t.jobs[j].phase == Calling)
  {
    ReachableIsSound(s);
    assert s.cache.Some? ==> Faithful(s);
    hide Sound, MemoSound, Pooled, FromCache, Held;
    if Holds(s, p, r.ids, r.mask) {
      BegunWithHit(s, j, p, r, raised);
      var c := s.cache.value;
      var e := c.entries[Position(c.entries, Key(c.setup.artifact, p, r.ids, r.mask))];
      assert e in c.entries;
    } else {
      BegunWithMiss(s, j, p, r, raised);
    }
    hide TakeStep, Faithful;
  }

  lemma BegunWithHit(s: System, j: nat, p: Handle, r: Request, raised: bool)
    requires Enabled(s, Begin(j, p, r, raised)) && Holds(s, p, r.ids, r.mask)
    ensures var t := TakeStep(s, Begin(j, p, r, raised));
      var es := s.cache.value.entries;
      var e := es[Position(es, Key(s.cache.value.setup.artifact, p, r.ids, r.mask))].embedding;
      && j in t.jobs && t.jobs[j].hit
      && t.jobs[j].reported == Some(Report(FromCache(s.config.f, r.head, e), s.config.perCall, NotRequested, Finished))
  {
    hide FromCache, Held;
  }

  lemma BegunWithMiss(s: System, j: nat, p: Handle, r: Request, raised: bool)
    requires Enabled(s, Begin(j, p, r, raised)) && !Holds(s, p, r.ids, r.mask)
    ensures var t := TakeStep(s, Begin(j, p, r, raised));
      j in t.jobs && !t.jobs[j].hit && t.jobs[j].reported.None? && t.jobs[j].phase == Calling
  {
    hide FromCache, ReportOf, Held;
  }

  /** A run that nobody cancelled, whose ticket is current, is remembered: whatever its principal
      asks next with the same tokens is a hit. */
  lemma RunIsRemembered(s: System, w: nat, other: Output, p: Handle, r: Request, done: System, i: nat, head: nat, raised: bool)
    requires Reachable(s) && Enabled(s, Finish(w, other)) && RunsFor(s, w, p, r)
    requires s.cache.Some? && s.workers[w].ticket.Some?
    requires s.workers[w].ticket.value.miss.generation == s.cache.value.generation
    requires Direct(s.config.f, r).Good? && FitsMemo(s.cache.value.setup, Pooled(s.config.f, r.ids, r.mask))
    requires done == TakeStep(s, Finish(w, other)) && Enabled(done, Begin(i, p, Request(head, r.ids, r.mask), raised))
    ensures IsHit(TakeStep(done, Begin(i, p, Request(head, r.ids, r.mask), raised)), i)
  {
    ReachableIsSound(s);
    FinishHolds(s, w, other);
    hide Sound, MemoSound, TakeStep, Enabled, Direct, Pooled, FitsMemo, Holds;
    NextIsReachable(s, Finish(w, other));
    HitsAreOwn(done, i, p, Request(head, r.ids, r.mask), raised);
  }

  predicate IsHit(s: System, i: nat) { i in s.jobs && s.jobs[i].hit }

  /** The worker runs, for the principal, a request that nobody cancelled. */
  predicate RunsFor(s: System, w: nat, p: Handle, r: Request) {
    && w < |s.workers| && s.workers[w].Busy? && s.workers[w].job in s.jobs
    && var job := s.jobs[s.workers[w].job];
    job.principal == p && job.request == r && !job.raised && !job.abandoned
  }

  /** The embedding is one that the cache has room for. */
  predicate FitsMemo(u: Setup, e: Option<Embedding>) {
    && e.Some? && |e.value| == u.hidden && |e.value| > 0 && (forall i | 0 <= i < |e.value| :: e.value[i].Finite?)
    && u.limits.Some? && u.limits.value.maxEntries > 0 && UnitBytes(u) <= u.limits.value.maxBytes
  }

  lemma FinishHolds(s: System, w: nat, other: Output)
    requires MemoSound(s) && Enabled(s, Finish(w, other)) && s.cache.Some?
    requires var job, u := s.jobs[s.workers[w].job], s.cache.value.setup;
      && !job.raised && !job.abandoned && Direct(s.config.f, job.request).Good?
      && s.workers[w].ticket.Some? && s.workers[w].ticket.value.miss.generation == s.cache.value.generation
      && FitsMemo(u, Pooled(s.config.f, job.request.ids, job.request.mask))
    ensures var job := s.jobs[s.workers[w].job];
      Holds(TakeStep(s, Finish(w, other)), job.principal, job.request.ids, job.request.mask)
  {
    var job, ticket := s.jobs[s.workers[w].job], s.workers[w].ticket.value;
    var e := Pooled(s.config.f, job.request.ids, job.request.mask).value;
    assert TicketSound(s, job, ticket);
    FinishShape(s, w, other, Offer(s, job, Some(ticket)));
    OfferAdmits(s, job, ticket, e, Completed);
    OfferedIsHeld(s.cache.value, ticket.miss, e);
    hide TakeStep, Offer, Admit, Direct, Pooled, MemoSound, HasKey;
    assert TakeStep(s, Finish(w, other)).cache == Offer(s, job, Some(ticket)).cache;
  }

  /** Whether it was held already or is now stored, the key is held. */
  lemma OfferedIsHeld<G>(c: Cache<G>, miss: CacheMiss<G>, e: Embedding)
    requires Valid(c) && miss.generation == c.generation && miss.key.artifact == c.setup.artifact
    requires FitsMemo(c.setup, Some(e))
    ensures var d := Admit(c, miss, e, Completed).0; d.setup == c.setup && HasKey(d.entries, miss.key)
  {
    Admitted(c, miss, e, Completed);
    AdmitsExactly(c, miss, e, Completed);
    if Admit(c, miss, e, Completed).1 {
      AdmitIsValid(c, miss, e, Completed);
      var es := Admit(c, miss, e, Completed).0.entries;
      assert es[|es| - 1].key == miss.key;
    }
  }

  lemma NextIsReachable(s: System, step: Step)
    requires Reachable(s) && Enabled(s, step)
    ensures Reachable(TakeStep(s, step))
  {
    hide Enabled, TakeStep, Started;
    var r, steps :| Started(r) && Leads(r, steps, s);
    LeadsOn(r, steps, s, step);
  }

  lemma {:induction false} LeadsOn(r: System, steps: seq<Step>, s: System, step: Step)
    requires Leads(r, steps, s) && Enabled(s, step)
    ensures Leads(r, steps + [step], TakeStep(s, step))
    decreases |steps|
  {
    hide Enabled, TakeStep;
    if steps == [] {
      assert [step][1..] == [];
      assert Leads(TakeStep(s, step), [], TakeStep(s, step));
    } else {
      assert (steps + [step])[1..] == steps[1..] + [step];
      LeadsOn(TakeStep(r, steps[0]), steps[1..], s, step);
    }
  }

  // ------------------------------------------------- from a miss to the next hit

  /** The ticket of an attempt that is not abandoned is with the attempt, or with its worker. */
  predicate Carries(s: System, j: nat, p: Handle, r: Request, ticket: Ticket) {
    && j in s.jobs && s.jobs[j].principal == p && s.jobs[j].request == r
    && s.cache.Some? && s.cache.value.generation == ticket.miss.generation
    && (!s.jobs[j].abandoned ==>
          && (s.jobs[j].phase == Calling || s.jobs[j].phase == Queued ==> s.jobs[j].ticket == Some(ticket))
          && forall w | 0 <= w < |s.workers| && s.workers[w].Busy? && s.workers[w].job == j :: s.workers[w].ticket == Some(ticket))
  }

  predicate Invalidates(step: Step) { step.ClearCache? || step.EraseHandle? }

  lemma CarriedPut(s: System, t: System, i: nat, job: Job, j: nat, p: Handle, r: Request, ticket: Ticket)
    requires Carries(s, j, p, r, ticket) && i in s.jobs
    requires t.jobs == s.jobs[i := job] && t.workers == s.workers && t.cache == s.cache
    requires job.principal == s.jobs[i].principal && job.request == s.jobs[i].request
    requires s.jobs[i].abandoned ==> job.abandoned
    requires !job.abandoned && (job.phase == Calling || job.phase == Queued) ==>
               job.ticket == s.jobs[i].ticket && (s.jobs[i].phase == Calling || s.jobs[i].phase == Queued)
    ensures Carries(t, j, p, r, ticket)
  {}

  lemma CarriedInEnqueue(s: System, i: nat, j: nat, p: Handle, r: Request, ticket: Ticket)
    requires Carries(s, j, p, r, ticket) && Enabled(s, Enqueue(i))
    ensures Carries(TakeStep(s, Enqueue(i)), j, p, r, ticket)
  {
    EnqueueKeeps(s, i);
    hide Carries, TakeStep;
    CarriedPut(s, TakeStep(s, Enqueue(i)), i, TakeStep(s, Enqueue(i)).jobs[i], j, p, r, ticket);
  }

  /** What an attempt keeps when it is taken in or refused. */
  predicate TakenIn(s: System, t: System, i: nat)
    requires i in s.jobs
  {
    && i in t.jobs && t.jobs == s.jobs[i := t.jobs[i]] && t.workers == s.workers && t.cache == s.cache
    && var job := t.jobs[i];
    && job.principal == s.jobs[i].principal && job.request == s.jobs[i].request && job.abandoned == s.jobs[i].abandoned
    && job.started == s.jobs[i].started
    && (if job.phase == Never then t.queue == s.queue
        else job.phase == Queued && job.ticket == s.jobs[i].ticket && t.queue == s.queue + [i])
  }

  lemma EnqueueKeeps(s: System, i: nat)
    requires Enabled(s, Enqueue(i))
    ensures TakenIn(s, TakeStep(s, Enqueue(i)), i)
  {
    EnqueueJobKeeps(s, i);
    hide EnqueueJob, Held;
  }

  lemma EnqueueJobKeeps(s: System, i: nat)
    requires i in s.jobs
    ensures TakenIn(s, EnqueueJob(s, i), i)
  {
    hide ReportOf;
  }

  lemma CarriedInPoll(s: System, i: nat, j: nat, p: Handle, r: Request, ticket: Ticket)
    requires Carries(s, j, p, r, ticket) && Enabled(s, Poll(i))
    ensures Carries(TakeStep(s, Poll(i)), j, p, r, ticket)
  {
    PolledKeeps(s.jobs[i]);
    hide Carries, Retain, Polled, Held;
    CarriedPut(s, TakeStep(s, Poll(i)), i, TakeStep(s, Poll(i)).jobs[i], j, p, r, ticket);
  }

  lemma PolledKeeps(job: Job)
    ensures var k := Polled(job);
      && k.principal == job.principal && k.request == job.request && k.ticket == job.ticket && k.phase == job.phase
      && (job.abandoned ==> k.abandoned)
  {
    PolledIs(job);
    hide Polled, ReportOf, CancelledReport;
  }

  lemma CarriedInDrop(s: System, i: nat, j: nat, p: Handle, r: Request, ticket: Ticket)
    requires Carries(s, j, p, r, ticket) && Enabled(s, Drop(i))
    ensures Carries(TakeStep(s, Drop(i)), j, p, r, ticket)
  {
    hide Carries, Retain, Held;
    CarriedPut(s, TakeStep(s, Drop(i)), i, TakeStep(s, Drop(i)).jobs[i], j, p, r, ticket);
  }

  lemma CarriedInBegin(s: System, step: Step, j: nat, p: Handle, r: Request, ticket: Ticket)
    requires Carries(s, j, p, r, ticket) && Enabled(s, step) && step.Begin?
    ensures Carries(TakeStep(s, step), j, p, r, ticket)
  {
    hide FromCache, ReportOf, Lookup;
    if s.cache.Some? {
      LookedUp(s.cache.value, KeyFor(s.cache.value, step.principal, step.request.ids, step.request.mask));
    }
  }

  lemma CarriedInPick(s: System, step: Step, j: nat, p: Handle, r: Request, ticket: Ticket)
    requires Carries(s, j, p, r, ticket) && Enabled(s, step) && step.Pick? && QueueSound(s.queue, s.jobs)
    ensures Carries(TakeStep(s, step), j, p, r, ticket)
  {
    var w := step.worker;
    if s.shutdown || s.queue == [] {
      hide Held, Distinct;
    } else {
      var i := s.queue[0];
      assert i in s.queue;
      assert s.jobs[i].phase == Queued;
      hide QueueSound;
      if s.jobs[i].raised {
        Steps.PickedRaised(s, w);
      } else {
        Steps.PickedRun(s, w);
      }
      hide TakeStep, Enabled;
    }
  }

  lemma CarriedInFinish(s: System, step: Step, j: nat, p: Handle, r: Request, ticket: Ticket)
    requires Carries(s, j, p, r, ticket) && Enabled(s, step) && step.Finish? && WorkersSound(s.workers, s.jobs)
    ensures Carries(TakeStep(s, step), j, p, r, ticket)
  {
    var job, given := s.jobs[s.workers[step.worker].job], s.workers[step.worker].ticket;
    OfferOnlyCaches(s, job, given);
    OfferKeepsGeneration(s, job, given);
    hide Offer, Direct, Held;
  }

  lemma OfferKeepsGeneration(s: System, job: Job, ticket: Option<Ticket>)
    requires s.cache.Some?
    ensures Offer(s, job, ticket).cache.Some? && Offer(s, job, ticket).cache.value.generation == s.cache.value.generation
  {
    if ticket.Some? {
      var outcome := if job.abandoned || job.raised then RunOutcome.Cancelled else Completed;
      var e := match Pooled(s.config.f, job.request.ids, job.request.mask) case None => [] case Some(e) => e;
      Admitted(s.cache.value, ticket.value.miss, e, outcome);
      OfferAdmits(s, job, ticket.value, e, outcome);
    }
  }

  lemma CarriedInSignal(s: System, step: Step, j: nat, p: Handle, r: Request, ticket: Ticket)
    requires Carries(s, j, p, r, ticket) && Enabled(s, step)
    requires step.Raise? || step.Wake? || step.Notify? || step.Spurious? || step.Shutdown?
    ensures Carries(TakeStep(s, step), j, p, r, ticket)
  {}

  lemma CarriedOn(s: System, step: Step, j: nat, p: Handle, r: Request, ticket: Ticket)
    requires Carries(s, j, p, r, ticket) && Sound(s) && Enabled(s, step) && !Invalidates(step)
    ensures Carries(TakeStep(s, step), j, p, r, ticket)
  {
    assert QueueSound(s.queue, s.jobs) && WorkersSound(s.workers, s.jobs);
    hide Sound, Carries, Enabled, TakeStep, QueueSound, WorkersSound;
    match step
    case Begin(_, _, _, _) => CarriedInBegin(s, step, j, p, r, ticket);
    case Enqueue(i) => CarriedInEnqueue(s, i, j, p, r, ticket);
    case Poll(i) => CarriedInPoll(s, i, j, p, r, ticket);
    case Drop(i) => CarriedInDrop(s, i, j, p, r, ticket);
    case Pick(_) => CarriedInPick(s, step, j, p, r, ticket);
    case Finish(_, _) => CarriedInFinish(s, step, j, p, r, ticket);
    case _ => CarriedInSignal(s, step, j, p, r, ticket);
  }

  lemma {:induction false} CarriedAlong(s: System, steps: seq<Step>, t: System, j: nat, p: Handle, r: Request, ticket: Ticket)
    requires Carries(s, j, p, r, ticket) && Sound(s) && MemoSound(s) && Leads(s, steps, t)
    requires forall i | 0 <= i < |steps| :: !Invalidates(steps[i])
    ensures Carries(t, j, p, r, ticket)
    decreases |steps|
  {
    hide Sound, MemoSound, Carries, Enabled, TakeStep;
    if steps != [] {
      CarriedOn(s, steps[0], j, p, r, ticket);
      StepIsSound(s, steps[0]);
      assert forall i | 0 <= i < |steps[1..]| :: steps[1..][i] == steps[i + 1];
      CarriedAlong(TakeStep(s, steps[0]), steps[1..], t, j, p, r, ticket);
    }
  }

  lemma BegunCarries(s: System, j: nat, p: Handle, r: Request, raised: bool)
    requires Enabled(s, Begin(j, p, r, raised)) && s.cache.Some?
    requires WorkersSound(s.workers, s.jobs) && !TakeStep(s, Begin(j, p, r, raised)).jobs[j].hit
    ensures Carries(TakeStep(s, Begin(j, p, r, raised)), j, p, r,
                    Ticket(CacheMiss(KeyFor(s.cache.value, p, r.ids, r.mask), s.cache.value.generation), s.now))
  {
    hide FromCache, ReportOf;
  }

  /** What a call computes, the next call of its principal with its tokens is spared: after a call
      that missed, a run of it that nobody cancelled, and no invalidation in between, the next
      such call is a hit. */
  lemma NextCallHits(s: System, j: nat, p: Handle, r: Request, begun: System, steps: seq<Step>,
                     t: System, w: nat, other: Output, done: System, i: nat, head: nat, raised: bool)
    requires Reachable(s) && s.cache.Some? && Enabled(s, Begin(j, p, r, false))
    requires begun == TakeStep(s, Begin(j, p, r, false)) && !IsHit(begun, j)
    requires Leads(begun, steps, t) && forall k | 0 <= k < |steps| :: !Invalidates(steps[k])
    requires Enabled(t, Finish(w, other)) && RunsFor(t, w, p, r) && t.workers[w].job == j
    requires t.cache.Some? && Direct(t.config.f, r).Good? && FitsMemo(t.cache.value.setup, Pooled(t.config.f, r.ids, r.mask))
    requires done == TakeStep(t, Finish(w, other)) && Enabled(done, Begin(i, p, Request(head, r.ids, r.mask), raised))
    ensures IsHit(TakeStep(done, Begin(i, p, Request(head, r.ids, r.mask), raised)), i)
  {
    var begin := Begin(j, p, r, false);
    var ticket := Ticket(CacheMiss(KeyFor(s.cache.value, p, r.ids, r.mask), s.cache.value.generation), s.now);
    ReachableIsSound(s);
    assert WorkersSound(s.workers, s.jobs);
    BegunIsThere(s, j, p, r, false);
    BegunCarries(s, j, p, r, false);
    StepIsSound(s, begin);
    hide Sound, MemoSound, TakeStep, Direct, Pooled, FitsMemo, WorkersSound, KeyFor, Carries, Enabled, IsHit;
    CarriedAlong(begun, steps, t, j, p, r, ticket);
    NextIsReachable(s, begin);
    LaterIsReachable(begun, steps, t);
    CarriedToWorker(t, w, j, p, r, ticket);
    hide Leads, RunsFor;
    RunIsRemembered(t, w, other, p, r, done, i, head, raised);
  }

  lemma CarriedToWorker(t: System, w: nat, j: nat, p: Handle, r: Request, ticket: Ticket)
    requires Carries(t, j, p, r, ticket) && RunsFor(t, w, p, r) && t.workers[w].job == j
    ensures t.workers[w].ticket == Some(ticket) && t.cache.value.generation == ticket.miss.generation
  {}

  lemma BegunIsThere(s: System, i: nat, p: Handle, r: Request, raised: bool)
    requires Enabled(s, Begin(i, p, r, raised))
    ensures i in TakeStep(s, Begin(i, p, r, raised)).jobs
  {
    hide FromCache, ReportOf, Lookup;
  }

  lemma {:induction false} LaterIsReachable(s: System, steps: seq<Step>, t: System)
    requires Reachable(s) && Leads(s, steps, t)
    ensures Reachable(t)
    decreases |steps|
  {
    hide Enabled, TakeStep, Reachable;
    if steps != [] {
      NextIsReachable(s, steps[0]);
      LaterIsReachable(TakeStep(s, steps[0]), steps[1..], t);
    }
  }

  // ------------------------------------------------------ first come, first served

  predicate Ahead(q: seq<nat>, i: nat, j: nat) {
    exists a, b :: 0 <= a < b < |q| && q[a] == i && q[b] == j
  }

  /** The attempts were enqueued, and `j` has not started while `i` waits. */
  predicate Behind(s: System, i: nat, j: nat) {
    && i in s.jobs && j in s.jobs && s.jobs[i].phase != Calling && s.jobs[j].phase != Calling
    && (i in s.queue ==> !s.jobs[j].started && (Ahead(s.queue, i, j) || j !in s.queue))
  }

  /** How a step changes who waits and who has started. */
  ghost predicate Queues(s: System, t: System) {
    && (forall k | k in s.jobs && s.jobs[k].phase != Calling :: k in t.jobs && t.jobs[k].phase != Calling)
    && (|| (t.queue == s.queue && NoneStarts(s, t))
        || ((exists k :: k in s.jobs && s.jobs[k].phase == Calling && t.queue == s.queue + [k]) && NoneStarts(s, t))
        || ((exists k :: t.queue == Retain(s.queue, k)) && NoneStarts(s, t))
        || (s.queue != [] && t.queue == s.queue[1..]
            && forall k | k in s.jobs && k in t.jobs && k != s.queue[0] :: t.jobs[k].started == s.jobs[k].started))
  }

  predicate NoneStarts(s: System, t: System) {
    forall k | k in s.jobs && k in t.jobs :: t.jobs[k].started == s.jobs[k].started
  }

  lemma QueuesByPut(s: System, t: System, i: nat, job: Job)
    requires i in s.jobs && t.jobs == s.jobs[i := job]
    requires job.started == s.jobs[i].started && (s.jobs[i].phase != Calling ==> job.phase != Calling)
    requires || t.queue == s.queue
             || (s.jobs[i].phase == Calling && t.queue == s.queue + [i])
             || t.queue == Retain(s.queue, i)
    ensures Queues(s, t)
  {
    hide Retain;
  }

  lemma QueuesSame(s: System, t: System)
    requires t.queue == s.queue
    requires forall k | k in s.jobs :: k in t.jobs && t.jobs[k].started == s.jobs[k].started && t.jobs[k].phase == s.jobs[k].phase
    ensures Queues(s, t)
  {
    hide Retain;
  }

  lemma BeginQueues(s: System, step: Step)
    requires Enabled(s, step) && step.Begin?
    ensures Queues(s, TakeStep(s, step))
  {
    hide FromCache, ReportOf, Lookup, Held, Queues;
    var t := TakeStep(s, step);
    assert t.queue == s.queue && t.jobs == s.jobs[step.job := t.jobs[step.job]];
    QueuesSame(s, t);
  }

  lemma EnqueueQueues(s: System, j: nat)
    requires Enabled(s, Enqueue(j))
    ensures Queues(s, TakeStep(s, Enqueue(j)))
  {
    EnqueueKeeps(s, j);
    hide TakeStep, Queues, Retain;
    QueuesByPut(s, TakeStep(s, Enqueue(j)), j, TakeStep(s, Enqueue(j)).jobs[j]);
  }

  lemma PollQueues(s: System, j: nat)
    requires Enabled(s, Poll(j))
    ensures Queues(s, TakeStep(s, Poll(j)))
  {
    PolledStarts(s.jobs[j]);
    hide Polled, Held, Retain, Queues;
    QueuesByPut(s, TakeStep(s, Poll(j)), j, TakeStep(s, Poll(j)).jobs[j]);
  }

  lemma PolledStarts(job: Job)
    ensures Polled(job).started == job.started && Polled(job).phase == job.phase && Polled(job).raised == job.raised
  {
    PolledIs(job);
    hide Polled, ReportOf, CancelledReport;
  }

  lemma DropQueues(s: System, j: nat)
    requires Enabled(s, Drop(j))
    ensures Queues(s, TakeStep(s, Drop(j)))
  {
    hide Held, Retain, Queues;
    QueuesByPut(s, TakeStep(s, Drop(j)), j, TakeStep(s, Drop(j)).jobs[j]);
  }

  lemma PickQueues(s: System, w: nat)
    requires Enabled(s, Pick(w))
    ensures Queues(s, TakeStep(s, Pick(w)))
  {
    hide Held, Retain;
    if !s.shutdown && s.queue != [] && s.queue[0] in s.jobs {
      if s.jobs[s.queue[0]].raised {
        Steps.PickedRaised(s, w);
      } else {
        Steps.PickedRun(s, w);
      }
      hide TakeStep, Enabled;
    } else {
      hide Queues;
      QueuesSame(s, TakeStep(s, Pick(w)));
    }
  }

  lemma FinishQueues(s: System, w: nat, other: Output)
    requires Enabled(s, Finish(w, other))
    ensures Queues(s, TakeStep(s, Finish(w, other)))
  {
    FinishKeeps(s, w, other);
    hide TakeStep, Queues, Retain, Enabled;
    QueuesByPut(s, TakeStep(s, Finish(w, other)), s.workers[w].job, TakeStep(s, Finish(w, other)).jobs[s.workers[w].job]);
  }

  lemma FinishKeeps(s: System, w: nat, other: Output)
    requires Enabled(s, Finish(w, other))
    ensures var j, t := s.workers[w].job, TakeStep(s, Finish(w, other));
      && j in t.jobs && t.jobs == s.jobs[j := t.jobs[j]] && t.queue == s.queue
      && t.jobs[j].started == s.jobs[j].started && t.jobs[j].phase == Done
  {
    OfferOnlyCaches(s, s.jobs[s.workers[w].job], s.workers[w].ticket);
    hide Held, Offer, Direct;
  }

  lemma SignalQueues(s: System, step: Step)
    requires Enabled(s, step)
    requires step.Raise? || step.Wake? || step.Notify? || step.Spurious? || step.Shutdown? || step.ClearCache? || step.EraseHandle?
    ensures Queues(s, TakeStep(s, step))
  {
    hide Held, Clear, ErasePrincipal, Queues, AllAwake;
    QueuesSame(s, TakeStep(s, step));
  }

  lemma StepQueues(s: System, step: Step)
    requires Enabled(s, step)
    ensures Queues(s, TakeStep(s, step))
  {
    hide Enabled, TakeStep, Queues;
    match step
    case Begin(_, _, _, _) => BeginQueues(s, step);
    case Enqueue(j) => EnqueueQueues(s, j);
    case Poll(j) => PollQueues(s, j);
    case Drop(j) => DropQueues(s, j);
    case Pick(w) => PickQueues(s, w);
    case Finish(w, other) => FinishQueues(s, w, other);
    case _ => SignalQueues(s, step);
  }

  lemma BehindNext(s: System, t: System, i: nat, j: nat)
    requires Behind(s, i, j) && Queues(s, t) && Distinct(s.queue)
    ensures Behind(t, i, j)
  {
    if i in t.queue {
      if t.queue == s.queue && NoneStarts(s, t) {
      } else if k: nat :| k in s.jobs && s.jobs[k].phase == Calling && t.queue == s.queue + [k] {
        AheadAppended(s.queue, i, j, k);
      } else if k: nat :| t.queue == Retain(s.queue, k) && NoneStarts(s, t) {
        Retained(s.queue, k);
        if Ahead(s.queue, i, j) && j != k {
          AheadRetained(s.queue, i, j, k);
        }
      } else {
        AheadRest(s.queue, i, j);
      }
    }
  }

  lemma AheadAppended(q: seq<nat>, i: nat, j: nat, k: nat)
    ensures Ahead(q, i, j) ==> Ahead(q + [k], i, j)
  {
    if Ahead(q, i, j) {
      var a, b :| 0 <= a < b < |q| && q[a] == i && q[b] == j;
      assert (q + [k])[a] == i && (q + [k])[b] == j;
    }
  }

  lemma AheadLater(q: seq<nat>, x: nat, i: nat, j: nat)
    requires Ahead(q, i, j)
    ensures Ahead([x] + q, i, j)
  {
    var a, b :| 0 <= a < b < |q| && q[a] == i && q[b] == j;
    assert ([x] + q)[a + 1] == i && ([x] + q)[b + 1] == j;
  }

  lemma AheadFirst(q: seq<nat>, i: nat, j: nat)
    requires j in q
    ensures Ahead([i] + q, i, j)
  {
    var b :| 0 <= b < |q| && q[b] == j;
    assert ([i] + q)[0] == i && ([i] + q)[b + 1] == j;
  }

  lemma {:induction false} AheadRetained(q: seq<nat>, i: nat, j: nat, k: nat)
    requires Ahead(q, i, j) && i != k && j != k
    ensures Ahead(Retain(q, k), i, j)
  {
    var a, b :| 0 <= a < b < |q| && q[a] == i && q[b] == j;
    var r := Retain(q[1..], k);
    assert q[1..][b - 1] == j;
    if a == 0 {
      Retained(q[1..], k);
      assert j in q[1..];
      AheadFirst(r, i, j);
      assert Retain(q, k) == [i] + r;
    } else {
      assert q[1..][a - 1] == i;
      AheadRetained(q[1..], i, j, k);
      if q[0] != k {
        AheadLater(r, q[0], i, j);
        assert Retain(q, k) == [q[0]] + r;
      } else {
        assert Retain(q, k) == [] + r == r;
      }
    }
  }

  lemma AheadRest(q: seq<nat>, i: nat, j: nat)
    requires Distinct(q) && q != [] && i in q[1..]
    ensures Ahead(q, i, j) ==> Ahead(q[1..], i, j) && j != q[0]
  {
    if Ahead(q, i, j) {
      var a, b :| 0 <= a < b < |q| && q[a] == i && q[b] == j;
      var c :| 0 <= c < |q[1..]| && q[1..][c] == i;
      assert q[c + 1] == i && a == c + 1;
      assert q[1..][a - 1] == i && q[1..][b - 1] == j;
    }
  }

  lemma {:induction false} BehindAlong(s: System, steps: seq<Step>, t: System, i: nat, j: nat)
    requires Sound(s) && MemoSound(s) && Leads(s, steps, t) && Behind(s, i, j)
    ensures Behind(t, i, j)
    decreases |steps|
  {
    if steps != [] {
      assert Distinct(s.queue);
      hide Sound, MemoSound, Enabled, TakeStep, Behind, Queues;
      StepQueues(s, steps[0]);
      StepIsSound(s, steps[0]);
      BehindNext(s, TakeStep(s, steps[0]), i, j);
      BehindAlong(TakeStep(s, steps[0]), steps[1..], t, i, j);
    }
  }

  /** First come, first served: of two attempts that wait, the later never starts while the earlier
      still waits, in any continuation. */
  lemma FirstComeFirstServed(s: System, a: nat, b: nat, steps: seq<Step>, t: System)
    requires Reachable(s) && a < b < |s.queue| && Leads(s, steps, t)
    requires s.queue[a] in t.queue
    ensures s.queue[b] in t.jobs && !t.jobs[s.queue[b]].started && !RunsJob(t.workers, s.queue[b])
  {
    var i, j := s.queue[a], s.queue[b];
    ReachableIsSound(s);
    assert i in s.queue && j in s.queue && Coherent(s.config, s.jobs[j]);
    assert Ahead(s.queue, i, j);
    assert Behind(s, i, j);
    BehindAlong(s, steps, t, i, j);
    LeadsIsSound(s, steps, t);
    assert Coherent(t.config, t.jobs[j]);
  }

  // -------------------------------------------------------- cancelled before a run

  /** The attempt's signal was raised and no worker has started it. */
  predicate Spared(s: System, j: nat) { j in s.jobs && s.jobs[j].raised && !s.jobs[j].started }

  lemma SparedByPut(s: System, t: System, i: nat, j: nat)
    requires Spared(s, j) && i in t.jobs && t.jobs == s.jobs[i := t.jobs[i]]
    requires i == j ==> t.jobs[i].raised && !t.jobs[i].started
    ensures Spared(t, j)
  {}

  lemma SparedInBegin(s: System, step: Step, j: nat)
    requires Spared(s, j) && Enabled(s, step) && step.Begin?
    ensures Spared(TakeStep(s, step), j)
  {
    hide FromCache, ReportOf, Lookup, Held;
    SparedByPut(s, TakeStep(s, step), step.job, j);
  }

  lemma SparedInEnqueue(s: System, i: nat, j: nat)
    requires Spared(s, j) && Enabled(s, Enqueue(i))
    ensures Spared(TakeStep(s, Enqueue(i)), j)
  {
    EnqueueIsRaised(s, i);
    hide EnqueueJob, Held;
    SparedByPut(s, TakeStep(s, Enqueue(i)), i, j);
  }

  lemma SparedInPoll(s: System, i: nat, j: nat)
    requires Spared(s, j) && Enabled(s, Poll(i))
    ensures Spared(TakeStep(s, Poll(i)), j)
  {
    PolledStarts(s.jobs[i]);
    hide Polled, Retain, Held;
    SparedByPut(s, TakeStep(s, Poll(i)), i, j);
  }

  lemma SparedInDrop(s: System, i: nat, j: nat)
    requires Spared(s, j) && Enabled(s, Drop(i))
    ensures Spared(TakeStep(s, Drop(i)), j)
  {
    hide Retain, Held;
    SparedByPut(s, TakeStep(s, Drop(i)), i, j);
  }

  lemma SparedInSignal(s: System, step: Step, j: nat)
    requires Spared(s, j) && Enabled(s, step)
    requires step.Raise? || step.Wake? || step.Notify? || step.Spurious? || step.Shutdown? || step.ClearCache? || step.EraseHandle?
    ensures Spared(TakeStep(s, step), j)
  {
    hide Held, Clear, ErasePrincipal, AllAwake;
  }

  lemma EnqueueIsRaised(s: System, i: nat)
    requires i in s.jobs
    ensures var t := EnqueueJob(s, i);
      && i in t.jobs && t.jobs == s.jobs[i := t.jobs[i]]
      && t.jobs[i].raised == s.jobs[i].raised && t.jobs[i].started == s.jobs[i].started
  {
    hide ReportOf;
  }

  lemma SparedInPick(s: System, w: nat, j: nat)
    requires Spared(s, j) && Enabled(s, Pick(w)) && QueueSound(s.queue, s.jobs)
    ensures Spared(TakeStep(s, Pick(w)), j)
  {
    if !s.shutdown && s.queue != [] {
      assert s.queue[0] in s.queue;
      hide QueueSound;
      if s.jobs[s.queue[0]].raised {
        Steps.PickedRaised(s, w);
      } else {
        Steps.PickedRun(s, w);
      }
      hide TakeStep, Enabled;
    }
  }

  lemma SparedInFinish(s: System, w: nat, other: Output, j: nat)
    requires Spared(s, j) && Enabled(s, Finish(w, other))
    ensures Spared(TakeStep(s, Finish(w, other)), j)
  {
    OfferOnlyCaches(s, s.jobs[s.workers[w].job], s.workers[w].ticket);
    hide Offer, Direct, Held;
  }

  lemma SparedOn(s: System, step: Step, j: nat)
    requires Spared(s, j) && Sound(s) && Enabled(s, step)
    ensures Spared(TakeStep(s, step), j)
  {
    assert QueueSound(s.queue, s.jobs);
    hide Sound, QueueSound, Enabled, TakeStep, Spared;
    match step
    case Begin(_, _, _, _) => SparedInBegin(s, step, j);
    case Enqueue(i) => SparedInEnqueue(s, i, j);
    case Poll(i) => SparedInPoll(s, i, j);
    case Drop(i) => SparedInDrop(s, i, j);
    case Pick(w) => SparedInPick(s, w, j);
    case Finish(w, other) => SparedInFinish(s, w, other, j);
    case _ => SparedInSignal(s, step, j);
  }

  lemma {:induction false} SparedAlong(s: System, steps: seq<Step>, t: System, j: nat)
    requires Sound(s) && MemoSound(s) && Leads(s, steps, t) && Spared(s, j)
    ensures Spared(t, j)
    decreases |steps|
  {
    hide Sound, MemoSound, Enabled, TakeStep, Spared;
    if steps != [] {
      SparedOn(s, steps[0], j);
      StepIsSound(s, steps[0]);
      SparedAlong(TakeStep(s, steps[0]), steps[1..], t, j);
    }
  }

  /** An attempt whose signal is raised before a worker starts it never starts, and it is charged
      nothing, unless a hit spared it the queue. */
  lemma RaisedNeverStarts(s: System, j: nat, steps: seq<Step>, t: System)
    requires Reachable(s) && j in s.jobs && s.jobs[j].raised && !s.jobs[j].started && Leads(s, steps, t)
    ensures j in t.jobs && !t.jobs[j].started && !RunsJob(t.workers, j)
    ensures t.jobs[j].reported.Some? && t.jobs[j].phase != Never ==> t.jobs[j].reported.value.units == 0
  {
    ReachableIsSound(s);
    SparedAlong(s, steps, t, j);
    LeadsIsSound(s, steps, t);
    assert Coherent(t.config, t.jobs[j]);
  }

  /** The end of a run that was cancelled or abandoned leaves the cache as it was. */
  lemma CancelledRunIsForgotten(s: System, w: nat, other: Output)
    requires Enabled(s, Finish(w, other))
    requires s.jobs[s.workers[w].job].raised || s.jobs[s.workers[w].job].abandoned
    ensures TakeStep(s, Finish(w, other)).cache == s.cache && TakeStep(s, Finish(w, other)).born == s.born
  {
    var job, ticket := s.jobs[s.workers[w].job], s.workers[w].ticket;
    OfferOnlyCaches(s, job, ticket);
    hide Direct, Pooled, Held;
  }

  // ------------------------------------------------------------------- shutdown

  /** Once the pool shuts down no worker waits. */
  predicate NoneWaits(s: System) { s.shutdown ==> !AnyWaiting(s.workers) }

  lemma NoneWaitsSet(s: System, t: System, w: nat)
    requires NoneWaits(s) && t.shutdown == s.shutdown && w < |s.workers| == |t.workers|
    requires t.workers == s.workers[w := t.workers[w]] && (s.shutdown ==> !t.workers[w].Waiting?)
    ensures NoneWaits(t)
  {}

  lemma NoneWaitsAlike(s: System, t: System)
    requires NoneWaits(s) && t.shutdown == s.shutdown && t.workers == s.workers
    ensures NoneWaits(t)
  {}

  lemma NoneWaitsInBegin(s: System, step: Step)
    requires NoneWaits(s) && Enabled(s, step) && step.Begin?
    ensures NoneWaits(TakeStep(s, step))
  {
    hide FromCache, ReportOf, Lookup, Held, NoneWaits;
    NoneWaitsAlike(s, TakeStep(s, step));
  }

  lemma NoneWaitsInCall(s: System, step: Step)
    requires NoneWaits(s) && Enabled(s, step)
    requires step.Enqueue? || step.Poll? || step.Drop? || step.Raise? || step.ClearCache? || step.EraseHandle?
    ensures NoneWaits(TakeStep(s, step))
  {
    hide ReportOf, Held, Polled, Retain, Clear, ErasePrincipal, NoneWaits;
    NoneWaitsAlike(s, TakeStep(s, step));
  }

  lemma NoneWaitsInPick(s: System, w: nat)
    requires NoneWaits(s) && Enabled(s, Pick(w))
    ensures NoneWaits(TakeStep(s, Pick(w)))
  {
    hide NoneWaits, Held;
    if !s.shutdown && s.queue != [] && s.queue[0] in s.jobs {
      if s.jobs[s.queue[0]].raised {
        Steps.PickedRaised(s, w);
      } else {
        Steps.PickedRun(s, w);
      }
      hide TakeStep, Enabled;
      NoneWaitsSet(s, TakeStep(s, Pick(w)), w);
    } else {
      NoneWaitsSet(s, TakeStep(s, Pick(w)), w);
    }
  }

  lemma NoneWaitsInFinish(s: System, w: nat, other: Output)
    requires NoneWaits(s) && Enabled(s, Finish(w, other))
    ensures NoneWaits(TakeStep(s, Finish(w, other)))
  {
    OfferOnlyCaches(s, s.jobs[s.workers[w].job], s.workers[w].ticket);
    hide Offer, Direct, Held, NoneWaits;
    NoneWaitsSet(s, TakeStep(s, Finish(w, other)), w);
  }

  lemma NoneWaitsOn(s: System, step: Step)
    requires NoneWaits(s) && Enabled(s, step)
    ensures NoneWaits(TakeStep(s, step))
  {
    match step
    case Pick(w) => NoneWaitsInPick(s, w);
    case Finish(w, other) => NoneWaitsInFinish(s, w, other);
    case Notify(_) =>
    case Wake(w) => NoneWaitsSet(s, TakeStep(s, step), w);
    case Spurious(w) => NoneWaitsSet(s, TakeStep(s, step), w);
    case Shutdown =>
    case Begin(_, _, _, _) => NoneWaitsInBegin(s, step);
    case _ => NoneWaitsInCall(s, step);
  }

  lemma {:induction false} NoneWaitsAlong(s: System, steps: seq<Step>, t: System)
    requires Leads(s, steps, t) && NoneWaits(s)
    ensures NoneWaits(t)
    decreases |steps|
  {
    hide Enabled, TakeStep, NoneWaits;
    if steps != [] {
      NoneWaitsOn(s, steps[0]);
      NoneWaitsAlong(TakeStep(s, steps[0]), steps[1..], t);
    }
  }

  /** A shutdown leaves no worker behind: none waits, and the next time one that does not run
      takes the lock, it exits. */
  lemma ShutdownReleases(s: System, w: nat)
    requires Reachable(s) && s.shutdown && w < |s.workers|
    ensures !s.workers[w].Waiting?
    ensures s.workers[w].Awake? ==> TakeStep(s, Pick(w)).workers[w].Exited?
    ensures s.workers[w].Waking? ==> TakeStep(s, Wake(w)).workers[w].Awake?
    ensures s.workers[w].Busy? && s.workers[w].job in s.jobs ==>
              forall other :: var v := TakeStep(s, Finish(w, other)).workers[w]; v.Awake? || v.Waking?
  {
    var r, steps :| Started(r) && Leads(r, steps, s);
    NoneWaitsAlong(r, steps, s);
    hide Leads, Started;
    if s.workers[w].Busy? && s.workers[w].job in s.jobs {
      OfferOnlyCaches(s, s.jobs[s.workers[w].job], s.workers[w].ticket);
    }
    hide Offer, Direct, Held;
  }
}
