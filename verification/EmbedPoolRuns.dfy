/** What holds over every run of the pool, however its steps interleave
    (backends/rustev-backend-embed-linear/src/backend.rs, cache.rs). */
module EmbedPoolRuns {
  import opened Wrappers
  import opened EmbedCache
  import opened EmbedPool
  import opened EmbedPoolSafety
  import opened EmbedPoolMemo
  import Steps = EmbedPoolSteps

  /** A backend that was just started: idle workers and, perhaps, an empty cache. */
  predicate Started(s: System) {
    && s.queue == [] && s.running == 0 && !s.shutdown && s.jobs == map[] && s.notifies == 0
    && (forall w | 0 <= w < |s.workers| :: s.workers[w].Awake?)
    && 1 <= |s.workers| <= s.config.capacity
    && (s.cache.Some? ==> s.cache.value.entries == [] && s.cache.value.stats.bytes == 0)
    && s.cleared == 0 && s.erased == map[] && s.invalidated == 0 && s.now == 1
  }

  /** `steps` lead from `s` to `t`. */
  ghost predicate Leads(s: System, steps: seq<Step>, t: System)
    decreases |steps|
  {
    if steps == [] then s == t
    else Enabled(s, steps[0]) && Leads(TakeStep(s, steps[0]), steps[1..], t)
  }

  ghost predicate Reachable(t: System) {
    exists s, steps :: Started(s) && Leads(s, steps, t)
  }

  // ---------------------------------------------------------------- every state

  lemma StartIsSound(s: System)
    requires Started(s)
    ensures Sound(s) && MemoSound(s)
  {
    NoneBusy(s.workers);
  }

  lemma {:induction false} NoneBusy(ws: seq<Worker>)
    requires forall w | 0 <= w < |ws| :: ws[w].Awake?
    ensures Tally(ws, IsBusy) == 0
  {
    if ws != [] {
      NoneBusy(ws[1..]);
    }
  }

  lemma StepIsSound(s: System, step: Step)
    requires Sound(s) && MemoSound(s) && Enabled(s, step)
    ensures Sound(TakeStep(s, step)) && MemoSound(TakeStep(s, step))
  {
    assert WorkersSound(s.workers, s.jobs) && Faithful(s);
    hide Sound, MemoSound, Enabled, TakeStep, WorkersSound, Faithful;
    MemoStep(s, step);
    match step
    case Begin(j, p, r, raised) => Steps.BeginIsSound(s, j, p, r, raised);
    case Enqueue(j) => Steps.EnqueueIsSound(s, j);
    case Notify(w) => Steps.NotifyIsSound(s, w);
    case Poll(j) => Steps.PollIsSound(s, j);
    case Drop(j) => Steps.DropIsSound(s, j);
    case Raise(j) => Steps.RaiseIsSound(s, j);
    case Pick(w) => Steps.PickIsSound(s, w);
    case Finish(w, other) => Steps.FinishIsSound(s, w, other);
    case Wake(w) => Steps.WakeIsSound(s, w);
    case Spurious(w) => Steps.SpuriousIsSound(s, w);
    case ClearCache(_) => Steps.InvalidateIsSound(s, step);
    case EraseHandle(_, _) => Steps.InvalidateIsSound(s, step);
    case Shutdown => Steps.ShutdownIsSound(s);
  }

  lemma {:induction false} LeadsIsSound(s: System, steps: seq<Step>, t: System)
    requires Sound(s) && MemoSound(s) && Leads(s, steps, t)
    ensures Sound(t) && MemoSound(t)
    decreases |steps|
  {
    hide Sound, MemoSound, Enabled, TakeStep;
    if steps != [] {
      StepIsSound(s, steps[0]);
      LeadsIsSound(TakeStep(s, steps[0]), steps[1..], t);
    }
  }

  /** Every reachable state keeps every invariant. */
  lemma ReachableIsSound(t: System)
    requires Reachable(t)
    ensures Sound(t) && MemoSound(t)
  {
    var s, steps :| Started(s) && Leads(s, steps, t);
    StartIsSound(s);
    LeadsIsSound(s, steps, t);
  }

  // ------------------------------------------------------- slots and wakeups

  /** Slots are conserved: at most `capacity` jobs are queued or running, the running ones are
      those that workers hold, and no job is held twice or both held and queued. */
  lemma SlotsAreConserved(s: System)
    requires Reachable(s)
    ensures s.running + |s.queue| <= s.config.capacity
    ensures s.running == Tally(s.workers, IsBusy) <= |s.workers|
    ensures forall v, w | 0 <= v < w < |s.workers| && s.workers[v].Busy? && s.workers[w].Busy? ::
              s.workers[v].job != s.workers[w].job
    ensures Distinct(s.queue) && forall j | j in s.queue :: j in s.jobs && !s.jobs[j].started && !RunsJob(s.workers, j)
  {
    ReachableIsSound(s);
    TallyAtMost(s.workers, IsBusy);
    forall j | j in s.queue ensures j in s.jobs && !s.jobs[j].started && !RunsJob(s.workers, j) {
      assert Coherent(s.config, s.jobs[j]);
    }
  }

  /** No wakeup is lost. A queued job is looked for: a notification is under way, or some worker
      neither waits nor has exited. A future that sleeps on a finished job is about to be woken. */
  lemma NoWakeupIsLost(s: System)
    requires Reachable(s)
    ensures !s.shutdown && s.queue != [] ==>
              s.notifies > 0 || exists w | 0 <= w < |s.workers| :: !s.workers[w].Waiting? && !s.workers[w].Exited?
    ensures !s.shutdown && AnyWaiting(s.workers) ==> |s.queue| <= s.notifies + Tally(s.workers, IsReady)
    ensures forall j | j in s.jobs && Sleeps(s.jobs[j]) ::
              if s.jobs[j].phase == Done then WakesJob(s.workers, j) else s.jobs[j].waker
    ensures forall j | j in s.jobs && s.jobs[j].phase == Done && Pending(s.jobs[j]) :: s.jobs[j].result.Some?
  {
    ReachableIsSound(s);
    forall j | j in s.jobs
      ensures Sleeps(s.jobs[j]) ==> if s.jobs[j].phase == Done then WakesJob(s.workers, j) else s.jobs[j].waker
      ensures s.jobs[j].phase == Done && Pending(s.jobs[j]) ==> s.jobs[j].result.Some?
    {
      assert Coherent(s.config, s.jobs[j]) && Placed(j, s.jobs[j], s.queue, s.workers);
    }
    if !s.shutdown && s.queue != [] && s.notifies == 0 {
      if s.workers[0].Waiting? {
        TallySome(s.workers, IsReady);
        var w :| 0 <= w < |s.workers| && IsReady(s.workers[w]);
        assert !s.workers[w].Waiting? && !s.workers[w].Exited?;
      } else {
        assert !s.workers[0].Waiting? && !s.workers[0].Exited?;
      }
    }
  }

  // ------------------------------------------------------ honest cancellation

  /** A job's report, once made, is the last. */
  predicate Reported(s: System, j: nat, r: Report) { j in s.jobs && s.jobs[j].reported == Some(r) }

  lemma ReportStaysInCall(s: System, step: Step, j: nat, r: Report)
    requires Reported(s, j, r) && Coherent(s.config, s.jobs[j])
    requires Enabled(s, step) && (step.Enqueue? || step.Poll? || step.Drop?)
    ensures Reported(TakeStep(s, step), j, r)
  {
    hide Retain, Honest, ReportOf, CancelledReport, Direct, Polled;
  }

  lemma ReportStaysInBegin(s: System, i: nat, p: Handle, q: Request, raised: bool, j: nat, r: Report)
    requires Reported(s, j, r) && Enabled(s, Begin(i, p, q, raised))
    ensures Reported(TakeStep(s, Begin(i, p, q, raised)), j, r)
  {
    hide Lookup, FromCache, ReportOf;
  }

  lemma ReportStaysInPick(s: System, w: nat, j: nat, r: Report)
    requires Reported(s, j, r) && Enabled(s, Pick(w))
    ensures Reported(TakeStep(s, Pick(w)), j, r)
  {}

  lemma ReportStaysInFinish(s: System, w: nat, other: Output, j: nat, r: Report)
    requires Reported(s, j, r) && Enabled(s, Finish(w, other))
    ensures Reported(TakeStep(s, Finish(w, other)), j, r)
  {
    OfferOnlyCaches(s, s.jobs[s.workers[w].job], s.workers[w].ticket);
    hide Offer, Direct, Held;
  }

  lemma ReportStaysInSignal(s: System, step: Step, j: nat, r: Report)
    requires Reported(s, j, r) && Enabled(s, step)
    requires step.Raise? || step.Wake? || step.Notify? || step.Spurious? || step.Shutdown? || step.ClearCache? || step.EraseHandle?
    ensures Reported(TakeStep(s, step), j, r)
  {
    hide Held, Clear, ErasePrincipal;
  }

  lemma ReportStays(s: System, step: Step, j: nat)
    requires Sound(s) && Enabled(s, step) && j in s.jobs && s.jobs[j].reported.Some?
    ensures Reported(TakeStep(s, step), j, s.jobs[j].reported.value)
  {
    assert Coherent(s.config, s.jobs[j]);
    hide Sound, Coherent, Enabled, TakeStep;
    var r := s.jobs[j].reported.value;
    match step
    case Begin(i, p, q, raised) => ReportStaysInBegin(s, i, p, q, raised, j, r);
    case Enqueue(_) => ReportStaysInCall(s, step, j, r);
    case Poll(_) => ReportStaysInCall(s, step, j, r);
    case Drop(_) => ReportStaysInCall(s, step, j, r);
    case Pick(w) => ReportStaysInPick(s, w, j, r);
    case Finish(w, other) => ReportStaysInFinish(s, w, other, j, r);
    case _ => ReportStaysInSignal(s, step, j, r);
  }

  lemma {:induction false} ReportsStay(s: System, steps: seq<Step>, t: System, j: nat)
    requires Sound(s) && MemoSound(s) && Leads(s, steps, t) && j in s.jobs && s.jobs[j].reported.Some?
    ensures j in t.jobs && t.jobs[j].reported == s.jobs[j].reported
    decreases |steps|
  {
    hide Sound, MemoSound, Enabled, TakeStep;
    if steps != [] {
      ReportStays(s, steps[0], j);
      StepIsSound(s, steps[0]);
      ReportsStay(TakeStep(s, steps[0]), steps[1..], t, j);
    }
  }

  /** Honest cancellation. An attempt that was once reported as finished, in particular one
      acknowledged as `Stopped`, is never run by a worker nor queued again, in any continuation. */
  lemma StoppedStaysStopped(s: System, steps: seq<Step>, t: System, j: nat)
    requires Reachable(s) && Leads(s, steps, t)
    requires j in s.jobs && s.jobs[j].reported.Some?
    requires s.jobs[j].reported.value.cancel == Stopped || s.jobs[j].reported.value.remote == Finished
    ensures j in t.jobs && t.jobs[j].reported == s.jobs[j].reported
    ensures !RunsJob(t.workers, j) && j !in t.queue
  {
    ReachableIsSound(s);
    ReportsStay(s, steps, t, j);
    LeadsIsSound(s, steps, t);
    assert Coherent(t.config, t.jobs[j]);
  }

  lemma PolledReport(job: Job)
    ensures Polled(job).reported ==
              if job.result.Some? then
                Some(ReportOf(job.result.value, if job.hasRequest then 0 else job.units, job.raised))
              else if job.raised then Some(CancelledReport(if job.phase == Running then job.units else 0, job.phase == Running))
              else job.reported
  {
    hide ReportOf, CancelledReport;
  }

  lemma PollSays(job: Job)
    requires job.reported.None? && (job.result.Some? ==> job.phase == Done)
    ensures Polled(job).reported.Some? ==>
              var r := Polled(job).reported.value;
              && (r.cancel == Unconfirmed <==> job.phase == Running)
              && (r.remote == PossiblyContinuing <==> job.phase == Running)
  {
    PolledReport(job);
    hide Polled;
  }

  /** A poll that reports says whether the run continues: unconfirmed exactly while a worker
      holds the job. */
  lemma UnconfirmedWhileRunning(s: System, j: nat)
    requires Reachable(s) && Enabled(s, Poll(j))
    ensures var t := TakeStep(s, Poll(j));
      t.jobs[j].reported.Some? ==>
        var r := t.jobs[j].reported.value;
        (r.cancel == Unconfirmed <==> RunsJob(t.workers, j)) && (r.remote == PossiblyContinuing <==> RunsJob(t.workers, j))
  {
    ReachableIsSound(s);
    HeldWhileRunning(s, j);
    hide Sound, MemoSound, RunsJob, Polled, Retain, Held, Reachable;
    PollSays(s.jobs[j]);
  }

  lemma HeldWhileRunning(s: System, j: nat)
    requires Sound(s) && j in s.jobs
    ensures RunsJob(s.workers, j) <==> s.jobs[j].phase == Running
    ensures s.jobs[j].result.Some? ==> s.jobs[j].phase == Done
  {
    assert Coherent(s.config, s.jobs[j]) && Placed(j, s.jobs[j], s.queue, s.workers);
    hide Honest, Direct, SlotsSound, NoneForgotten, QueueSound;
  }

  /** What an attempt is charged: the per-call part for a hit, all of it for a run that started,
      nothing otherwise. */
  lemma ChargesAreExact(s: System, j: nat)
    requires Reachable(s) && j in s.jobs && s.jobs[j].reported.Some?
    ensures s.jobs[j].reported.value.units == Charge(s.config, s.jobs[j])
  {
    ReachableIsSound(s);
    assert Coherent(s.config, s.jobs[j]);
  }

  // -------------------------------------------------------------- transparency

  /** The cache is transparent: an attempt that was neither cancelled nor refused as overloaded
      reports what the pipeline yields for its request, whatever the cache held. */
  lemma AnswersAreDirect(s: System, j: nat)
    requires Reachable(s) && j in s.jobs && s.jobs[j].reported.Some?
    requires s.jobs[j].reported.value.cancel == NotRequested
    requires s.jobs[j].reported.value.result.Bad? ==> s.jobs[j].reported.value.result.failure != Overloaded
    ensures SameAnswer(s.jobs[j].reported.value.result, Direct(s.config.f, s.jobs[j].request))
  {
    ReachableIsSound(s);
    assert Coherent(s.config, s.jobs[j]);
  }

  /** Two backends of one pipeline, with or without caches, give one request one answer. */
  lemma CacheIsTransparent(s: System, j: nat, t: System, i: nat)
    requires Reachable(s) && j in s.jobs && s.jobs[j].reported.Some? && Reachable(t) && i in t.jobs && t.jobs[i].reported.Some?
    requires s.config.f == t.config.f && s.jobs[j].request == t.jobs[i].request
    requires s.jobs[j].reported.value.cancel == NotRequested && t.jobs[i].reported.value.cancel == NotRequested
    requires s.jobs[j].reported.value.result.Bad? ==> s.jobs[j].reported.value.result.failure != Overloaded
    requires t.jobs[i].reported.value.result.Bad? ==> t.jobs[i].reported.value.result.failure != Overloaded
    ensures SameAnswer(s.jobs[j].reported.value.result, t.jobs[i].reported.value.result)
  {
    AnswersAreDirect(s, j);
    AnswersAreDirect(t, i);
  }

  // ------------------------------------------------------------------- erasure

  /** Times only advance. */
  predicate After(s: System, t: System) {
    && s.cleared <= t.cleared
    && (forall p | p in s.erased :: p in t.erased && s.erased[p] <= t.erased[p])
  }

  lemma StepIsAfter(s: System, step: Step)
    requires Enabled(s, step) && TimesSound(s)
    ensures After(s, TakeStep(s, step))
  {
    if CacheAlone(step) {
      hide Enabled, TakeStep;
      AloneMoves(s, step);
    } else if step.Finish? {
      var job := s.jobs[s.workers[step.worker].job];
      var output := if job.raised then step.other else Direct(s.config.f, job.request);
      FinishShape(s, step.worker, step.other, if output.Good? then Offer(s, job, s.workers[step.worker].ticket) else s);
      hide Enabled, TakeStep;
    } else {
      hide Held, Lookup, ErasePrincipal, Clear;
    }
  }

  lemma {:induction false} LeadsAfter(s: System, steps: seq<Step>, t: System)
    requires Sound(s) && MemoSound(s) && Leads(s, steps, t)
    ensures After(s, t)
    decreases |steps|
  {
    if steps != [] {
      assert TimesSound(s);
      hide Sound, MemoSound, Enabled, TakeStep;
      StepIsAfter(s, steps[0]);
      StepIsSound(s, steps[0]);
      LeadsAfter(TakeStep(s, steps[0]), steps[1..], t);
    }
  }

  /** Erasure over whole runs: after `erase_principal(p)` returned, every entry of `p` comes from a
      ticket issued later, whichever runs were still finishing. */
  lemma ErasureLasts(s: System, p: Handle, a: Addr, steps: seq<Step>, t: System)
    requires Reachable(s) && Enabled(s, EraseHandle(p, a)) && Leads(TakeStep(s, EraseHandle(p, a)), steps, t)
    requires t.cache.Some?
    ensures forall e | e in t.cache.value.entries && e.key.principal == p :: e.key in t.born && s.now < t.born[e.key]
  {
    ReachableIsSound(s);
    hide Sound, ErasePrincipal;
    StepIsSound(s, EraseHandle(p, a));
    LeadsIsSound(TakeStep(s, EraseHandle(p, a)), steps, t);
    LeadsAfter(TakeStep(s, EraseHandle(p, a)), steps, t);
    hide Leads;
    forall e | e in t.cache.value.entries && e.key.principal == p ensures e.key in t.born && s.now < t.born[e.key] {
      assert BornSince(t, e);
    }
  }

  /** After `clear` returned, every entry comes from a ticket issued later. */
  lemma ClearingLasts(s: System, a: Addr, steps: seq<Step>, t: System)
    requires Reachable(s) && Enabled(s, ClearCache(a)) && Leads(TakeStep(s, ClearCache(a)), steps, t)
    requires t.cache.Some?
    ensures forall e | e in t.cache.value.entries :: e.key in t.born && s.now < t.born[e.key]
  {
    ReachableIsSound(s);
    hide Sound;
    StepIsSound(s, ClearCache(a));
    LeadsIsSound(TakeStep(s, ClearCache(a)), steps, t);
    LeadsAfter(TakeStep(s, ClearCache(a)), steps, t);
    hide Leads;
    forall e | e in t.cache.value.entries ensures e.key in t.born && s.now < t.born[e.key] {
      assert BornSince(t, e);
    }
  }
}
