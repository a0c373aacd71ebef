/** The pool as its critical sections update it, field by field; each section is proved to be
    one step of the transition system in `EmbedPool`
    (backends/rustev-backend-embed-linear/src/backend.rs:268-303, 345-468). */
module EmbedPoolObject {
  import opened Wrappers
  import opened EmbedCache
  import opened EmbedPool

  class Pool {
    const config: Config
    var queue: seq<nat>
    var running: nat
    var shutdown: bool
    var jobs: map<nat, Job>
    var workers: seq<Worker>
    var notifies: nat
    var cache: Option<Cache<Addr>>
    // History: the step count, and the times of issues and invalidations.
    var now: nat
    var cleared: nat
    var erased: map<Handle, nat>
    var invalidated: nat
    var born: map<Key, nat>

    constructor (config: Config, count: nat, cache: Option<Cache<Addr>>)
      ensures View() == System(config, [], 0, false, map[], seq(count, _ => Awake), 0, cache, 1, 0, map[], 0, map[])
    {
      this.config, queue, running, shutdown, jobs := config, [], 0, false, map[];
      workers, notifies, this.cache := seq(count, _ => Awake), 0, cache;
      now, cleared, erased, invalidated, born := 1, 0, map[], 0, map[];
    }

    function View(): System
      reads this
    { System(config, queue, running, shutdown, jobs, workers, notifies, cache, now, cleared, erased, invalidated, born) }

    /** `infer` at the queue, under the pool's lock. */
    method Enqueue(j: nat) returns (accepted: bool)
      requires j in jobs
      modifies this`queue, this`jobs, this`notifies
      ensures View() == EnqueueJob(old(View()), j)
      ensures accepted <==> old(running + |queue|) != config.capacity
    {
      var job := jobs[j];
      if running + |queue| == config.capacity {
        var refusal := ReportOf(Bad(Overloaded, "embed:queue_full:workers"), 0, false);
        jobs := jobs[j := job.(phase := Never, ticket := None, reported := Some(refusal))];
        return false;
      }
      jobs := jobs[j := job.(phase := Queued)];
      queue := queue + [j];
      notifies := notifies + 1;
      return true;
    }

    /** Takes `j` out of the queue, wherever it is. */
    method Unqueue(j: nat)
      modifies this`queue
      ensures queue == Retain(old(queue), j)
    {
      var kept: seq<nat> := [];
      for i := 0 to |queue|
        invariant queue == old(queue) && kept == Retain(queue[..i], j)
      {
        RetainStep(queue, i, j);
        if queue[i] != j {
          kept := kept + [queue[i]];
        }
      }
      assert queue[..|queue|] == queue;
      queue := kept;
    }

    /** `Pending::poll`: the result, a cancellation, or a waker to be woken by. */
    method Poll(j: nat) returns (report: Option<Report>)
      requires j in jobs && Pending(jobs[j])
      modifies this`queue, this`jobs
      ensures View() == PollJob(old(View()), j)
      ensures report == jobs[j].reported && (report.None? ==> jobs[j].waker)
    {
      assert jobs[j].reported.None?;
      PolledIs(jobs[j]);
      hide Polled, ReportOf, CancelledReport, Retain, Pending;
      var job := jobs[j];
      if job.result.Some? {
        report := Some(ReportOf(job.result.value, if job.hasRequest then 0 else job.units, job.raised));
        jobs := jobs[j := job.(result := None, reported := report)];
        return;
      }
      if job.raised {
        var running := job.phase == Running;
        var units := if running then job.units else 0;
        Unqueue(j);
        report := Some(CancelledReport(units, running));
        jobs := jobs[j := job.(abandoned := true, waker := false, reported := report)];
        return;
      }
      jobs := jobs[j := job.(waker := true)];
      report := None;
    }

    /** `Pending::drop`. */
    method Abandon(j: nat)
      requires j in jobs
      modifies this`queue, this`jobs
      ensures View() == DropJob(old(View()), j)
    {
      Unqueue(j);
      jobs := jobs[j := jobs[j].(abandoned := true, result := None, ticket := None, waker := false, dropped := true)];
    }

    /** A worker's section before a run: it exits, waits, answers a cancelled job or takes one. */
    method Pick(w: nat)
      requires w < |workers| && forall j | j in queue :: j in jobs
      modifies this`queue, this`running, this`jobs, this`workers
      ensures View() == PickJob(old(View()), w)
    {
      if shutdown {
        workers := workers[w := Exited];
        return;
      }
      if queue == [] {
        workers := workers[w := Waiting];
        return;
      }
      var j := queue[0];
      queue := queue[1..];
      var job := jobs[j];
      if job.raised {
        var cancelled := Bad(Failure.Cancelled, "embed:cancelled:queue");
        workers := workers[w := if job.waker then Waking(j) else Awake];
        jobs := jobs[j := job.(phase := Done, result := Some(cancelled), waker := false)];
        return;
      }
      workers := workers[w := Busy(j, job.ticket)];
      jobs := jobs[j := job.(phase := Running, hasRequest := false, ticket := None, started := true)];
      running := running + 1;
    }

    /** Offers the cache what a run computed; it takes it only from a run that nobody cancelled. */
    method OfferEmbedding(job: Job, ticket: Option<Ticket>, embedding: Embedding)
      requires !job.raised ==> Pooled(config.f, job.request.ids, job.request.mask) == Some(embedding)
      modifies this`cache, this`born
      ensures View() == Offer(old(View()), job, ticket)
    {
      hide Admit, Pooled;
      if cache.Some? && ticket.Some? {
        var outcome := if job.abandoned || job.raised then RunOutcome.Cancelled else Completed;
        var miss := ticket.value.miss;
        OfferedIsMoot(cache.value, miss, embedding, Offered(config.f, job), outcome);
        var (next, admitted) := Admit(cache.value, miss, embedding, outcome);
        cache := Some(next);
        if admitted {
          born := born[miss.key := ticket.value.issued];
        }
      }
    }

    /** A worker's section after a run that yielded `output`, by way of `embedding`. */
    method Finish(w: nat, output: Output, embedding: Embedding)
      requires w < |workers| && workers[w].Busy? && workers[w].job in jobs && running > 0
      requires var job := jobs[workers[w].job];
        && (!job.raised ==> output == Direct(config.f, job.request))
        && (output.Good? && !job.raised ==> Pooled(config.f, job.request.ids, job.request.mask) == Some(embedding))
      modifies this`running, this`jobs, this`workers, this`cache, this`born
      ensures View() == FinishJob(old(View()), w, output)
    {
      var j, ticket := workers[w].job, workers[w].ticket;
      var job := jobs[j];
      hide Offer, Direct, Pooled;
      if output.Good? {
        OfferEmbedding(job, ticket, embedding);
      }
      running := running - 1;
      workers := workers[w := if job.waker then Waking(j) else Awake];
      jobs := jobs[j := job.(phase := Done, waker := false, result := if job.abandoned then job.result else Some(output))];
    }
  }

  function Offered(f: Pipeline, job: Job): Embedding {
    match Pooled(f, job.request.ids, job.request.mask) case None => [] case Some(e) => e
  }

  /** The cache ignores what a cancelled run computed. */
  lemma OfferedIsMoot(c: Cache<Addr>, miss: CacheMiss<Addr>, e: Embedding, d: Embedding, outcome: RunOutcome)
    requires outcome.Completed? ==> e == d
    ensures Admit(c, miss, e, outcome) == Admit(c, miss, d, outcome)
  {}

  lemma {:induction false} RetainStep(q: seq<nat>, i: nat, j: nat)
    requires i < |q|
    ensures Retain(q[..i + 1], j) == Retain(q[..i], j) + if q[i] != j then [q[i]] else []
  {
    if i == 0 {
      assert q[..1] == [q[0]] && q[..0] == [] && [q[0]][1..] == [];
    } else {
      assert q[..i + 1][1..] == q[1..][..i] && q[..i][1..] == q[1..][..i - 1];
      RetainStep(q[1..], i - 1, j);
    }
  }
}
