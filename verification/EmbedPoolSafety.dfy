/** What every step of the pool keeps: slots, queue, phases, wakeups and honest reports
    (backends/rustev-backend-embed-linear/src/backend.rs:345-520). */
module EmbedPoolSafety {
  import opened Wrappers
  import opened EmbedPool

  // ------------------------------------------------------------ what a job says

  function FullCharge(g: Config, r: Request): nat { g.perCall + g.perToken * |r.ids| }

  /** What an attempt owes: the per-call part for a hit, everything for a run that started. */
  function Charge(g: Config, j: Job): nat {
    if j.hit then g.perCall else if j.started then FullCharge(g, j.request) else 0
  }

  /** The same logits, or a permanent failure for a permanent failure. */
  predicate SameAnswer(a: Output, b: Output) {
    a == b || (a.Bad? && b.Bad? && a.failure == b.failure == Permanent)
  }

  /** `o` answers the job's request: as a pipeline without a cache would, unless every slot was
      taken. */
  predicate Answers(f: Pipeline, j: Job, o: Output) {
    || SameAnswer(o, Direct(f, j.request))
    || (j.phase == Never && !j.hit && o.Bad? && o.failure == Overloaded)
  }

  /** A report says what is the case: that the run is over or never begins, or that it began and
      nobody knows; what is owed; when nothing was cancelled, the answer; and otherwise a
      cancellation, or what a run that was over had yielded. */
  predicate Honest(g: Config, j: Job, r: Report) {
    && (r.remote == PossiblyContinuing <==> r.cancel == Unconfirmed)
    && (r.remote == Finished ==> j.phase == Never || j.phase == Done || (j.phase == Queued && j.abandoned))
    && (r.remote == PossiblyContinuing ==> j.started && j.abandoned)
    && r.units == Charge(g, j)
    && (r.cancel != NotRequested ==> j.raised && (r.result.Good? || r.result.failure == Failure.Cancelled))
    && (r.cancel == Unconfirmed ==> r.result.Bad?)
    && (r.cancel == NotRequested ==> Answers(g.f, j, r.result))
  }

  /** The last poll reported nothing, and neither a signal nor a worker has woken the task since. */
  predicate Sleeps(j: Job) { Pending(j) && j.asleep }

  /** The fields of a job agree with one another. */
  predicate Coherent(g: Config, j: Job) {
    && (j.phase == Calling || j.phase == Queued ==> j.hasRequest && !j.started)
    && (j.phase == Running ==> j.started)
    && (j.phase == Never ==> !j.started && j.reported.Some?)
    && (j.phase == Running || j.phase == Done ==> j.started == !j.hasRequest)
    && (j.phase == Calling ==> !j.abandoned && !j.dropped && !j.asleep && j.reported.None?)
    && (j.phase != Never ==> !j.hit)
    && (!j.hit ==> j.units == FullCharge(g, j.request))
    && (j.abandoned ==> j.dropped || j.reported.Some?)
    && (j.dropped ==> j.abandoned)
    && (j.result.Some? ==> j.phase == Done && Pending(j) && !j.abandoned)
    && (j.result.Some? ==> j.raised || (j.started && j.result.value == Direct(g.f, j.request)))
    && (j.phase == Done && Pending(j) ==> j.result.Some?)
    && (j.waker ==> (j.phase == Queued || j.phase == Running) && !j.abandoned)
    && (Sleeps(j) ==> !j.raised && (j.phase == Done || j.waker))
    && (j.reported.Some? ==> Honest(g, j, j.reported.value))
  }

  // ---------------------------------------------------------------- the pool

  predicate RunsJob(ws: seq<Worker>, j: nat) {
    exists w | 0 <= w < |ws| :: ws[w].Busy? && ws[w].job == j
  }

  predicate WakesJob(ws: seq<Worker>, j: nat) {
    exists w | 0 <= w < |ws| :: ws[w].Waking? && ws[w].job == j
  }

  /** Where a job has to be, given what it says. */
  predicate Placed(j: nat, job: Job, q: seq<nat>, ws: seq<Worker>) {
    && (job.phase == Queued && !job.abandoned ==> j in q)
    && (job.phase == Running ==> RunsJob(ws, j))
    && (job.phase == Done && Sleeps(job) ==> WakesJob(ws, j))
  }

  predicate QueueSound(q: seq<nat>, jobs: map<nat, Job>) {
    && Distinct(q)
    && forall j | j in q :: j in jobs && jobs[j].phase == Queued && !jobs[j].abandoned
  }

  predicate WorkersSound(ws: seq<Worker>, jobs: map<nat, Job>) {
    && (forall w | 0 <= w < |ws| && ws[w].Busy? :: ws[w].job in jobs && jobs[ws[w].job].phase == Running)
    && (forall v, w | 0 <= v < w < |ws| && ws[v].Busy? && ws[w].Busy? :: ws[v].job != ws[w].job)
  }

  predicate JobsSound(s: System) {
    forall j | j in s.jobs :: Coherent(s.config, s.jobs[j]) && Placed(j, s.jobs[j], s.queue, s.workers)
  }

  predicate IsBusy(w: Worker) { w.Busy? }

  /** About to look at the queue. */
  predicate IsReady(w: Worker) { w.Awake? || w.Waking? }

  function Tally(ws: seq<Worker>, p: Worker -> bool): nat {
    if ws == [] then 0 else (if p(ws[0]) then 1 else 0) + Tally(ws[1..], p)
  }

  /** `running` counts the workers between pick and finish, and no slot is taken twice. */
  predicate SlotsSound(s: System) {
    && 0 < |s.workers|
    && s.running == Tally(s.workers, IsBusy)
    && s.running + |s.queue| <= s.config.capacity
  }

  predicate AnyWaiting(ws: seq<Worker>) {
    exists w | 0 <= w < |ws| :: ws[w].Waiting?
  }

  /** While a worker waits, every queued job has a notification under way or a worker that is
      about to look for it. */
  predicate NoneForgotten(s: System) {
    || s.shutdown
    || ((forall w | 0 <= w < |s.workers| :: !s.workers[w].Exited?)
        && (AnyWaiting(s.workers) ==> |s.queue| <= s.notifies + Tally(s.workers, IsReady)))
  }

  predicate Sound(s: System) {
    && QueueSound(s.queue, s.jobs)
    && WorkersSound(s.workers, s.jobs)
    && JobsSound(s)
    && SlotsSound(s)
    && NoneForgotten(s)
  }

  /** Every cached embedding is what its key pools to. */
  predicate Faithful(s: System) {
    s.cache.Some? ==> forall e | e in s.cache.value.entries ::
      Pooled(s.config.f, e.key.ids, e.key.mask) == Some(e.embedding)
  }

  // ------------------------------------------------------------------ counting

  lemma {:induction false} TallySet(ws: seq<Worker>, w: nat, x: Worker, p: Worker -> bool)
    requires w < |ws|
    ensures Tally(ws[w := x], p) + (if p(ws[w]) then 1 else 0) == Tally(ws, p) + (if p(x) then 1 else 0)
  {
    if w > 0 {
      assert ws[w := x][1..] == ws[1..][w - 1 := x];
      TallySet(ws[1..], w - 1, x, p);
    } else {
      assert ws[w := x][1..] == ws[1..];
    }
  }

  lemma {:induction false} TallyAtMost(ws: seq<Worker>, p: Worker -> bool)
    ensures Tally(ws, p) <= |ws|
  {
    if ws != [] {
      TallyAtMost(ws[1..], p);
    }
  }

  lemma {:induction false} TallySome(ws: seq<Worker>, p: Worker -> bool)
    requires Tally(ws, p) > 0
    ensures exists w | 0 <= w < |ws| :: p(ws[w])
  {
    if !p(ws[0]) {
      TallySome(ws[1..], p);
      var w :| 0 <= w < |ws[1..]| && p(ws[1..][w]);
      assert p(ws[w + 1]);
    }
  }

  lemma {:induction false} TallySame(ws: seq<Worker>, vs: seq<Worker>, p: Worker -> bool)
    requires |ws| == |vs| && forall w | 0 <= w < |ws| :: p(ws[w]) == p(vs[w])
    ensures Tally(ws, p) == Tally(vs, p)
  {
    if ws != [] {
      assert p(ws[0]) == p(vs[0]);
      assert forall w | 0 <= w < |ws[1..]| :: p(ws[1..][w]) == p(ws[w + 1]) && p(vs[1..][w]) == p(vs[w + 1]);
      TallySame(ws[1..], vs[1..], p);
    }
  }

  // -------------------------------------------------------------------- frames

  lemma {:induction false} Retained(q: seq<nat>, j: nat)
    ensures forall i :: i in Retain(q, j) <==> i in q && i != j
    ensures |Retain(q, j)| <= |q|
    ensures Distinct(q) ==> Distinct(Retain(q, j))
  {
    if q != [] {
      Retained(q[1..], j);
      assert q == [q[0]] + q[1..];
      if Distinct(q) {
        assert forall k | 0 <= k < |q[1..]| :: q[1..][k] == q[k + 1];
        var r := Retain(q[1..], j);
        forall k | 0 <= k < |r| ensures r[k] != q[0] {
          assert r[k] in q[1..];
        }
      }
    }
  }

  /** A job that holds no worker stays where it was when another worker's state changes. */
  lemma PlacedSet(j: nat, job: Job, q: seq<nat>, ws: seq<Worker>, w: nat, x: Worker)
    requires w < |ws| && Placed(j, job, q, ws)
    requires ws[w].Busy? || ws[w].Waking? ==> ws[w].job != j
    ensures Placed(j, job, q, ws[w := x])
  {
    var vs := ws[w := x];
    if job.phase == Running {
      var v :| 0 <= v < |ws| && ws[v].Busy? && ws[v].job == j;
      assert vs[v].Busy? && vs[v].job == j;
    }
    if job.phase == Done && Sleeps(job) {
      var v :| 0 <= v < |ws| && ws[v].Waking? && ws[v].job == j;
      assert vs[v].Waking? && vs[v].job == j;
    }
  }
}
