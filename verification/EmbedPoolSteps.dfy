/** Every step of the pool keeps it sound
    (backends/rustev-backend-embed-linear/src/backend.rs:242-468). */
module EmbedPoolSteps {
  import opened Wrappers
  import opened EmbedCache
  import opened EmbedPool
  import opened EmbedPoolSafety
  import opened EmbedPoolMemo

  // -------------------------------------------------------------- one job's fields

  lemma PolledIsCoherent(g: Config, j: Job)
    requires Coherent(g, j) && Pending(j)
    ensures var k := Polled(j).(asleep := Polled(j).reported.None?);
      Coherent(g, k) && k.phase == j.phase && !j.abandoned && !(k.phase == Done && Sleeps(k))
  {
    hide Direct;
  }

  lemma DroppedIsCoherent(g: Config, j: Job)
    requires Coherent(g, j) && j.phase != Calling && j.phase != Never
    ensures Coherent(g, j.(abandoned := true, result := None, ticket := None, waker := false, dropped := true))
  {
    hide Direct;
  }

  lemma RaisedIsCoherent(g: Config, j: Job)
    requires Coherent(g, j)
    ensures Coherent(g, j.(raised := true, asleep := false))
  {
    hide Direct, FullCharge;
  }

  lemma StartedIsCoherent(g: Config, j: Job)
    requires Coherent(g, j) && j.phase == Queued && !j.abandoned && !j.raised
    ensures Coherent(g, j.(phase := Running, hasRequest := false, ticket := None, started := true))
  {
    hide Direct;
  }

  lemma UnstartedIsCoherent(g: Config, j: Job)
    requires Coherent(g, j) && j.phase == Queued && !j.abandoned && j.raised
    ensures Coherent(g, j.(phase := Done, result := Some(Bad(Failure.Cancelled, "embed:cancelled:queue")), waker := false))
  {
    hide Direct;
  }

  lemma FinishedIsCoherent(g: Config, j: Job, output: Output)
    requires Coherent(g, j) && j.phase == Running && (j.raised || output == Direct(g.f, j.request))
    ensures Coherent(g, j.(phase := Done, waker := false, result := if j.abandoned then j.result else Some(output)))
  {
    hide Direct;
  }

  // ----------------------------------------------------------- the future's side

  lemma BeginIsSound(s: System, j: nat, p: Handle, r: Request, raised: bool)
    requires Sound(s) && Faithful(s)
    requires Enabled(s, Begin(j, p, r, raised))
    ensures Sound(TakeStep(s, Begin(j, p, r, raised)))
  {
    hide Lookup, Retain, Tally, Distinct, RunsJob, WakesJob;
    var t := TakeStep(s, Begin(j, p, r, raised));
    assert j !in s.queue;
    BegunIsCoherent(s, j, p, r, raised);
    forall i | i in t.jobs ensures Coherent(t.config, t.jobs[i]) && Placed(i, t.jobs[i], t.queue, t.workers) {
      if i != j {
        assert t.jobs[i] == s.jobs[i];
      }
    }
  }

  lemma BegunIsCoherent(s: System, j: nat, p: Handle, r: Request, raised: bool)
    requires Faithful(s)
    requires Enabled(s, Begin(j, p, r, raised))
    ensures var t := TakeStep(s, Begin(j, p, r, raised));
      && t.queue == s.queue && t.workers == s.workers && t.running == s.running && t.config == s.config
      && t.notifies == s.notifies && t.shutdown == s.shutdown
      && t.jobs == s.jobs[j := t.jobs[j]]
      && Coherent(s.config, t.jobs[j])
      && (t.jobs[j].phase == Calling || t.jobs[j].phase == Never)
  {
    if s.cache.Some? {
      var c := s.cache.value;
      var k := KeyFor(c, p, r.ids, r.mask);
      if HasKey(c.entries, k) {
        var e := c.entries[Position(c.entries, k)];
        assert e in c.entries;
      }
    }
  }

  lemma EnqueuedIsCoherent(s: System, j: nat)
    requires Enabled(s, Enqueue(j)) && Coherent(s.config, s.jobs[j])
    ensures var t := TakeStep(s, Enqueue(j));
      && t == s.(now := t.now, jobs := s.jobs[j := t.jobs[j]], queue := t.queue, notifies := t.notifies)
      && Coherent(s.config, t.jobs[j])
      && (if s.running + |s.queue| == s.config.capacity then
            t.jobs[j].phase == Never && t.queue == s.queue && t.notifies == s.notifies
          else
            t.jobs[j].phase == Queued && !t.jobs[j].abandoned && t.queue == s.queue + [j] && t.notifies == s.notifies + 1)
  {}

  lemma EnqueueIsSound(s: System, j: nat)
    requires Sound(s)
    requires Enabled(s, Enqueue(j))
    ensures Sound(TakeStep(s, Enqueue(j)))
  {
    hide Tally, RunsJob, WakesJob, EnqueueJob, Coherent;
    var t := TakeStep(s, Enqueue(j));
    assert Coherent(s.config, s.jobs[j]) && j !in s.queue;
    EnqueuedIsCoherent(s, j);
    forall i | i in t.jobs ensures Coherent(t.config, t.jobs[i]) && Placed(i, t.jobs[i], t.queue, t.workers) {
      if i != j {
        assert t.jobs[i] == s.jobs[i];
      }
    }
  }

  lemma PollIsSound(s: System, j: nat)
    requires Sound(s)
    requires Enabled(s, Poll(j))
    ensures Sound(TakeStep(s, Poll(j)))
  {
    hide Tally, RunsJob, WakesJob, Retain, Distinct, Polled, Coherent;
    var t := TakeStep(s, Poll(j));
    Retained(s.queue, j);
    assert Coherent(s.config, s.jobs[j]);
    PolledIsCoherent(s.config, s.jobs[j]);
    AbandonsWhenRaised(s.jobs[j]);
    forall i | i in t.jobs ensures Coherent(t.config, t.jobs[i]) && Placed(i, t.jobs[i], t.queue, t.workers) {
      if i != j {
        assert t.jobs[i] == s.jobs[i];
      }
    }
  }

  lemma AbandonsWhenRaised(j: Job)
    ensures Polled(j).abandoned <==> j.abandoned || (j.result.None? && j.raised)
  {}

  lemma DropIsSound(s: System, j: nat)
    requires Sound(s)
    requires Enabled(s, Drop(j))
    ensures Sound(TakeStep(s, Drop(j)))
  {
    hide Tally, RunsJob, WakesJob, Retain, Distinct, Coherent;
    var t := TakeStep(s, Drop(j));
    Retained(s.queue, j);
    DroppedIsCoherent(s.config, s.jobs[j]);
    forall i | i in t.jobs ensures Coherent(t.config, t.jobs[i]) && Placed(i, t.jobs[i], t.queue, t.workers) {
      if i != j {
        assert t.jobs[i] == s.jobs[i];
      }
    }
  }

  lemma RaiseIsSound(s: System, j: nat)
    requires Sound(s)
    requires Enabled(s, Raise(j))
    ensures Sound(TakeStep(s, Raise(j)))
  {
    hide Tally, RunsJob, WakesJob, Distinct, Coherent;
    var t := TakeStep(s, Raise(j));
    RaisedIsCoherent(s.config, s.jobs[j]);
    forall i | i in t.jobs ensures Coherent(t.config, t.jobs[i]) && Placed(i, t.jobs[i], t.queue, t.workers) {
      if i != j {
        assert t.jobs[i] == s.jobs[i];
      }
    }
  }

  // ----------------------------------------------------------- the worker's side

  /** A worker that runs nothing, before and after. */
  lemma IdleSet(ws: seq<Worker>, jobs: map<nat, Job>, w: nat, x: Worker)
    requires w < |ws| && !ws[w].Busy? && !x.Busy? && WorkersSound(ws, jobs)
    ensures WorkersSound(ws[w := x], jobs)
    ensures Tally(ws[w := x], IsBusy) == Tally(ws, IsBusy)
    ensures !ws[w].Exited? ==> Tally(ws[w := x], IsReady) + (if IsReady(ws[w]) then 1 else 0)
                               == Tally(ws, IsReady) + (if IsReady(x) then 1 else 0)
  {
    TallySet(ws, w, x, IsBusy);
    TallySet(ws, w, x, IsReady);
  }

  lemma WakenedIsSound(s: System, w: nat)
    requires Sound(s)
    requires w < |s.workers| && s.workers[w].Waiting?
    ensures Sound(s.(workers := s.workers[w := Awake]))
    ensures s.notifies > 0 ==> Sound(s.(workers := s.workers[w := Awake], notifies := s.notifies - 1))
  {
    hide Tally, Distinct, Coherent, Placed;
    var t := s.(workers := s.workers[w := Awake]);
    IdleSet(s.workers, s.jobs, w, Awake);
    assert AnyWaiting(s.workers);
    forall i | i in t.jobs ensures Coherent(t.config, t.jobs[i]) && Placed(i, t.jobs[i], t.queue, t.workers) {
      PlacedSet(i, s.jobs[i], s.queue, s.workers, w, Awake);
    }
  }

  lemma NotifyIsSound(s: System, w: Option<nat>)
    requires Sound(s)
    requires Enabled(s, Notify(w))
    ensures Sound(TakeStep(s, Notify(w)))
  {
    hide Tally, Distinct, Coherent, Placed;
    if w.Some? {
      WakenedIsSound(s, w.value);
    }
  }

  lemma SpuriousIsSound(s: System, w: nat)
    requires Sound(s)
    requires Enabled(s, Spurious(w))
    ensures Sound(TakeStep(s, Spurious(w)))
  {
    hide Tally, Distinct, Coherent, Placed;
    WakenedIsSound(s, w);
  }

  lemma WakeIsSound(s: System, w: nat)
    requires Sound(s)
    requires Enabled(s, Wake(w))
    ensures Sound(TakeStep(s, Wake(w)))
  {
    hide Tally, Distinct, Coherent;
    var j := s.workers[w].job;
    var t := TakeStep(s, Wake(w));
    IdleSet(s.workers, s.jobs, w, Awake);
    WokenIsCoherent(s, w);
    forall i | i in t.jobs ensures Coherent(t.config, t.jobs[i]) && Placed(i, t.jobs[i], t.queue, t.workers) {
      assert Coherent(s.config, s.jobs[i]);
      if i != j {
        PlacedSet(i, s.jobs[i], s.queue, s.workers, w, Awake);
      } else {
        RunSet(i, s.workers, w, Awake);
      }
    }
  }

  lemma WokenIsCoherent(s: System, w: nat)
    requires Enabled(s, Wake(w))
    ensures var t := TakeStep(s, Wake(w));
      var j := s.workers[w].job;
      && t == s.(now := t.now, jobs := t.jobs, workers := s.workers[w := Awake])
      && t.jobs.Keys == s.jobs.Keys
      && (forall i | i in s.jobs && i != j :: t.jobs[i] == s.jobs[i])
      && (j in s.jobs ==> t.jobs[j] == s.jobs[j].(asleep := false)
                          && (Coherent(s.config, s.jobs[j]) ==> Coherent(s.config, t.jobs[j])))
  {
    hide Direct;
  }

  lemma RunSet(j: nat, ws: seq<Worker>, w: nat, x: Worker)
    requires w < |ws| && !ws[w].Busy?
    ensures RunsJob(ws, j) ==> RunsJob(ws[w := x], j)
  {
    if RunsJob(ws, j) {
      var v :| 0 <= v < |ws| && ws[v].Busy? && ws[v].job == j;
      assert ws[w := x][v].Busy?;
    }
  }

  lemma ShutdownIsSound(s: System)
    requires Sound(s)
    requires Enabled(s, Shutdown)
    ensures Sound(TakeStep(s, Shutdown))
  {
    hide Tally, Distinct;
    var t := TakeStep(s, Shutdown);
    TallySame(s.workers, t.workers, IsBusy);
    forall i | i in t.jobs ensures Coherent(t.config, t.jobs[i]) && Placed(i, t.jobs[i], t.queue, t.workers) {
      assert Coherent(s.config, s.jobs[i]);
      if s.jobs[i].phase == Running {
        var v :| 0 <= v < |s.workers| && s.workers[v].Busy? && s.workers[v].job == i;
        assert t.workers[v].Busy?;
      }
    }
  }

  lemma PickIsSound(s: System, w: nat)
    requires Sound(s)
    requires Enabled(s, Pick(w))
    ensures Sound(TakeStep(s, Pick(w)))
  {
    if s.shutdown || s.queue == [] {
      RestIsSound(s, w);
    } else {
      assert s.queue[0] in s.queue;
      if s.jobs[s.queue[0]].raised {
        PickRaisedIsSound(s, w);
      } else {
        PickRunIsSound(s, w);
      }
    }
  }

  lemma RestIsSound(s: System, w: nat)
    requires Sound(s)
    requires Enabled(s, Pick(w))
    requires s.shutdown || s.queue == []
    ensures Sound(TakeStep(s, Pick(w)))
  {
    hide Tally, Distinct, Coherent, Placed;
    var x := if s.shutdown then Exited else Waiting;
    var t := TakeStep(s, Pick(w));
    IdleSet(s.workers, s.jobs, w, x);
    forall i | i in t.jobs ensures Coherent(t.config, t.jobs[i]) && Placed(i, t.jobs[i], t.queue, t.workers) {
      PlacedSet(i, s.jobs[i], s.queue, s.workers, w, x);
    }
  }

  lemma RestOfQueue(q: seq<nat>, jobs: map<nat, Job>)
    requires QueueSound(q, jobs) && q != []
    ensures QueueSound(q[1..], jobs) && q[0] !in q[1..]
    ensures forall i :: i in q && i != q[0] ==> i in q[1..]
  {
    assert q == [q[0]] + q[1..];
    assert forall k | 0 <= k < |q[1..]| :: q[1..][k] == q[k + 1];
  }

  lemma PickRaisedIsSound(s: System, w: nat)
    requires Sound(s)
    requires Enabled(s, Pick(w)) && !s.shutdown && s.queue != []
    requires s.queue[0] in s.jobs && s.jobs[s.queue[0]].raised
    ensures Sound(TakeStep(s, Pick(w)))
  {
    hide Tally, Distinct, TakeStep;
    var j := s.queue[0];
    var t := TakeStep(s, Pick(w));
    var x := if s.jobs[j].waker then Waking(j) else Awake;
    PickedRaised(s, w);
    RestOfQueue(s.queue, s.jobs);
    IdleSet(s.workers, s.jobs, w, x);
    assert j in s.queue && Coherent(s.config, s.jobs[j]);
    assert !Sleeps(s.jobs[j]);
    UnstartedIsCoherent(s.config, s.jobs[j]);
    hide Coherent;
    forall i | i in t.jobs ensures Coherent(t.config, t.jobs[i]) && Placed(i, t.jobs[i], t.queue, t.workers) {
      if i != j {
        PlacedSet(i, s.jobs[i], s.queue, s.workers, w, x);
      }
    }
  }

  lemma PickedRaised(s: System, w: nat)
    requires Enabled(s, Pick(w)) && !s.shutdown && s.queue != []
    requires s.queue[0] in s.jobs && s.jobs[s.queue[0]].raised
    ensures w < |s.workers| && s.workers[w].Awake?
    ensures var j := s.queue[0];
      TakeStep(s, Pick(w))
      == s.(now := s.now + 1, queue := s.queue[1..],
            jobs := s.jobs[j := s.jobs[j].(phase := Done, result := Some(Bad(Failure.Cancelled, "embed:cancelled:queue")),
                                           waker := false)],
            workers := s.workers[w := if s.jobs[j].waker then Waking(j) else Awake])
  {
    hide Held;
  }

  lemma PickedRun(s: System, w: nat)
    requires Enabled(s, Pick(w)) && !s.shutdown && s.queue != []
    requires s.queue[0] in s.jobs && !s.jobs[s.queue[0]].raised
    ensures w < |s.workers| && s.workers[w].Awake?
    ensures var j := s.queue[0];
      TakeStep(s, Pick(w)) == s.(now := s.now + 1, queue := s.queue[1..], running := s.running + 1,
                                 jobs := s.jobs[j := s.jobs[j].(phase := Running, hasRequest := false, ticket := None, started := true)],
                                 workers := s.workers[w := Busy(j, s.jobs[j].ticket)])
  {
    hide Held;
  }

  lemma PickRunIsSound(s: System, w: nat)
    requires Sound(s)
    requires Enabled(s, Pick(w)) && !s.shutdown && s.queue != []
    requires s.queue[0] in s.jobs && !s.jobs[s.queue[0]].raised
    ensures Sound(TakeStep(s, Pick(w)))
  {
    hide Tally, Distinct, TakeStep, Enabled, PickJob;
    PickedRun(s, w);
    var j := s.queue[0];
    var t := TakeStep(s, Pick(w));
    var x := Busy(j, s.jobs[j].ticket);
    RestOfQueue(s.queue, s.jobs);
    TallySet(s.workers, w, x, IsBusy);
    TallySet(s.workers, w, x, IsReady);
    assert j in s.queue;
    StartedIsCoherent(s.config, s.jobs[j]);
    hide Coherent;
    assert t.workers[w].Busy? && t.workers[w].job == j;
    forall i | i in t.jobs ensures Coherent(t.config, t.jobs[i]) && Placed(i, t.jobs[i], t.queue, t.workers) {
      if i != j {
        PlacedSet(i, s.jobs[i], s.queue, s.workers, w, x);
      }
    }
  }

  lemma Finished(s: System, w: nat, other: Output)
    requires Enabled(s, Finish(w, other))
    requires s.jobs[s.workers[w].job].phase == Running && Coherent(s.config, s.jobs[s.workers[w].job])
    ensures var j := s.workers[w].job;
      var job := s.jobs[j];
      var output := if job.raised then other else Direct(s.config.f, job.request);
      var t := TakeStep(s, Finish(w, other));
      && t.jobs == s.jobs[j := job.(phase := Done, waker := false,
                                    result := if job.abandoned then job.result else Some(output))]
      && Coherent(s.config, t.jobs[j])
      && (Sleeps(job) ==> job.waker)
  {
    var job := s.jobs[s.workers[w].job];
    var output := if job.raised then other else Direct(s.config.f, job.request);
    OfferOnlyCaches(s, job, s.workers[w].ticket);
    FinishedIsCoherent(s.config, job, output);
    assert Sleeps(job) ==> job.waker;
    hide Coherent, Offer, Direct;
  }

  lemma FinishIsSound(s: System, w: nat, other: Output)
    requires Sound(s)
    requires Enabled(s, Finish(w, other))
    ensures Sound(TakeStep(s, Finish(w, other)))
  {
    hide Tally, Distinct, Offer, Direct, Coherent;
    var j := s.workers[w].job;
    var t := TakeStep(s, Finish(w, other));
    assert Coherent(s.config, s.jobs[j]) && j !in s.queue;
    OfferOnlyCaches(s, s.jobs[j], s.workers[w].ticket);
    Finished(s, w, other);
    var x := t.workers[w];
    TallySet(s.workers, w, x, IsBusy);
    TallySet(s.workers, w, x, IsReady);
    forall i | i in t.jobs ensures Coherent(t.config, t.jobs[i]) && Placed(i, t.jobs[i], t.queue, t.workers) {
      if i != j {
        PlacedSet(i, s.jobs[i], s.queue, s.workers, w, x);
      } else if Sleeps(t.jobs[j]) {
        assert t.workers[w].Waking? && t.workers[w].job == j;
      }
    }
  }

  lemma InvalidateIsSound(s: System, step: Step)
    requires Sound(s)
    requires step.ClearCache? || step.EraseHandle?
    requires Enabled(s, step)
    ensures Sound(TakeStep(s, step))
  {
    hide Tally, Distinct, Coherent, Placed;
  }
}
