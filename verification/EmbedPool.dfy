/** The worker pool of the embedding backend, as the steps its critical sections take
    (backends/rustev-backend-embed-linear/src/backend.rs).

    Each step is atomic: a section under the pool's lock, a notification, a wakeup, or the
    raise of a cancellation signal. A run is any interleaving of enabled steps. */
module EmbedPool {
  import opened Wrappers
  import opened EmbedCache

  // ------------------------------------------------------------------ values

  /** A prepared request: the head it asks for and its tokens. */
  datatype Request = Request(head: nat, ids: seq<nat>, mask: seq<nat>)

  type Vectors = seq<Float>
  type Logits = seq<int>

  /** What the encoder, the pooling and the heads compute; `None` where they refuse. */
  datatype Pipeline = Pipeline(
    encode: seq<nat> -> Option<Vectors>,
    pool: (Vectors, seq<nat>) -> Option<Embedding>,
    head: (nat, Embedding) -> Option<Logits>)

  datatype Failure = Permanent | Cancelled | Overloaded

  datatype Output = Good(logits: Logits) | Bad(failure: Failure, detail: string)

  datatype CancelAck = NotRequested | Stopped | Unconfirmed
  datatype RemoteEnd = Finished | PossiblyContinuing

  datatype Report = Report(result: Output, units: nat, cancel: CancelAck, remote: RemoteEnd)

  function CancelledReport(units: nat, running: bool): Report {
    Report(Bad(Failure.Cancelled, "embed:cancelled:attempt"), units,
           if running then Unconfirmed else Stopped,
           if running then PossiblyContinuing else Finished)
  }

  function ReportOf(result: Output, units: nat, raised: bool): Report {
    if raised && result.Bad? then CancelledReport(units, false)
    else Report(result, units, if raised then Stopped else NotRequested, Finished)
  }

  /** The embedding a request's tokens pool to, without any cache. */
  function Pooled(f: Pipeline, ids: seq<nat>, mask: seq<nat>): Option<Embedding> {
    match f.encode(ids)
    case None => None
    case Some(v) => f.pool(v, mask)
  }

  /** What a worker's run yields: the encoder, the pooling, then the head. */
  function Direct(f: Pipeline, r: Request): Output {
    match f.encode(r.ids)
    case None => Bad(Permanent, "embed:runtime_error:encoder")
    case Some(v) =>
      match f.pool(v, r.mask)
      case None => Bad(Permanent, "embed:non_finite:encoder")
      case Some(e) =>
        match f.head(r.head, e)
        case None => Bad(Permanent, "embed:non_finite:encoder")
        case Some(l) => Good(l)
  }

  /** What a hit yields: the head alone, over the stored embedding. */
  function FromCache(f: Pipeline, head: nat, e: Embedding): Output {
    match f.head(head, e)
    case None => Bad(Permanent, "embed:non_finite:head")
    case Some(l) => Good(l)
  }

  // ------------------------------------------------------------------- state

  datatype Phase = Calling | Queued | Running | Done | Never

  /** Identity of an allocation. */
  type Addr = nat

  /** A miss ticket, and the time at which its lookup was made. */
  datatype Ticket = Ticket(miss: CacheMiss<Addr>, issued: nat)

  /** An attempt. `started`, `hit`, `reported`, `asleep` and `dropped` record its history;
      the other fields are the job's own. */
  datatype Job = Job(
    principal: Handle,
    request: Request,
    hasRequest: bool,
    ticket: Option<Ticket>,
    phase: Phase,
    result: Option<Output>,
    units: nat,
    raised: bool,
    waker: bool,
    abandoned: bool,
    hit: bool,
    started: bool,
    asleep: bool,
    dropped: bool,
    reported: Option<Report>)

  /** `Awake` is about to take the lock, or has it; `Waking` still has a task to wake. */
  datatype Worker =
    | Awake
    | Waiting
    | Busy(job: nat, ticket: Option<Ticket>)
    | Waking(job: nat)
    | Exited

  datatype Config = Config(f: Pipeline, capacity: nat, perCall: nat, perToken: nat)

  /** `now` counts the steps taken. `cleared`, `erased` and `invalidated` are the times of the
      last calls that removed entries; `born` is when each entry's ticket was issued. */
  datatype System = System(
    config: Config,
    queue: seq<nat>,
    running: nat,
    shutdown: bool,
    jobs: map<nat, Job>,
    workers: seq<Worker>,
    notifies: nat,
    cache: Option<Cache<Addr>>,
    now: nat,
    cleared: nat,
    erased: map<Handle, nat>,
    invalidated: nat,
    born: map<Key, nat>)

  // ------------------------------------------------------------------- steps

  datatype Step =
    | Begin(job: nat, principal: Handle, request: Request, raised: bool)  // a prepared request is looked up
    | Enqueue(job: nat)
    | Notify(woken: Option<nat>)
    | Poll(job: nat)
    | Drop(job: nat)
    | Raise(job: nat)
    | Pick(worker: nat)
    | Finish(worker: nat, other: Output)                                  // `other`: what a raised run may yield
    | Wake(worker: nat)
    | Spurious(worker: nat)
    | ClearCache(addr: Addr)
    | EraseHandle(principal: Handle, addr: Addr)
    | Shutdown

  function NewJob(principal: Handle, request: Request, units: nat): Job {
    Job(principal, request, true, None, Never, None, units, false, false, false, false, false, false, false, None)
  }

  /** A future that was polled once and is neither finished nor dropped. */
  predicate Pending(j: Job) {
    j.phase in {Queued, Running, Done} && !j.dropped && j.reported.None?
  }

  function Tick(s: System): System { s.(now := s.now + 1) }

  function Put(s: System, j: nat, job: Job): System { s.(jobs := s.jobs[j := job]) }

  function Set(s: System, w: nat, worker: Worker): System
    requires w < |s.workers|
  { s.(workers := s.workers[w := worker]) }

  /** `q` without `j`. */
  function Retain(q: seq<nat>, j: nat): seq<nat> {
    if q == [] then [] else (if q[0] != j then [q[0]] else []) + Retain(q[1..], j)
  }

  /** Addresses that are still held: the cache's and those of outstanding tickets. */
  predicate Held(s: System, a: Addr) {
    || (s.cache.Some? && s.cache.value.generation == a)
    || (exists j | j in s.jobs :: s.jobs[j].ticket.Some? && s.jobs[j].ticket.value.miss.generation == a)
    || (exists w | 0 <= w < |s.workers| :: s.workers[w].Busy? && s.workers[w].ticket.Some?
                                          && s.workers[w].ticket.value.miss.generation == a)
  }

  predicate Enabled(s: System, step: Step) {
    match step
    case Begin(j, _, _, _) => !s.shutdown && j !in s.jobs
    case Enqueue(j) => j in s.jobs && s.jobs[j].phase == Calling
    case Notify(w) =>
      && s.notifies > 0
      && (w.Some? ==> w.value < |s.workers| && s.workers[w.value].Waiting?)
      && (w.None? ==> forall i | 0 <= i < |s.workers| :: !s.workers[i].Waiting?)
    case Poll(j) => j in s.jobs && Pending(s.jobs[j])
    case Drop(j) => j in s.jobs && s.jobs[j].phase in {Queued, Running, Done} && !s.jobs[j].dropped
    case Raise(j) => j in s.jobs
    case Pick(w) => w < |s.workers| && s.workers[w].Awake?
    case Finish(w, _) => w < |s.workers| && s.workers[w].Busy? && s.workers[w].job in s.jobs
    case Wake(w) => w < |s.workers| && s.workers[w].Waking?
    case Spurious(w) => w < |s.workers| && s.workers[w].Waiting?
    case ClearCache(a) => s.cache.Some? && !Held(s, a)
    case EraseHandle(_, a) => s.cache.Some? && !Held(s, a)
    // Futures borrow the backend, so it is not dropped while one lives.
    case Shutdown => forall j | j in s.jobs :: s.jobs[j].phase != Calling && (s.jobs[j].phase == Never || s.jobs[j].dropped)
  }

  function TakeStep(s: System, step: Step): System
    requires Enabled(s, step)
  {
    Tick(match step
         case Begin(j, p, r, raised) => BeginCall(s, j, p, r, raised)
         case Enqueue(j) => EnqueueJob(s, j)
         case Notify(w) =>
           var t := s.(notifies := s.notifies - 1);
           if w.Some? then Set(t, w.value, Awake) else t
         case Poll(j) => Noted(PollJob(s, j), j)
         case Drop(j) => DropJob(s, j)
         case Raise(j) => Put(s, j, s.jobs[j].(raised := true, asleep := false))
         case Pick(w) => PickJob(s, w)
         case Finish(w, other) => FinishJob(s, w, other)
         case Wake(w) =>
           var j := s.workers[w].job;
           Set(if j in s.jobs then Put(s, j, s.jobs[j].(asleep := false)) else s, w, Awake)
         case Spurious(w) => Set(s, w, Awake)
         case ClearCache(a) =>
           s.(cache := Some(Clear(s.cache.value, a)), cleared := s.now, invalidated := s.now)
         case EraseHandle(p, a) =>
           s.(cache := Some(ErasePrincipal(s.cache.value, p, a)), erased := s.erased[p := s.now], invalidated := s.now)
         case Shutdown => s.(shutdown := true, workers := AllAwake(s.workers)))
  }

  /** Notes whether a poll reported anything; if not, its task sleeps. */
  function Noted(s: System, j: nat): System
    requires j in s.jobs
  { Put(s, j, s.jobs[j].(asleep := s.jobs[j].reported.None?)) }

  /** Notifies every waiting worker. */
  function AllAwake(ws: seq<Worker>): (r: seq<Worker>)
    ensures |r| == |ws|
    ensures forall i | 0 <= i < |ws| :: r[i] == if ws[i].Waiting? then Awake else ws[i]
  {
    seq(|ws|, i requires 0 <= i < |ws| => if ws[i].Waiting? then Awake else ws[i])
  }

  /** `infer` up to the cache: a hit reports at once, a miss goes on to the queue. */
  function BeginCall(s: System, j: nat, p: Handle, r: Request, raised: bool): System {
    var units := s.config.perCall + s.config.perToken * |r.ids|;
    var job := NewJob(p, r, units).(phase := Calling, raised := raised);
    match s.cache
    case None => Put(s, j, job)
    case Some(c) =>
      var (d, found) := Lookup(c, KeyFor(c, p, r.ids, r.mask));
      var t := s.(cache := Some(d));
      match found
      case Hit(e) =>
        Put(t, j, NewJob(p, r, units).(hit := true,
                                       reported := Some(ReportOf(FromCache(s.config.f, r.head, e), s.config.perCall, false))))
      case Miss(miss) =>
        Put(t, j, job.(ticket := Some(Ticket(miss, s.now))))
  }

  /** `infer` at the queue: refused when every slot is taken. */
  function EnqueueJob(s: System, j: nat): System
    requires j in s.jobs
  {
    var job := s.jobs[j];
    if s.running + |s.queue| == s.config.capacity then
      Put(s, j, job.(phase := Never, ticket := None,
                     reported := Some(ReportOf(Bad(Overloaded, "embed:queue_full:workers"), 0, false))))
    else
      Put(s, j, job.(phase := Queued)).(queue := s.queue + [j], notifies := s.notifies + 1)
  }

  /** A job after its future is polled: it reports its result, or its cancellation, or leaves a
      waker to be woken by. */
  function Polled(job: Job): Job {
    if job.result.Some? then
      job.(result := None,
           reported := Some(ReportOf(job.result.value, if job.hasRequest then 0 else job.units, job.raised)))
    else if job.raised then
      var running := job.phase == Running;
      job.(abandoned := true, waker := false,
           reported := Some(CancelledReport(if running then job.units else 0, running)))
    else job.(waker := true)
  }

  /** The cases of a poll. */
  lemma PolledIs(job: Job)
    ensures job.result.Some? ==>
              Polled(job) == job.(result := None,
                                  reported := Some(ReportOf(job.result.value, if job.hasRequest then 0 else job.units, job.raised)))
    ensures job.result.None? && job.raised ==>
              var running := job.phase == Running;
              Polled(job) == job.(abandoned := true, waker := false,
                                  reported := Some(CancelledReport(if running then job.units else 0, running)))
    ensures job.result.None? && !job.raised ==> Polled(job) == job.(waker := true)
  {
    hide ReportOf, CancelledReport;
  }

  function PollJob(s: System, j: nat): System
    requires j in s.jobs
  {
    var job := s.jobs[j];
    Put(s, j, Polled(job)).(queue := if job.result.None? && job.raised then Retain(s.queue, j) else s.queue)
  }

  /** The future goes away, and with it a job that no worker runs; raising its signal is a step
      of its own. */
  function DropJob(s: System, j: nat): System
    requires j in s.jobs
  {
    Put(s, j, s.jobs[j].(abandoned := true, result := None, ticket := None, waker := false, dropped := true))
    .(queue := Retain(s.queue, j))
  }

  /** A worker with the lock: exits, waits, answers a cancelled job or starts one. */
  function PickJob(s: System, w: nat): System
    requires w < |s.workers|
  {
    if s.shutdown then Set(s, w, Exited)
    else if s.queue == [] then Set(s, w, Waiting)
    else
      var j := s.queue[0];
      if j !in s.jobs then s
      else
        var job := s.jobs[j];
        var t := s.(queue := s.queue[1..]);
        if job.raised then
          Set(Put(t, j, job.(phase := Done, result := Some(Bad(Failure.Cancelled, "embed:cancelled:queue")), waker := false)),
              w, if job.waker then Waking(j) else Awake)
        else
          Set(Put(t, j, job.(phase := Running, hasRequest := false, ticket := None, started := true)),
              w, Busy(j, job.ticket)).(running := s.running + 1)
  }

  /** A run ends: its embedding is offered to the cache and its result to the waiter. */
  function FinishJob(s: System, w: nat, other: Output): System
    requires w < |s.workers| && s.workers[w].Busy? && s.workers[w].job in s.jobs
  {
    var j := s.workers[w].job;
    var job := s.jobs[j];
    var f := s.config.f;
    var output := if job.raised then other else Direct(f, job.request);
    var t := if output.Good? then Offer(s, job, s.workers[w].ticket) else s;
    Set(Put(t, j, job.(phase := Done, waker := false,
                       result := if job.abandoned then job.result else Some(output))),
        w, if job.waker then Waking(j) else Awake)
    .(running := if s.running > 0 then s.running - 1 else 0)
  }

  /** What the finished run of `job` leaves in the cache. A run whose signal was raised is
      offered as cancelled, so what it computed does not matter. */
  function Offer(s: System, job: Job, ticket: Option<Ticket>): System {
    if s.cache.None? || ticket.None? then s
    else
      var outcome := if job.abandoned || job.raised then RunOutcome.Cancelled else Completed;
      var e := match Pooled(s.config.f, job.request.ids, job.request.mask) case None => [] case Some(e) => e;
      var (d, admitted) := Admit(s.cache.value, ticket.value.miss, e, outcome);
      var t := s.(cache := Some(d));
      if admitted then t.(born := s.born[ticket.value.miss.key := ticket.value.issued]) else t
  }
}
