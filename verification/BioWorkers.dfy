/**
  Background jobs (src/bio.c): three workers, each with a queue under its own mutex, and any
  number of threads that submit jobs, wait for a queue to drain or ask for a count. Every access
  to shared state is a step of its own, so runs are all interleavings.
 */
module BioWorkers {
  import opened Options

  datatype Kind = CloseFile | AofFsync | CloseAof | LazyFree

  type Worker = w: nat | w < 3
  type Client = nat

  /** bio_job_to_worker: both kinds of AOF job go to one worker. */
  function WorkerOf(k: Kind): Worker {
    match k
    case CloseFile => 0
    case AofFsync => 1
    case CloseAof => 1
    case LazyFree => 2
  }

  datatype Job = Job(kind: Kind, offset: int)

  predicate IsAof(j: Job) { j.kind == AofFsync || j.kind == CloseAof }

  datatype Thread = TheWorker | AClient(c: Client)

  /** Where a worker is: with or without the mutex, and with which job. */
  datatype WorkerPc =
    | Waiting                  // before the mutex, at the start or in pthread_cond_wait
    | Holding                  // at the top of the loop
    | Running(job: Job)        // outside the mutex
    | Processed(job: Job)      // before the mutex again
    | Relocked(job: Job)
    | Unlisted(job: Job)       // out of the queue, not yet out of the counter

  datatype ClientPc =
    | Idle
    | Submitting(job: Job)
    | SubmitHolds(job: Job)
    | Listed(job: Job)         // in the queue, not yet in the counter
    | Counted(job: Job)
    | Draining(w: Worker, before: nat)
    | DrainHolds(w: Worker, before: nat)
    | Asking(kind: Kind)
    | AskHolds(kind: Kind)

  /** A worker with its queue, and the jobs ever queued and ever deleted from it. */
  datatype Queue = Queue(mutex: Option<Thread>, jobs: seq<Job>, pc: WorkerPc, submitted: seq<Job>, finished: seq<Job>)

  /** A drain that returned: how many jobs had been queued when it was called. */
  datatype Drained = Drained(w: Worker, before: nat)

  /** An answer of bioPendingJobsOfType, and the jobs in the queue when it was given. */
  datatype Answer = Answer(kind: Kind, value: int, jobs: seq<Job>)

  /**
    `pending` is fsynced_reploff_pending.  The last three fields are history: drains that returned,
    answers given, and the offsets of queued AOF jobs and of the main thread's own stores, in order.
   */
  datatype State = State(queues: seq<Queue>, counter: map<Kind, int>, clients: map<Client, ClientPc>, pending: int,
                         drained: set<Drained>, answers: set<Answer>, offsets: seq<int>)

  function Counter(s: State, k: Kind): int { if k in s.counter then s.counter[k] else 0 }
  function PcOf(s: State, c: Client): ClientPc { if c in s.clients then s.clients[c] else Idle }

  function WithQueue(s: State, w: Worker, q: Queue): State
    requires |s.queues| == 3
  {
    s.(queues := s.queues[w := q])
  }

  function WithPc(s: State, c: Client, pc: ClientPc): State { s.(clients := s.clients[c := pc]) }

  // ---- Steps ---------------------------------------------------------------------------------------------------

  datatype Step =
    | Submit(c: Client, job: Job)
    | Drain(c: Client, w: Worker)
    | Ask(c: Client, kind: Kind)
    | ClientStep(c: Client)
    | WorkerStep(w: Worker, fsyncOk: bool)
    | Store(offset: int)       // the main thread sets fsynced_reploff_pending itself

  function Lock(s: State, c: Client, w: Worker, pc: ClientPc): State
    requires |s.queues| == 3
  {
    var q := s.queues[w];
    if q.mutex == None then WithPc(WithQueue(s, w, q.(mutex := Some(AClient(c)))), c, pc) else s
  }

  function Unlock(s: State, c: Client, w: Worker, pc: ClientPc): State
    requires |s.queues| == 3
  {
    WithPc(WithQueue(s, w, s.queues[w].(mutex := None)), c, pc)
  }

  /** One step of a thread inside bioSubmitJob, bioDrainWorker or bioPendingJobsOfType. */
  function StepClient(s: State, c: Client): State
    requires |s.queues| == 3
  {
    match PcOf(s, c)
    case Idle => s
    case Submitting(job) => Lock(s, c, WorkerOf(job.kind), SubmitHolds(job))
    case SubmitHolds(job) =>
      var w := WorkerOf(job.kind);
      var q := s.queues[w];
      var t := WithQueue(s, w, q.(jobs := q.jobs + [job], submitted := q.submitted + [job]));
      WithPc(t, c, Listed(job)).(offsets := if IsAof(job) then s.offsets + [job.offset] else s.offsets)
    case Listed(job) => WithPc(s.(counter := s.counter[job.kind := Counter(s, job.kind) + 1]), c, Counted(job))
    case Counted(job) => Unlock(s, c, WorkerOf(job.kind), Idle)
    case Draining(w, before) => Lock(s, c, w, DrainHolds(w, before))
    case DrainHolds(w, before) =>
      if s.queues[w].jobs == [] then Unlock(s, c, w, Idle).(drained := s.drained + {Drained(w, before)})
      else Unlock(s, c, w, Draining(w, before))
    case Asking(kind) => Lock(s, c, WorkerOf(kind), AskHolds(kind))
    case AskHolds(kind) =>
      var w := WorkerOf(kind);
      Unlock(s, c, w, Idle).(answers := s.answers + {Answer(kind, Counter(s, kind), s.queues[w].jobs)})
  }

  /** One step of a worker's loop. */
  function StepWorker(s: State, w: Worker, fsyncOk: bool): State
    requires |s.queues| == 3
  {
    var q := s.queues[w];
    match q.pc
    case Waiting => if q.mutex == None then WithQueue(s, w, q.(mutex := Some(TheWorker), pc := Holding)) else s
    case Holding => WithQueue(s, w, q.(mutex := None, pc := if q.jobs == [] then Waiting else Running(q.jobs[0])))
    case Running(job) =>
      WithQueue(s, w, q.(pc := Processed(job))).(pending := if IsAof(job) && fsyncOk then job.offset else s.pending)
    case Processed(job) =>
      if q.mutex == None then WithQueue(s, w, q.(mutex := Some(TheWorker), pc := Relocked(job))) else s
    case Relocked(job) =>
      var rest := if q.jobs == [] then [] else q.jobs[1..];
      WithQueue(s, w, q.(jobs := rest, finished := q.finished + [job], pc := Unlisted(job)))
    case Unlisted(job) =>
      WithQueue(s, w, q.(pc := Holding)).(counter := s.counter[job.kind := Counter(s, job.kind) - 1])
  }

  function Apply(s: State, step: Step): (r: State)
    requires |s.queues| == 3
    ensures |r.queues| == 3
  {
    match step
    case Submit(c, job) => if PcOf(s, c) == Idle then WithPc(s, c, Submitting(job)) else s
    case Drain(c, w) => if PcOf(s, c) == Idle then WithPc(s, c, Draining(w, |s.queues[w].submitted|)) else s
    case Ask(c, kind) => if PcOf(s, c) == Idle then WithPc(s, c, Asking(kind)) else s
    case ClientStep(c) => StepClient(s, c)
    case WorkerStep(w, fsyncOk) => StepWorker(s, w, fsyncOk)
    case Store(offset) => s.(pending := offset, offsets := s.offsets + [offset])
  }

  function Run(s: State, steps: seq<Step>): (r: State)
    requires |s.queues| == 3
    ensures |r.queues| == 3
    decreases |steps|
  {
    if steps == [] then s else Apply(Run(s, steps[..|steps| - 1]), steps[|steps| - 1])
  }

  function Start(pending: int): (s: State)
    ensures |s.queues| == 3
  {
    var q := Queue(None, [], Waiting, [], []);
    State([q, q, q], map[], map[], pending, {}, {}, [])
  }
}
