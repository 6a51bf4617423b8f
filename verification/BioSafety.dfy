/** What every interleaving of the background workers keeps (src/bio.c). */
module BioSafety {
  import opened BioWorkers
  import opened Options

  function Count(jobs: seq<Job>, k: Kind): nat
    decreases |jobs|
  {
    if jobs == [] then 0 else Count(jobs[..|jobs| - 1], k) + if jobs[|jobs| - 1].kind == k then 1 else 0
  }

  /** Is the client inside the critical section of this worker? */
  predicate HoldsAt(pc: ClientPc, w: Worker) {
    match pc
    case SubmitHolds(job) => WorkerOf(job.kind) == w
    case Listed(job) => WorkerOf(job.kind) == w
    case Counted(job) => WorkerOf(job.kind) == w
    case DrainHolds(w', _) => w' == w
    case AskHolds(kind) => WorkerOf(kind) == w
    case _ => false
  }

  /** By how much the counter of a kind is off while somebody is in the middle of an update. */
  function Off(s: State, w: Worker, k: Kind): int
    requires |s.queues| == 3
  {
    match s.queues[w].mutex
    case None => 0
    case Some(TheWorker) => if s.queues[w].pc.Unlisted? && s.queues[w].pc.job.kind == k then 1 else 0
    case Some(AClient(c)) => if PcOf(s, c).Listed? && PcOf(s, c).job.kind == k then -1 else 0
  }

  ghost predicate JobsOk(w: Worker, q: Queue) {
    && q.submitted == q.finished + q.jobs
    && (forall j :: j in q.jobs ==> WorkerOf(j.kind) == w)
    && (q.pc.Running? || q.pc.Processed? || q.pc.Relocked? ==> q.jobs != [] && q.jobs[0] == q.pc.job)
    && (q.pc.Unlisted? ==> WorkerOf(q.pc.job.kind) == w)
  }

  ghost predicate MutexOk(s: State, w: Worker)
    requires |s.queues| == 3
  {
    var q := s.queues[w];
    && (q.mutex == Some(TheWorker) <==> q.pc.Holding? || q.pc.Relocked? || q.pc.Unlisted?)
    && (forall c :: q.mutex == Some(AClient(c)) <==> HoldsAt(PcOf(s, c), w))
  }

  ghost predicate CounterOk(s: State, w: Worker)
    requires |s.queues| == 3
  {
    forall k :: WorkerOf(k) == w ==> Counter(s, k) == Count(s.queues[w].jobs, k) + Off(s, w, k)
  }

  ghost predicate QueueOk(s: State, w: Worker)
    requires |s.queues| == 3
  {
    JobsOk(w, s.queues[w]) && MutexOk(s, w) && CounterOk(s, w)
  }

  /** Drains returned late enough, answers were exact, and a drain knows no more jobs than there are. */
  ghost predicate EventsOk(s: State)
    requires |s.queues| == 3
  {
    && (forall d :: d in s.drained ==> d.before <= |s.queues[d.w].finished|)
    && (forall a :: a in s.answers ==> a.value == Count(a.jobs, a.kind))
    && (forall c :: PcOf(s, c).Draining? || PcOf(s, c).DrainHolds? ==>
          PcOf(s, c).before <= |s.queues[PcOf(s, c).w].submitted|)
  }

  ghost predicate Inv(s: State)
    requires |s.queues| == 3
  {
    QueueOk(s, 0) && QueueOk(s, 1) && QueueOk(s, 2) && EventsOk(s)
  }

  lemma CountMore(jobs: seq<Job>, j: Job, k: Kind)
    ensures Count(jobs + [j], k) == Count(jobs, k) + if j.kind == k then 1 else 0
  {
    assert (jobs + [j])[..|jobs|] == jobs;
  }

  lemma {:induction false} CountLess(jobs: seq<Job>, k: Kind)
    requires jobs != []
    ensures Count(jobs[1..], k) == Count(jobs, k) - if jobs[0].kind == k then 1 else 0
    decreases |jobs|
  {
    if |jobs| > 1 {
      CountLess(jobs[..|jobs| - 1], k);
      assert jobs[..|jobs| - 1][1..] == jobs[1..][..|jobs| - 2];
    }
  }

  // ---- Steps that concern one worker -------------------------------------------------------------------------

  /** Only worker w, the counters of its kinds, and perhaps client c have changed. */
  ghost predicate Local(s: State, s': State, w: Worker, c: Client)
    requires |s.queues| == |s'.queues| == 3
  {
    && (forall v: Worker :: v != w ==> s'.queues[v] == s.queues[v])
    && (forall k :: WorkerOf(k) != w ==> Counter(s', k) == Counter(s, k))
    && (forall d :: d != c ==> PcOf(s', d) == PcOf(s, d))
    && (PcOf(s', c) == PcOf(s, c)
        || forall v: Worker :: v != w ==> !HoldsAt(PcOf(s, c), v) && !HoldsAt(PcOf(s', c), v))
  }

  lemma OtherQueue(s: State, s': State, w: Worker, c: Client, v: Worker)
    requires |s.queues| == |s'.queues| == 3 && Local(s, s', w, c) && QueueOk(s, v) && v != w
    ensures QueueOk(s', v)
  {
    hide Count;
    forall k | WorkerOf(k) == v ensures Off(s', v, k) == Off(s, v, k) {
      if s.queues[v].mutex == Some(AClient(c)) { assert HoldsAt(PcOf(s, c), v); }
    }
    forall d ensures HoldsAt(PcOf(s', d), v) == HoldsAt(PcOf(s, d), v) {}
  }

  lemma InvFrom(s: State, s': State, w: Worker, c: Client)
    requires |s.queues| == |s'.queues| == 3 && Inv(s) && Local(s, s', w, c) && QueueOk(s', w) && EventsOk(s')
    ensures Inv(s')
  {
    hide QueueOk, EventsOk, Local;
    if w != 0 { OtherQueue(s, s', w, c, 0); }
    if w != 1 { OtherQueue(s, s', w, c, 1); }
    if w != 2 { OtherQueue(s, s', w, c, 2); }
  }

  lemma QueueOf(s: State, w: Worker)
    requires |s.queues| == 3 && Inv(s)
    ensures QueueOk(s, w) && EventsOk(s)
  {
  }

  ghost predicate KnowsNoMore(s: State, pc: ClientPc)
    requires |s.queues| == 3
  {
    pc.Draining? || pc.DrainHolds? ==> pc.before <= |s.queues[pc.w].submitted|
  }

  /** Nothing returned or answered; histories only grow. */
  lemma EventsKept(s: State, s': State, c: Client)
    requires |s.queues| == |s'.queues| == 3 && EventsOk(s) && s'.drained == s.drained && s'.answers == s.answers
    requires forall w: Worker :: |s.queues[w].finished| <= |s'.queues[w].finished|
    requires forall w: Worker :: |s.queues[w].submitted| <= |s'.queues[w].submitted|
    requires (forall d :: d != c ==> PcOf(s', d) == PcOf(s, d)) && KnowsNoMore(s', PcOf(s', c))
    ensures EventsOk(s')
  {
    hide Count;
  }

  /** Only the mutex of worker w and the place of client c change. */
  ghost predicate Moves(s: State, s': State, c: Client, w: Worker, mutex: Option<Thread>, pc: ClientPc)
    requires |s.queues| == |s'.queues| == 3
  {
    s' == s.(queues := s.queues[w := s.queues[w].(mutex := mutex)], clients := s.clients[c := pc])
  }

  lemma MovesLocal(s: State, s': State, c: Client, w: Worker, mutex: Option<Thread>, pc: ClientPc)
    requires |s.queues| == |s'.queues| == 3 && Moves(s, s', c, w, mutex, pc)
    requires forall v: Worker :: v != w ==> !HoldsAt(PcOf(s, c), v) && !HoldsAt(pc, v)
    ensures Local(s, s', w, c) && PcOf(s', c) == pc && (forall d :: d != c ==> PcOf(s', d) == PcOf(s, d))
  {
    hide HoldsAt;
  }

  /** Taking or giving back the mutex, away from the middle of an update. */
  lemma MovesQueue(s: State, s': State, c: Client, w: Worker, mutex: Option<Thread>, pc: ClientPc)
    requires |s.queues| == |s'.queues| == 3 && QueueOk(s, w) && Moves(s, s', c, w, mutex, pc)
    requires if mutex == None then !HoldsAt(pc, w) && HoldsAt(PcOf(s, c), w) && !PcOf(s, c).Listed?
             else mutex == Some(AClient(c)) && HoldsAt(pc, w) && !pc.Listed? && s.queues[w].mutex == None
    ensures QueueOk(s', w)
  {
    assert JobsOk(w, s'.queues[w]);
    hide Count;
    assert mutex == None ==> s.queues[w].mutex == Some(AClient(c));
    forall d ensures s'.queues[w].mutex == Some(AClient(d)) <==> HoldsAt(PcOf(s', d), w) {
      if d != c { assert PcOf(s', d) == PcOf(s, d); }
    }
    forall k | WorkerOf(k) == w ensures Off(s', w, k) == Off(s, w, k) {}
  }

  lemma MovesOk(s: State, s': State, c: Client, w: Worker, mutex: Option<Thread>, pc: ClientPc)
    requires |s.queues| == |s'.queues| == 3 && Inv(s) && Moves(s, s', c, w, mutex, pc)
    requires forall v: Worker :: v != w ==> !HoldsAt(PcOf(s, c), v) && !HoldsAt(pc, v)
    requires if mutex == None then !HoldsAt(pc, w) && HoldsAt(PcOf(s, c), w) && !PcOf(s, c).Listed?
             else mutex == Some(AClient(c)) && HoldsAt(pc, w) && !pc.Listed? && s.queues[w].mutex == None
    requires KnowsNoMore(s, pc)
    ensures Inv(s') && QueueOk(s', w) && EventsOk(s')
  {
    QueueOf(s, w);
    MovesLocal(s, s', c, w, mutex, pc);
    hide Inv, QueueOk, EventsOk, Local, HoldsAt;
    MovesQueue(s, s', c, w, mutex, pc);
    EventsKept(s, s', c);
    InvFrom(s, s', w, c);
  }

  // ---- Client steps ----------------------------------------------------------------------------------------------

  lemma OnlyAt(pc: ClientPc, w: Worker)
    requires HoldsAt(pc, w)
    ensures forall v: Worker :: v != w ==> !HoldsAt(pc, v)
  {
  }

  lemma LockOk(s: State, c: Client, w: Worker, pc: ClientPc)
    requires |s.queues| == 3 && Inv(s) && HoldsAt(pc, w) && !pc.Listed? && (forall v: Worker :: !HoldsAt(PcOf(s, c), v))
    requires KnowsNoMore(s, pc)
    ensures Inv(Lock(s, c, w, pc))
  {
    hide Inv, HoldsAt;
    OnlyAt(pc, w);
    if s.queues[w].mutex == None { MovesOk(s, Lock(s, c, w, pc), c, w, Some(AClient(c)), pc); }
  }

  lemma UnlockOk(s: State, c: Client, w: Worker, pc: ClientPc)
    requires |s.queues| == 3 && Inv(s) && HoldsAt(PcOf(s, c), w) && !PcOf(s, c).Listed?
    requires (forall v: Worker :: !HoldsAt(pc, v)) && KnowsNoMore(s, pc)
    ensures Inv(Unlock(s, c, w, pc)) && QueueOk(Unlock(s, c, w, pc), w) && EventsOk(Unlock(s, c, w, pc))
  {
    hide Inv, HoldsAt;
    OnlyAt(PcOf(s, c), w);
    MovesOk(s, Unlock(s, c, w, pc), c, w, None, pc);
  }

  /** A job goes to the tail of its queue. */
  lemma ListOk(s: State, c: Client, job: Job)
    requires |s.queues| == 3 && Inv(s) && PcOf(s, c) == SubmitHolds(job)
    ensures Inv(StepClient(s, c))
  {
    var w := WorkerOf(job.kind);
    var s' := StepClient(s, c);
    QueueOf(s, w);
    hide Inv;
    ListQueue(s, s', c, job);
    hide QueueOk, StepClient;
    assert Local(s, s', w, c) by { OnlyAt(SubmitHolds(job), w); OnlyAt(Listed(job), w); }
    EventsKept(s, s', c);
    InvFrom(s, s', w, c);
  }

  lemma ListQueue(s: State, s': State, c: Client, job: Job)
    requires |s.queues| == |s'.queues| == 3 && QueueOk(s, WorkerOf(job.kind)) && PcOf(s, c) == SubmitHolds(job)
             && s' == StepClient(s, c)
    ensures QueueOk(s', WorkerOf(job.kind))
    ensures PcOf(s', c) == Listed(job) && (forall d :: d != c ==> PcOf(s', d) == PcOf(s, d))
    ensures s'.drained == s.drained && s'.answers == s.answers && s'.counter == s.counter
    ensures forall v: Worker :: |s.queues[v].finished| <= |s'.queues[v].finished|
    ensures forall v: Worker :: |s.queues[v].submitted| <= |s'.queues[v].submitted|
    ensures forall v: Worker :: v != WorkerOf(job.kind) ==> s'.queues[v] == s.queues[v]
  {
    var w := WorkerOf(job.kind);
    var q, q' := s.queues[w], s'.queues[w];
    assert HoldsAt(PcOf(s, c), w) && q.mutex == Some(AClient(c));
    assert q.finished + q.jobs + [job] == q.finished + (q.jobs + [job]);
    assert JobsOk(w, q');
    assert MutexOk(s', w);
    forall k | WorkerOf(k) == w ensures Counter(s', k) == Count(q'.jobs, k) + Off(s', w, k) {
      CountMore(q.jobs, job, k);
    }
  }

  /** The counter catches up with the queue. */
  lemma CountOk(s: State, c: Client, job: Job)
    requires |s.queues| == 3 && Inv(s) && PcOf(s, c) == Listed(job)
    ensures Inv(StepClient(s, c))
  {
    var w := WorkerOf(job.kind);
    var s' := StepClient(s, c);
    QueueOf(s, w);
    hide Inv, Count;
    assert HoldsAt(PcOf(s, c), w) && s.queues[w].mutex == Some(AClient(c));
    assert PcOf(s', c) == Counted(job) && forall d :: d != c ==> PcOf(s', d) == PcOf(s, d);
    assert QueueOk(s', w) by {
      assert MutexOk(s', w);
      forall k | WorkerOf(k) == w ensures Counter(s', k) == Count(s'.queues[w].jobs, k) + Off(s', w, k) {}
    }
    assert Local(s, s', w, c) by { OnlyAt(Listed(job), w); OnlyAt(Counted(job), w); }
    EventsKept(s, s', c);
    InvFrom(s, s', w, c);
  }

  /** A drain that returns: the queue is empty, so every job ever queued is finished. */
  lemma DrainOk(s: State, c: Client, w: Worker, before: nat)
    requires |s.queues| == 3 && Inv(s) && PcOf(s, c) == DrainHolds(w, before)
    ensures Inv(StepClient(s, c))
  {
    QueueOf(s, w);
    assert KnowsNoMore(s, DrainHolds(w, before));
    if s.queues[w].jobs == [] {
      UnlockOk(s, c, w, Idle);
      var u := Unlock(s, c, w, Idle);
      DrainedOk(u, w, before);
    } else {
      UnlockOk(s, c, w, Draining(w, before));
    }
  }

  lemma DrainedOk(u: State, w: Worker, before: nat)
    requires |u.queues| == 3 && Inv(u) && u.queues[w].jobs == [] && before <= |u.queues[w].submitted|
    ensures Inv(u.(drained := u.drained + {Drained(w, before)}))
  {
    var s' := u.(drained := u.drained + {Drained(w, before)});
    QueueOf(u, w);
    assert u.queues[w].submitted == u.queues[w].finished;
    EventsFrame(u, s');
    hide Count, JobsOk;
    assert EventsOk(s');
  }

  /** Events are not part of a queue's agreement. */
  lemma EventsFrame(u: State, s': State)
    requires |u.queues| == 3 && Inv(u) && s' == u.(drained := s'.drained, answers := s'.answers)
    ensures QueueOk(s', 0) && QueueOk(s', 1) && QueueOk(s', 2)
  {
    QueueFrame(u, s', 0);
    QueueFrame(u, s', 1);
    QueueFrame(u, s', 2);
  }

  lemma QueueFrame(u: State, s': State, w: Worker)
    requires |u.queues| == |s'.queues| == 3 && QueueOk(u, w) && s'.queues[w] == u.queues[w]
    requires s'.counter == u.counter && forall c :: PcOf(s', c) == PcOf(u, c)
    ensures QueueOk(s', w)
  {
    hide Count, JobsOk, HoldsAt;
    forall k | WorkerOf(k) == w ensures Off(s', w, k) == Off(u, w, k) {}
  }

  /** An answer is exact: nobody is in the middle of an update. */
  lemma AskOk(s: State, c: Client, kind: Kind)
    requires |s.queues| == 3 && Inv(s) && PcOf(s, c) == AskHolds(kind)
    ensures Inv(StepClient(s, c))
  {
    var w := WorkerOf(kind);
    QueueOf(s, w);
    assert HoldsAt(PcOf(s, c), w) && s.queues[w].mutex == Some(AClient(c));
    assert Off(s, w, kind) == 0;
    UnlockOk(s, c, w, Idle);
    var u := Unlock(s, c, w, Idle);
    var s' := StepClient(s, c);
    EventsFrame(u, s');
    hide Count;
    assert EventsOk(s') by { assert EventsOk(u); }
  }

  lemma StepClientOk(s: State, c: Client)
    requires |s.queues| == 3 && Inv(s)
    ensures Inv(StepClient(s, c))
  {
    hide Inv, Lock, Unlock;
    match PcOf(s, c) {
      case Idle =>
      case Submitting(job) => LockOk(s, c, WorkerOf(job.kind), SubmitHolds(job));
      case SubmitHolds(job) => ListOk(s, c, job);
      case Listed(job) => CountOk(s, c, job);
      case Counted(job) => UnlockOk(s, c, WorkerOf(job.kind), Idle);
      case Draining(w, before) =>
        QueueOf(s, w);
        LockOk(s, c, w, DrainHolds(w, before));
      case DrainHolds(w, before) => DrainOk(s, c, w, before);
      case Asking(kind) => LockOk(s, c, WorkerOf(kind), AskHolds(kind));
      case AskHolds(kind) => AskOk(s, c, kind);
    }
  }

  /** A call begins: nothing shared changes. */
  lemma CallOk(s: State, c: Client, pc: ClientPc)
    requires |s.queues| == 3 && Inv(s) && PcOf(s, c) == Idle && (forall v: Worker :: !HoldsAt(pc, v))
             && KnowsNoMore(s, pc)
    ensures Inv(WithPc(s, c, pc))
  {
    var s' := WithPc(s, c, pc);
    CallQueue(s, s', c, pc, 0);
    CallQueue(s, s', c, pc, 1);
    CallQueue(s, s', c, pc, 2);
    hide QueueOk;
    EventsKept(s, s', c);
  }

  lemma CallQueue(s: State, s': State, c: Client, pc: ClientPc, w: Worker)
    requires |s.queues| == 3 && QueueOk(s, w) && PcOf(s, c) == Idle && !HoldsAt(pc, w) && s' == WithPc(s, c, pc)
    ensures QueueOk(s', w)
  {
    hide Count, JobsOk;
    assert s.queues[w].mutex != Some(AClient(c)) by { assert !HoldsAt(Idle, w); }
    forall k | WorkerOf(k) == w ensures Off(s', w, k) == Off(s, w, k) {}
    forall d ensures HoldsAt(PcOf(s', d), w) == HoldsAt(PcOf(s, d), w) {}
  }

  // ---- Worker steps ---------------------------------------------------------------------------------------------

  /** A worker step changes its own queue, its counters and perhaps the pending offset. */
  lemma WorkerQueue(s: State, w: Worker, fsyncOk: bool)
    requires |s.queues| == 3 && QueueOk(s, w)
    ensures QueueOk(StepWorker(s, w, fsyncOk), w)
  {
    var q, s' := s.queues[w], StepWorker(s, w, fsyncOk);
    assert forall c :: PcOf(s', c) == PcOf(s, c);
    match q.pc {
      case Unlisted(job) => WorkerUncounts(s, w, job);
      case Relocked(job) => WorkerDeletes(s, w, job);
      case _ => WorkerMoves(s, s', w);
    }
  }

  /** The worker only takes or leaves the mutex, away from the middle of an update. */
  lemma WorkerMoves(s: State, s': State, w: Worker)
    requires |s.queues| == |s'.queues| == 3 && QueueOk(s, w) && s'.counter == s.counter && s'.clients == s.clients
    requires var q, q' := s.queues[w], s'.queues[w];
             && q' == q.(mutex := q'.mutex, pc := q'.pc) && JobsOk(w, q')
             && !q.pc.Unlisted? && !q'.pc.Unlisted?
             && (q'.mutex == q.mutex || (!q.mutex.Some? || q.mutex.value.TheWorker?))
             && (q'.mutex == q.mutex || !q'.mutex.Some? || q'.mutex.value.TheWorker?)
             && (q'.mutex == Some(TheWorker) <==> q'.pc.Holding? || q'.pc.Relocked?)
    ensures QueueOk(s', w)
  {
    hide Count, HoldsAt, JobsOk;
    assert forall c :: PcOf(s', c) == PcOf(s, c);
    forall k | WorkerOf(k) == w ensures Off(s', w, k) == Off(s, w, k) {}
  }

  lemma WorkerDeletes(s: State, w: Worker, job: Job)
    requires |s.queues| == 3 && QueueOk(s, w) && s.queues[w].pc == Relocked(job)
    ensures QueueOk(StepWorker(s, w, false), w) && StepWorker(s, w, true) == StepWorker(s, w, false)
  {
    var q, s' := s.queues[w], StepWorker(s, w, false);
    hide HoldsAt;
    assert q.jobs == [job] + q.jobs[1..];
    assert q.finished + q.jobs == q.finished + [job] + q.jobs[1..];
    assert JobsOk(w, s'.queues[w]);
    assert forall c :: PcOf(s', c) == PcOf(s, c);
    forall k | WorkerOf(k) == w ensures Counter(s', k) == Count(s'.queues[w].jobs, k) + Off(s', w, k) {
      CountLess(q.jobs, k);
    }
  }

  lemma WorkerUncounts(s: State, w: Worker, job: Job)
    requires |s.queues| == 3 && QueueOk(s, w) && s.queues[w].pc == Unlisted(job)
    ensures QueueOk(StepWorker(s, w, false), w) && StepWorker(s, w, true) == StepWorker(s, w, false)
  {
    var s' := StepWorker(s, w, false);
    hide HoldsAt, Count;
    assert forall c :: PcOf(s', c) == PcOf(s, c);
    forall k | WorkerOf(k) == w ensures Counter(s', k) == Count(s'.queues[w].jobs, k) + Off(s', w, k) {}
  }

  lemma WorkerFrame(s: State, w: Worker, fsyncOk: bool)
    requires |s.queues| == 3 && JobsOk(w, s.queues[w])
    ensures var s' := StepWorker(s, w, fsyncOk);
            && |s'.queues| == 3 && s'.clients == s.clients && s'.drained == s.drained && s'.answers == s.answers
            && (forall v: Worker :: v != w ==> s'.queues[v] == s.queues[v])
            && (forall k :: WorkerOf(k) != w ==> Counter(s', k) == Counter(s, k))
            && |s.queues[w].finished| <= |s'.queues[w].finished| && s'.queues[w].submitted == s.queues[w].submitted
  {
  }

  lemma StepWorkerOk(s: State, w: Worker, fsyncOk: bool)
    requires |s.queues| == 3 && Inv(s)
    ensures Inv(StepWorker(s, w, fsyncOk))
  {
    hide Inv, StepWorker, HoldsAt;
    var s' := StepWorker(s, w, fsyncOk);
    QueueOf(s, w);
    WorkerFrame(s, w, fsyncOk);
    WorkerQueue(s, w, fsyncOk);
    hide QueueOk;
    assert Local(s, s', w, 0);
    hide Local;
    assert forall c :: PcOf(s', c) == PcOf(s, c);
    assert KnowsNoMore(s', PcOf(s', 0)) by { assert KnowsNoMore(s, PcOf(s, 0)); }
    EventsKept(s, s', 0);
    InvFrom(s, s', w, 0);
  }

  // ---- Runs -------------------------------------------------------------------------------------------------------

  lemma ApplyOk(s: State, step: Step)
    requires |s.queues| == 3 && Inv(s)
    ensures Inv(Apply(s, step))
  {
    hide Inv, StepClient, StepWorker;
    match step {
      case Submit(c, job) => if PcOf(s, c) == Idle { CallOk(s, c, Submitting(job)); }
      case Drain(c, w) => if PcOf(s, c) == Idle { CallOk(s, c, Draining(w, |s.queues[w].submitted|)); }
      case Ask(c, kind) => if PcOf(s, c) == Idle { CallOk(s, c, Asking(kind)); }
      case ClientStep(c) => StepClientOk(s, c);
      case WorkerStep(w, fsyncOk) => StepWorkerOk(s, w, fsyncOk);
      case Store(offset) => StoreOk(s, offset);
    }
  }

  lemma StoreOk(s: State, offset: int)
    requires |s.queues| == 3 && Inv(s)
    ensures Inv(Apply(s, Store(offset)))
  {
    var s' := Apply(s, Store(offset));
    assert forall c :: PcOf(s', c) == PcOf(s, c);
    QueueFrame(s, s', 0);
    QueueFrame(s, s', 1);
    QueueFrame(s, s', 2);
    hide QueueOk, Count;
  }

  lemma StartOk(pending: int)
    ensures Inv(Start(pending))
  {
    var s := Start(pending);
    assert forall c :: PcOf(s, c) == Idle;
    assert forall k :: Counter(s, k) == 0 && Count([], k) == 0;
  }

  /** Every state of every interleaving agrees with itself. */
  lemma {:induction false} RunOk(pending: int, steps: seq<Step>)
    ensures Inv(Run(Start(pending), steps))
    decreases |steps|
  {
    hide Inv, Apply;
    if steps == [] {
      StartOk(pending);
    } else {
      RunOk(pending, steps[..|steps| - 1]);
      ApplyOk(Run(Start(pending), steps[..|steps| - 1]), steps[|steps| - 1]);
    }
  }

  // ---- Results --------------------------------------------------------------------------------------------

  /** When nobody is inside the critical section, each counter is the number of queued and running jobs of its kind. */
  lemma CountersExact(pending: int, steps: seq<Step>, k: Kind)
    ensures var s := Run(Start(pending), steps);
            var q := s.queues[WorkerOf(k)];
            && (q.mutex == None ==> Counter(s, k) == Count(q.jobs, k))
            && (q.pc.Running? ==> q.jobs != [] && q.jobs[0] == q.pc.job)
            && (forall a :: a in s.answers ==> a.value == Count(a.jobs, a.kind))
  {
    RunOk(pending, steps);
    QueueOf(Run(Start(pending), steps), WorkerOf(k));
    hide Run;
  }

  /** A drain has returned only after every job queued before it was called has been finished, in order. */
  lemma DrainsFinish(pending: int, steps: seq<Step>, d: Drained)
    requires d in Run(Start(pending), steps).drained
    ensures var q := Run(Start(pending), steps).queues[d.w];
            d.before <= |q.finished| && q.finished <= q.submitted
  {
    RunOk(pending, steps);
    QueueOf(Run(Start(pending), steps), d.w);
    hide Run;
  }

  lemma RunNext(s: State, steps: seq<Step>, a: Step)
    requires |s.queues| == 3
    ensures Run(s, steps + [a]) == Apply(Run(s, steps), a)
  {
    hide Apply;
    assert (steps + [a])[..|steps|] == steps;
  }

  // Whole calls by a thread that nobody interrupts, from a state with the mutex free.

  /** bioPendingJobsOfType: the counter is reported and nothing else changes. */
  lemma AskInFull(s: State, c: Client, k: Kind)
    requires |s.queues| == 3 && PcOf(s, c) == Idle && s.queues[WorkerOf(k)].mutex == None
    ensures var t := StepClient(StepClient(Apply(s, Ask(c, k)), c), c);
            && t.answers == s.answers + {Answer(k, Counter(s, k), s.queues[WorkerOf(k)].jobs)}
            && t.queues == s.queues && t.counter == s.counter && PcOf(t, c) == Idle
  {
  }

  /** bioDrainWorker: it returns if the queue is empty, else it waits on for the jobs it found. */
  lemma DrainInFull(s: State, c: Client, w: Worker)
    requires |s.queues| == 3 && PcOf(s, c) == Idle && s.queues[w].mutex == None
    ensures var t, before := StepClient(StepClient(Apply(s, Drain(c, w)), c), c), |s.queues[w].submitted|;
            && t.queues == s.queues
            && if s.queues[w].jobs == [] then t.drained == s.drained + {Drained(w, before)} && PcOf(t, c) == Idle
               else t.drained == s.drained && PcOf(t, c) == Draining(w, before)
  {
  }

  /** bioSubmitJob: the job is last in its worker's queue and counted. */
  lemma SubmitInFull(s: State, c: Client, job: Job)
    requires |s.queues| == 3 && PcOf(s, c) == Idle && s.queues[WorkerOf(job.kind)].mutex == None
    ensures var q := s.queues[WorkerOf(job.kind)];
            var t := StepClient(StepClient(Apply(s, Submit(c, job)), c), c);
            var u := StepClient(StepClient(t, c), c);
            && u.queues == s.queues[WorkerOf(job.kind) := q.(jobs := q.jobs + [job], submitted := q.submitted + [job])]
            && u.counter == s.counter[job.kind := Counter(s, job.kind) + 1] && PcOf(u, c) == Idle
  {
    var t := StepClient(StepClient(Apply(s, Submit(c, job)), c), c);
    assert PcOf(t, c) == Listed(job);
  }

  /** In every state of every run, a question asked with the mutex free is answered by the exact number of jobs. */
  lemma AskingAnswers(pending: int, steps: seq<Step>, c: Client, k: Kind)
    requires var s := Run(Start(pending), steps); PcOf(s, c) == Idle && s.queues[WorkerOf(k)].mutex == None
    ensures var s := Run(Start(pending), steps);
            var t := Run(Start(pending), steps + [Ask(c, k)] + [ClientStep(c)] + [ClientStep(c)]);
            var jobs := s.queues[WorkerOf(k)].jobs;
            t.answers == s.answers + {Answer(k, Count(jobs, k), jobs)}
  {
    var s, ask, go := Run(Start(pending), steps), Ask(c, k), ClientStep(c);
    CountersExact(pending, steps, k);
    AskInFull(s, c, k);
    RunNext(Start(pending), steps, ask);
    RunNext(Start(pending), steps + [ask], go);
    RunNext(Start(pending), steps + [ask] + [go], go);
    hide Run, Start, StepClient;
  }

  // ---- The pending offset ----------------------------------------------------------------------------------------

  /** Offsets that never decrease and start no lower than the first value. */
  ghost predicate Rising(first: int, offsets: seq<int>) {
    && (forall i :: 0 <= i < |offsets| ==> first <= offsets[i])
    && (forall i, j :: 0 <= i < j < |offsets| ==> offsets[i] <= offsets[j])
  }

  function Top(first: int, offsets: seq<int>): int { if offsets == [] then first else offsets[|offsets| - 1] }

  /** The jobs of the AOF worker whose offset is still to be stored. */
  function Unstored(q: Queue): seq<Job> {
    if (q.pc.Processed? || q.pc.Relocked?) && q.jobs != [] then q.jobs[1..] else q.jobs
  }

  ghost predicate Sorted(jobs: seq<Job>, top: int) {
    && (forall i :: 0 <= i < |jobs| ==> jobs[i].offset <= top)
    && (forall i, j :: 0 <= i < j < |jobs| ==> jobs[i].offset <= jobs[j].offset)
  }

  /** May the main thread store this offset: no job that is still to be stored has a smaller one. */
  ghost predicate SafeStore(s: State, offset: int)
    requires |s.queues| == 3
  {
    forall j :: j in Unstored(s.queues[1]) ==> offset <= j.offset
  }

  /** What a step does to the jobs still to be stored, the offsets and the pending offset. */
  datatype Change = Nothing | Queued(job: Job) | Stored(fsynced: bool) | Main(offset: int)

  ghost predicate Changes(s: State, s': State, ch: Change)
    requires |s.queues| == |s'.queues| == 3
  {
    var u, u' := Unstored(s.queues[1]), Unstored(s'.queues[1]);
    match ch
    case Nothing => u' == u && s'.offsets == s.offsets && s'.pending == s.pending
    case Queued(j) => u' == u + [j] && s'.offsets == s.offsets + [j.offset] && s'.pending == s.pending
    case Stored(fsynced) =>
      u != [] && u' == u[1..] && s'.offsets == s.offsets && s'.pending == if fsynced then u[0].offset else s.pending
    case Main(offset) => u' == u && s'.offsets == s.offsets + [offset] && s'.pending == offset
  }

  lemma WorkerChanges(s: State, fsyncOk: bool) returns (ch: Change)
    requires |s.queues| == 3 && JobsOk(1, s.queues[1])
    ensures Changes(s, StepWorker(s, 1, fsyncOk), ch) && !ch.Main?
  {
    var q := s.queues[1];
    ch := if q.pc.Running? then Stored(fsyncOk) else Nothing;
    if q.pc.Running? { assert q.pc.job in q.jobs; }
  }

  lemma OtherWorker(s: State, w: Worker, fsyncOk: bool)
    requires |s.queues| == 3 && JobsOk(w, s.queues[w]) && w != 1
    ensures Changes(s, StepWorker(s, w, fsyncOk), Nothing)
  {
    if s.queues[w].pc.Running? { assert s.queues[w].pc.job in s.queues[w].jobs; }
  }

  lemma ClientChanges(s: State, c: Client) returns (ch: Change)
    requires |s.queues| == 3 && JobsOk(1, s.queues[1])
    ensures Changes(s, StepClient(s, c), ch) && !ch.Main?
  {
    var pc := PcOf(s, c);
    if pc.SubmitHolds? && WorkerOf(pc.job.kind) == 1 {
      ch := Queued(pc.job);
      ClientQueues(s, c, pc.job);
    } else {
      ch := Nothing;
      ClientLeaves(s, c);
    }
  }

  lemma ClientQueues(s: State, c: Client, job: Job)
    requires |s.queues| == 3 && JobsOk(1, s.queues[1]) && PcOf(s, c) == SubmitHolds(job) && WorkerOf(job.kind) == 1
    ensures Changes(s, StepClient(s, c), Queued(job))
  {
    var q := s.queues[1];
    if q.jobs != [] { assert (q.jobs + [job])[1..] == q.jobs[1..] + [job]; }
  }

  lemma ClientLeaves(s: State, c: Client)
    requires |s.queues| == 3 && !(PcOf(s, c).SubmitHolds? && WorkerOf(PcOf(s, c).job.kind) == 1)
    ensures Changes(s, StepClient(s, c), Nothing)
  {
    var s' := StepClient(s, c);
    assert s'.queues[1].jobs == s.queues[1].jobs && s'.queues[1].pc == s.queues[1].pc;
  }

  lemma StepChanges(s: State, step: Step) returns (ch: Change)
    requires |s.queues| == 3 && Inv(s)
    ensures Changes(s, Apply(s, step), ch) && (ch.Main? <==> step.Store?) && (ch.Main? ==> ch.offset == step.offset)
  {
    hide Changes, StepWorker, StepClient;
    QueueOf(s, 1);
    match step {
      case WorkerStep(w, fsyncOk) =>
        QueueOf(s, w);
        if w == 1 { ch := WorkerChanges(s, fsyncOk); } else { OtherWorker(s, w, fsyncOk); ch := Nothing; }
      case ClientStep(c) => ch := ClientChanges(s, c);
      case Store(offset) => ch := Main(offset); OtherSteps(s, step, ch);
      case _ => ch := Nothing; OtherSteps(s, step, ch);
    }
  }

  lemma OtherSteps(s: State, step: Step, ch: Change)
    requires |s.queues| == 3 && !step.WorkerStep? && !step.ClientStep?
    requires ch == if step.Store? then Main(step.offset) else Nothing
    ensures Changes(s, Apply(s, step), ch)
  {
  }

  // ---- The queue is in order, whatever the main thread stores ---------------------------------------------

  ghost predicate InOrder(s: State, first: int)
    requires |s.queues| == 3
  {
    Sorted(Unstored(s.queues[1]), Top(first, s.offsets))
  }

  lemma RisingPrefix(first: int, a: seq<int>, b: seq<int>)
    requires Rising(first, b) && a <= b
    ensures Rising(first, a)
  {
    assert forall i :: 0 <= i < |a| ==> a[i] == b[i];
  }

  lemma TopRises(first: int, a: seq<int>, o: int)
    requires Rising(first, a + [o])
    ensures Top(first, a) <= o && Top(first, a + [o]) == o
  {
    assert (a + [o])[|a|] == o;
    if a != [] { assert (a + [o])[|a| - 1] == a[|a| - 1]; }
  }

  lemma ChangeInOrder(s: State, s': State, first: int, ch: Change)
    requires |s.queues| == |s'.queues| == 3 && Changes(s, s', ch) && InOrder(s, first) && Rising(first, s'.offsets)
    ensures InOrder(s', first) && Rising(first, s.offsets) && Top(first, s.offsets) <= Top(first, s'.offsets)
  {
    assert s.offsets <= s'.offsets;
    RisingPrefix(first, s.offsets, s'.offsets);
    match ch {
      case Queued(j) => TopRises(first, s.offsets, j.offset);
      case Main(o) => TopRises(first, s.offsets, o);
      case _ =>
    }
  }

  lemma OffsetsGrow(s: State, s': State, ch: Change)
    requires |s.queues| == |s'.queues| == 3 && Changes(s, s', ch)
    ensures s.offsets <= s'.offsets
  {
  }

  lemma {:induction false} RunInOrder(first: int, steps: seq<Step>)
    requires Rising(first, Run(Start(first), steps).offsets)
    ensures InOrder(Run(Start(first), steps), first)
    decreases |steps|
  {
    if steps != [] {
      var most, last := steps[..|steps| - 1], steps[|steps| - 1];
      var s := Run(Start(first), most);
      RunOk(first, most);
      var ch := StepChanges(s, last);
      hide Apply, Changes, Inv, InOrder;
      OffsetsGrow(s, Apply(s, last), ch);
      RisingPrefix(first, s.offsets, Apply(s, last).offsets);
      RunInOrder(first, most);
      ChangeInOrder(s, Apply(s, last), first, ch);
    }
  }

  // ---- It never falls while the main thread's stores are safe ---------------------------------------------

  /** Every store of the main thread is safe when it happens. */
  ghost predicate SafeStores(first: int, steps: seq<Step>) {
    forall i :: 0 <= i < |steps| && steps[i].Store? ==> SafeStore(Run(Start(first), steps[..i]), steps[i].offset)
  }

  /** No job still to be stored is below the pending offset. */
  ghost predicate NoneBelow(s: State, first: int)
    requires |s.queues| == 3
  {
    SafeStore(s, s.pending) && s.pending <= Top(first, s.offsets)
  }

  lemma ChangeRises(s: State, s': State, first: int, ch: Change)
    requires |s.queues| == |s'.queues| == 3 && Changes(s, s', ch) && InOrder(s, first) && NoneBelow(s, first)
    requires Rising(first, s'.offsets) && (ch.Main? ==> SafeStore(s, ch.offset))
    ensures NoneBelow(s', first) && s.pending <= s'.pending
  {
    match ch {
      case Queued(j) => TopRises(first, s.offsets, j.offset);
      case Main(o) => TopRises(first, s.offsets, o);
      case Stored(fsynced) => assert Unstored(s.queues[1])[0] in Unstored(s.queues[1]);
      case Nothing =>
    }
  }

  lemma SafePrefix(first: int, steps: seq<Step>)
    requires steps != [] && SafeStores(first, steps)
    ensures SafeStores(first, steps[..|steps| - 1])
  {
    var most := steps[..|steps| - 1];
    forall i | 0 <= i < |most| && most[i].Store? ensures SafeStore(Run(Start(first), most[..i]), most[i].offset) {
      assert most[..i] == steps[..i];
    }
  }

  lemma {:induction false} RunNoneBelow(first: int, steps: seq<Step>)
    requires Rising(first, Run(Start(first), steps).offsets) && SafeStores(first, steps)
    ensures NoneBelow(Run(Start(first), steps), first)
    ensures steps != [] ==> Run(Start(first), steps[..|steps| - 1]).pending <= Run(Start(first), steps).pending
    ensures steps != [] ==> Rising(first, Run(Start(first), steps[..|steps| - 1]).offsets)
    decreases |steps|
  {
    if steps != [] {
      var most, last := steps[..|steps| - 1], steps[|steps| - 1];
      var s := Run(Start(first), most);
      RunOk(first, most);
      var ch := StepChanges(s, last);
      assert last.Store? ==> SafeStore(s, last.offset);
      SafePrefix(first, steps);
      hide Apply, Changes, Inv, InOrder, NoneBelow, SafeStores, SafeStore;
      OffsetsGrow(s, Apply(s, last), ch);
      RisingPrefix(first, s.offsets, Apply(s, last).offsets);
      RunNoneBelow(first, most);
      RunInOrder(first, most);
      ChangeRises(s, Apply(s, last), first, ch);
    }
  }

  /**
    With rising offsets and safe stores of the main thread the pending offset never falls, from any
    state of a run to any later one.
   */
  lemma {:induction false} PendingNeverFalls(first: int, steps: seq<Step>, i: nat)
    requires i <= |steps| && Rising(first, Run(Start(first), steps).offsets) && SafeStores(first, steps)
    ensures Run(Start(first), steps[..i]).pending <= Run(Start(first), steps).pending
    decreases |steps|
  {
    hide SafeStores, Rising;
    if i == |steps| {
      assert steps[..i] == steps;
    } else {
      var most := steps[..|steps| - 1];
      RunNoneBelow(first, steps);
      SafePrefix(first, steps);
      PendingNeverFalls(first, most, i);
      assert most[..i] == steps[..i];
    }
  }

  // ---- And it can fall after any store that is not --------------------------------------------------------

  /** How many steps the AOF worker, and the thread that keeps it from the mutex, are from the next store. */
  function WorkerDistance(pc: WorkerPc): nat {
    match pc
    case Running(_) => 0
    case Holding => 1
    case Waiting => 2
    case Unlisted(_) => 2
    case Relocked(_) => 3
    case Processed(_) => 4
  }

  function HolderDistance(s: State): nat
    requires |s.queues| == 3
  {
    match s.queues[1].mutex
    case Some(AClient(c)) => (match PcOf(s, c) case SubmitHolds(_) => 3 case Listed(_) => 2 case _ => 1)
    case _ => 0
  }

  /** The same job is next to be stored. */
  ghost predicate SameNext(s: State, s': State)
    requires |s.queues| == |s'.queues| == 3
  {
    var u, u' := Unstored(s.queues[1]), Unstored(s'.queues[1]);
    u != [] && u' != [] && u'[0] == u[0]
  }

  lemma WorkerNears(s: State)
    requires |s.queues| == 3 && QueueOk(s, 1) && Unstored(s.queues[1]) != [] && !s.queues[1].pc.Running?
    requires s.queues[1].mutex == None || !(s.queues[1].pc.Waiting? || s.queues[1].pc.Processed?)
    ensures var s' := StepWorker(s, 1, true);
            SameNext(s, s') && WorkerDistance(s'.queues[1].pc) < WorkerDistance(s.queues[1].pc)
  {
    hide Count, HoldsAt;
  }

  lemma HolderNears(s: State, c: Client)
    requires |s.queues| == 3 && Unstored(s.queues[1]) != []
    requires s.queues[1].mutex == Some(AClient(c)) && HoldsAt(PcOf(s, c), 1)
    ensures var s' := StepClient(s, c);
            SameNext(s, s') && s'.queues[1].pc == s.queues[1].pc && HolderDistance(s') < HolderDistance(s)
  {
    match PcOf(s, c) {
      case SubmitHolds(job) => HolderQueues(s, c, job);
      case _ =>
    }
  }

  lemma HolderQueues(s: State, c: Client, job: Job)
    requires |s.queues| == 3 && Unstored(s.queues[1]) != [] && WorkerOf(job.kind) == 1
    requires s.queues[1].mutex == Some(AClient(c)) && PcOf(s, c) == SubmitHolds(job)
    ensures var s' := StepClient(s, c);
            SameNext(s, s') && s'.queues[1].pc == s.queues[1].pc && HolderDistance(s') == 2
  {
    var q := s.queues[1];
    assert (q.jobs + [job])[1..] == q.jobs[1..] + [job];
  }

  lemma {:induction false} RunFirst(s: State, step: Step, more: seq<Step>)
    requires |s.queues| == 3
    ensures Run(s, [step] + more) == Run(Apply(s, step), more)
    decreases |more|
  {
    hide Apply;
    var steps := [step] + more;
    if more == [] {
      assert steps == [step] && [step][..0] == [];
      assert Run(s, []) == s && Run(Apply(s, step), []) == Apply(s, step);
    } else {
      RunFirst(s, step, more[..|more| - 1]);
      assert steps[..|steps| - 1] == [step] + more[..|more| - 1] && steps[|steps| - 1] == more[|more| - 1];
    }
  }

  /** From any state the threads can go on until the next job's offset is stored. */
  lemma {:induction false} NextStored(s: State) returns (more: seq<Step>)
    requires |s.queues| == 3 && Inv(s) && Unstored(s.queues[1]) != []
    ensures Run(s, more).pending == Unstored(s.queues[1])[0].offset
    ensures forall i :: 0 <= i < |more| ==> !more[i].Store?
    decreases WorkerDistance(s.queues[1].pc), HolderDistance(s)
  {
    QueueOf(s, 1);
    hide Inv, StepWorker, StepClient, HoldsAt, EventsOk;
    var q, step := s.queues[1], WorkerStep(1, true);
    if q.pc.Running? {
      RunningStores(s);
      more := [step];
      RunFirst(s, step, []);
      assert [step] + [] == [step];
    } else {
      if q.mutex == None || !(q.pc.Waiting? || q.pc.Processed?) {
        WorkerNears(s);
      } else {
        var c := q.mutex.value.c;
        step := ClientStep(c);
        HolderNears(s, c);
      }
      ApplyOk(s, step);
      var rest := NextStored(Apply(s, step));
      RunFirst(s, step, rest);
      more := [step] + rest;
    }
  }

  lemma RunningStores(s: State)
    requires |s.queues| == 3 && JobsOk(1, s.queues[1]) && s.queues[1].pc.Running?
    ensures StepWorker(s, 1, true).pending == Unstored(s.queues[1])[0].offset
  {
    assert s.queues[1].jobs[0] in s.queues[1].jobs;
  }

  lemma {:induction false} RunConcat(s: State, a: seq<Step>, b: seq<Step>)
    requires |s.queues| == 3
    ensures Run(s, a + b) == Run(Run(s, a), b)
    decreases |b|
  {
    hide Apply;
    if b == [] {
      assert a + b == a;
    } else {
      RunConcat(s, a, b[..|b| - 1]);
      assert (a + b)[..|a + b| - 1] == a + b[..|b| - 1] && (a + b)[|a + b| - 1] == b[|b| - 1];
    }
  }

  lemma HeadBelow(s: State, first: int, offset: int)
    requires |s.queues| == 3 && InOrder(s, first) && !SafeStore(s, offset)
    ensures Unstored(s.queues[1]) != [] && Unstored(s.queues[1])[0].offset < offset
  {
    var j :| j in Unstored(s.queues[1]) && j.offset < offset;
    assert Unstored(s.queues[1])[0].offset <= j.offset;
  }

  /** After a store that is not safe, some continuation without another store makes the pending offset fall below it. */
  lemma UnsafeStoreFalls(first: int, steps: seq<Step>, offset: int) returns (more: seq<Step>)
    requires Rising(first, Run(Start(first), steps).offsets) && !SafeStore(Run(Start(first), steps), offset)
    ensures Run(Start(first), steps + [Store(offset)]).pending == offset
    ensures Run(Start(first), steps + [Store(offset)] + more).pending < offset
    ensures forall i :: 0 <= i < |more| ==> !more[i].Store?
  {
    hide Inv, Run, InOrder, Rising, SafeStore, Unstored;
    var s := Run(Start(first), steps);
    RunInOrder(first, steps);
    HeadBelow(s, first, offset);
    RunOk(first, steps + [Store(offset)]);
    RunLast(Start(first), steps, Store(offset));
    more := NextStored(Run(Start(first), steps + [Store(offset)]));
    RunConcat(Start(first), steps + [Store(offset)], more);
  }

  lemma RunLast(s: State, steps: seq<Step>, step: Step)
    requires |s.queues| == 3
    ensures Run(s, steps + [step]) == Apply(Run(s, steps), step)
  {
    hide Apply;
    assert (steps + [step])[..|steps|] == steps;
  }

  /** A close job with offset 5 has been queued. */
  function CloseQueued(): seq<Step> { [Submit(0, Job(CloseAof, 5))] + [ClientStep(0)] + [ClientStep(0)] }

  lemma AfterCloseQueued()
    ensures Unstored(Run(Start(0), CloseQueued()).queues[1]) == [Job(CloseAof, 5)]
  {
    var a := [Submit(0, Job(CloseAof, 5))];
    assert a == [] + a && Run(Start(0), []) == Start(0);
    RunLast(Start(0), [], a[0]);
    RunLast(Start(0), a, ClientStep(0));
    RunLast(Start(0), a + [ClientStep(0)], ClientStep(0));
    hide Run;
    var s1 := Apply(Start(0), a[0]);
    assert PcOf(s1, 0) == Submitting(Job(CloseAof, 5)) && s1.queues == Start(0).queues;
    var s2 := StepClient(s1, 0);
    assert PcOf(s2, 0) == SubmitHolds(Job(CloseAof, 5)) && s2.queues[1].jobs == [] && s2.queues[1].pc == Waiting;
  }

  /** A close job of a rewrite is overtaken by the main thread's own fsync: 7 is stored first, then 5. */
  lemma OvertakenExample() returns (more: seq<Step>)
    ensures Run(Start(0), CloseQueued() + [Store(7)]).pending == 7
    ensures Run(Start(0), CloseQueued() + [Store(7)] + more).pending == 5
  {
    hide Run, Inv, CloseQueued;
    AfterCloseQueued();
    RunLast(Start(0), CloseQueued(), Store(7));
    RunOk(0, CloseQueued() + [Store(7)]);
    more := NextStored(Run(Start(0), CloseQueued() + [Store(7)]));
    RunConcat(Start(0), CloseQueued() + [Store(7)], more);
  }
}
