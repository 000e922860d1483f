/**
 The worker pool of the stress tool: producers queueing jobs, workers, a closer, waiters and the
 reader of the error channel, as one transition system over the channels and the wait group.

 Channels follow the Go Language Specification ("Close", "Send statements", "Receive operator",
 "Select statements"): a send on a closed channel panics, a receive from a closed empty channel
 returns at once, and a select takes any of its ready cases.
 */
module WorkerPool {
  import opened Wrappers
  import opened Sums

  /** A call of `QueueJob`; producer number `p` queues job number `p`. */
  datatype Producer =
    | Called     // before the first select
    | Checked    // saw the pool open, about to Add
    | Added      // at the second select
    | Undoing    // chose the closed channel, about to undo the Add
    | Queued     // returned, job accepted
    | Refused    // returned, job not accepted

  datatype Worker =
    | Unborn     // not yet spawned by Start
    | Idle       // at the receive of the range loop
    | Running(job: nat)
    | Sending(job: nat)    // the job failed, about to send its error
    | Finishing(job: nat)  // about to call Done
    | Exited

  /** A call of `Close`. */
  datatype Closer =
    | Unclosed
    | ClosedClosed   // after close(closed)
    | ClosedJobs     // after close(jobs), waiting
    | Drained        // wait group seen at zero
    | ClosedErrs     // after close(errs)

  /** A call of `Wait`, with the jobs that had been accepted when it began. */
  datatype Waiter = Uncalled | Waiting(before: set<nat>) | Returned(before: set<nat>)

  datatype Panic = SendOnClosedJobs | SendOnClosedErrs | NegativeWaitGroup

  /** `accepted`, `ran`, `failed` and `delivered` record history. */
  datatype Pool = Pool(
    jobs: seq<nat>,
    jobsClosed: bool,
    errs: seq<nat>,
    errsClosed: bool,
    closed: bool,
    wg: int,
    producers: seq<Producer>,
    workers: seq<Worker>,
    closer: Closer,
    waiters: seq<Waiter>,
    panic: Option<Panic>,
    accepted: multiset<nat>,
    ran: multiset<nat>,
    failed: multiset<nat>,
    delivered: multiset<nat>)

  /** Both channels are made with room for one entry per worker. */
  function Capacity(s: Pool): nat {
    |s.workers|
  }

  function NewPool(workers: nat, producers: nat, waiters: nat): Pool {
    Pool([], false, [], false, false, 0,
         seq(producers, _ => Called), seq(workers, _ => Unborn), Unclosed, seq(waiters, _ => Uncalled), None,
         multiset{}, multiset{}, multiset{}, multiset{})
  }

  // ---------- the steps ----------

  datatype Label =
    | Check(p: nat) | Add(p: nat) | Send(p: nat) | SeeClosed(p: nat) | Undo(p: nat)
    | Spawn(w: nat) | Take(w: nat) | Exit(w: nat) | Run(w: nat, fails: bool) | SendErr(w: nat) | Finish(w: nat)
    | CloseClosed | CloseJobs | AwaitZero | CloseErrs
    | CallWait(q: nat) | WaitReturns(q: nat)
    | Read

  /** May this step be taken now? */
  predicate Enabled(s: Pool, l: Label) {
    && s.panic.None?
    && match l
       case Check(p) => p < |s.producers| && s.producers[p].Called?
       case Add(p) => p < |s.producers| && s.producers[p].Checked?
       case Send(p) => p < |s.producers| && s.producers[p].Added? && (s.jobsClosed || |s.jobs| < Capacity(s))
       case SeeClosed(p) => p < |s.producers| && s.producers[p].Added? && s.closed
       case Undo(p) => p < |s.producers| && s.producers[p].Undoing?
       case Spawn(w) => w < |s.workers| && s.workers[w].Unborn?
       case Take(w) => w < |s.workers| && s.workers[w].Idle? && s.jobs != []
       case Exit(w) => w < |s.workers| && s.workers[w].Idle? && s.jobs == [] && s.jobsClosed
       case Run(w, _) => w < |s.workers| && s.workers[w].Running?
       case SendErr(w) => w < |s.workers| && s.workers[w].Sending? && (s.errsClosed || |s.errs| < Capacity(s))
       case Finish(w) => w < |s.workers| && s.workers[w].Finishing?
       case CloseClosed => s.closer.Unclosed?
       case CloseJobs => s.closer.ClosedClosed?
       case AwaitZero => s.closer.ClosedJobs? && s.wg == 0
       case CloseErrs => s.closer.Drained?
       case CallWait(q) => q < |s.waiters| && s.waiters[q].Uncalled?
       case WaitReturns(q) => q < |s.waiters| && s.waiters[q].Waiting? && s.wg == 0
       case Read => s.errs != []
  }

  function WithProducer(s: Pool, p: nat, x: Producer): Pool
    requires p < |s.producers|
  {
    s.(producers := s.producers[p := x])
  }

  function WithWorker(s: Pool, w: nat, x: Worker): Pool
    requires w < |s.workers|
  {
    s.(workers := s.workers[w := x])
  }

  /** `wg.Done()`: below zero the wait group panics. */
  function Done(s: Pool): Pool {
    if s.wg == 0 then s.(panic := Some(NegativeWaitGroup)) else s.(wg := s.wg - 1)
  }

  function Apply(s: Pool, l: Label): Pool
    requires Enabled(s, l)
  {
    match l
    case Check(p) => WithProducer(s, p, if s.closed then Refused else Checked)
    case Add(p) => WithProducer(s.(wg := s.wg + 1), p, Added)
    case Send(p) =>
      if s.jobsClosed then s.(panic := Some(SendOnClosedJobs))
      else WithProducer(s.(jobs := s.jobs + [p], accepted := s.accepted + multiset{p}), p, Queued)
    case SeeClosed(p) => WithProducer(s, p, Undoing)
    case Undo(p) => WithProducer(Done(s), p, Refused)
    case Spawn(w) => WithWorker(s, w, Idle)
    case Take(w) => WithWorker(s.(jobs := s.jobs[1..]), w, Running(s.jobs[0]))
    case Exit(w) => WithWorker(s, w, Exited)
    case Run(w, fails) =>
      var job := s.workers[w].job;
      if fails then WithWorker(s.(ran := s.ran + multiset{job}, failed := s.failed + multiset{job}), w, Sending(job))
      else WithWorker(s.(ran := s.ran + multiset{job}), w, Finishing(job))
    case SendErr(w) =>
      if s.errsClosed then s.(panic := Some(SendOnClosedErrs))
      else WithWorker(s.(errs := s.errs + [s.workers[w].job]), w, Finishing(s.workers[w].job))
    case Finish(w) => WithWorker(Done(s), w, Idle)
    case CloseClosed => s.(closed := true, closer := ClosedClosed)
    case CloseJobs => s.(jobsClosed := true, closer := ClosedJobs)
    case AwaitZero => s.(closer := Drained)
    case CloseErrs => s.(errsClosed := true, closer := ClosedErrs)
    case CallWait(q) => s.(waiters := s.waiters[q := Waiting(set j | j in s.accepted)])
    case WaitReturns(q) => s.(waiters := s.waiters[q := Returned(s.waiters[q].before)])
    case Read => s.(errs := s.errs[1..], delivered := s.delivered + multiset{s.errs[0]})
  }

  /** The labels can be taken one after the other. */
  ghost predicate IsRun(s: Pool, labels: seq<Label>)
    decreases |labels|
  {
    labels != [] ==> Enabled(s, labels[0]) && IsRun(Apply(s, labels[0]), labels[1..])
  }

  ghost function After(s: Pool, labels: seq<Label>): Pool
    requires IsRun(s, labels)
    decreases |labels|
  {
    if labels == [] then s else After(Apply(s, labels[0]), labels[1..])
  }

  // ---------- what is in flight ----------

  /** One for a producer between its Add and the outcome of its select (undo included). */
  function Pending(p: Producer): nat {
    if p.Added? || p.Undoing? then 1 else 0
  }

  function Holding(w: Worker): nat {
    if w.Running? || w.Sending? || w.Finishing? then 1 else 0
  }

  /** The job a worker holds but has not run. */
  function Unrun(w: Worker): multiset<nat> {
    if w.Running? then multiset{w.job} else multiset{}
  }

  /** The job whose error a worker has still to send. */
  function Unsent(w: Worker): multiset<nat> {
    if w.Sending? then multiset{w.job} else multiset{}
  }

  // ---------- the invariant ----------

  /** The wait group counts the producers mid-queueing, the buffered jobs and the jobs being worked on. */
  ghost predicate Conserved(s: Pool) {
    s.wg == Total(s.producers, Pending) + |s.jobs| + Total(s.workers, Holding)
  }

  /** An accepted job is buffered, held unrun, or has run. */
  ghost predicate JobsConserved(s: Pool) {
    forall j: nat :: s.accepted[j] == Count(s.jobs, j) + Bag(s.workers, Unrun)[j] + s.ran[j]
  }

  /** The error of a failed job is with its worker, buffered, or read. */
  ghost predicate ErrorsConserved(s: Pool) {
    forall j: nat :: s.failed[j] == Count(s.errs, j) + Bag(s.workers, Unsent)[j] + s.delivered[j]
  }

  /** Every job is accepted at most once, and exactly when its producer returned with it queued. */
  ghost predicate AcceptedOnce(s: Pool) {
    forall j: nat :: s.accepted[j] == if j < |s.producers| && s.producers[j].Queued? then 1 else 0
  }

  ghost predicate Flags(s: Pool) {
    && (s.closed <==> !s.closer.Unclosed?)
    && (s.jobsClosed <==> !s.closer.Unclosed? && !s.closer.ClosedClosed?)
    && (s.errsClosed <==> s.closer.ClosedErrs?)
    && |s.jobs| <= Capacity(s) && |s.errs| <= Capacity(s)
  }

  /** Once the closer has seen zero no job is left anywhere, and no worker will ever hold one again. */
  ghost predicate NothingLeft(s: Pool) {
    s.closer.Drained? || s.closer.ClosedErrs? ==> s.jobs == [] && Total(s.workers, Holding) == 0
  }

  ghost predicate ExitsAreFinal(s: Pool) {
    forall w :: 0 <= w < |s.workers| && s.workers[w].Exited? ==> s.jobsClosed && s.jobs == []
  }

  /** A job a returned waiter waited for has run, and its error, if any, is buffered or read. */
  ghost predicate WaitsKept(s: Pool) {
    forall q :: 0 <= q < |s.waiters| ==>
      match s.waiters[q]
      case Uncalled => true
      case Waiting(before) => forall j :: j in before ==> j in s.accepted
      case Returned(before) => forall j :: j in before ==> Settled(s, j)
  }

  /** The job has run and, if it failed, its error has left its worker. */
  ghost predicate Settled(s: Pool, j: nat) {
    && s.ran[j] >= 1
    && s.ran[j] == s.accepted[j]
    && s.failed[j] == Count(s.errs, j) + s.delivered[j]
  }

  ghost predicate Inv(s: Pool) {
    && Conserved(s)
    && JobsConserved(s)
    && ErrorsConserved(s)
    && AcceptedOnce(s)
    && Flags(s)
    && NothingLeft(s)
    && ExitsAreFinal(s)
    && WaitsKept(s)
  }
}
