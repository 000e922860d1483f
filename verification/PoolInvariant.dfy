/**
 Every reachable state of the worker pool satisfies the invariant, unless a send on the closed job
 channel panicked.
 */
module PoolInvariant {
  import opened Wrappers
  import opened Sums
  import opened WorkerPool

  // ---------- sums over workers and producers ----------

  /** How replacing one worker moves the number of jobs held. */
  lemma WorkerMoves(s: Pool, w: nat, x: Worker)
    requires w < |s.workers|
    ensures Total(s.workers[w := x], Holding) + Holding(s.workers[w]) == Total(s.workers, Holding) + Holding(x)
    ensures Holding(s.workers[w]) <= Total(s.workers, Holding)
  {
    TotalUpdate(s.workers, w, x, Holding);
    TotalAtLeast(s.workers, w, Holding);
  }

  lemma ProducerMoves(s: Pool, p: nat, x: Producer)
    requires p < |s.producers|
    ensures Total(s.producers[p := x], Pending) + Pending(s.producers[p]) == Total(s.producers, Pending) + Pending(x)
    ensures Pending(s.producers[p]) <= Total(s.producers, Pending)
  {
    TotalUpdate(s.producers, p, x, Pending);
    TotalAtLeast(s.producers, p, Pending);
  }

  /** No worker holds a job: none is unrun or unsent. */
  lemma NothingHeld(s: Pool)
    requires Total(s.workers, Holding) == 0
    ensures Bag(s.workers, Unrun) == multiset{} && Bag(s.workers, Unsent) == multiset{}
  {
    forall w | 0 <= w < |s.workers| ensures Unrun(s.workers[w]) == Unsent(s.workers[w]) == multiset{} {
      TotalAtLeast(s.workers, w, Holding);
    }
    BagEmpty(s.workers, Unrun);
    BagEmpty(s.workers, Unsent);
  }

  // ---------- the initial state ----------

  lemma {:induction false} TotalZero<A>(s: seq<A>, f: A -> nat)
    requires forall i :: 0 <= i < |s| ==> f(s[i]) == 0
    ensures Total(s, f) == 0
  {
    if s != [] {
      TotalZero(s[..|s| - 1], f);
    }
  }

  lemma NewPoolInv(workers: nat, producers: nat, waiters: nat)
    ensures Inv(NewPool(workers, producers, waiters))
  {
    var s := NewPool(workers, producers, waiters);
    TotalZero(s.workers, Holding);
    TotalZero(s.producers, Pending);
    NothingHeld(s);
  }

  // ---------- one step, one conjunct at a time ----------

  predicate IsProducerStep(l: Label) {
    l.Check? || l.Add? || l.Send? || l.SeeClosed? || l.Undo?
  }

  predicate IsWorkerStep(l: Label) {
    l.Spawn? || l.Take? || l.Exit? || l.Run? || l.SendErr? || l.Finish?
  }

  /** A step of a worker changes that worker only. */
  lemma WorkerStepFrame(s: Pool, l: Label)
    requires IsWorkerStep(l) && Enabled(s, l)
    ensures
      var t := Apply(s, l);
      && l.w < |s.workers| == |t.workers| && t.workers == s.workers[l.w := t.workers[l.w]]
      && t.producers == s.producers && t.waiters == s.waiters && t.closer == s.closer
      && t.accepted == s.accepted && t.delivered == s.delivered
      && t.closed == s.closed && t.jobsClosed == s.jobsClosed && t.errsClosed == s.errsClosed
  {
    match l
    case Spawn(_) =>
    case Take(_) =>
    case Exit(_) =>
    case Run(_, _) =>
    case SendErr(_) =>
    case Finish(_) =>
  }

  /** A step of a producer changes that producer, the wait group, and what a send adds. */
  lemma ProducerStepFrame(s: Pool, l: Label)
    requires IsProducerStep(l) && Enabled(s, l)
    ensures
      var t := Apply(s, l);
      && l.p < |s.producers| == |t.producers| && t.producers == s.producers[l.p := t.producers[l.p]]
      && t.workers == s.workers && t.waiters == s.waiters && t.closer == s.closer
      && t.errs == s.errs && t.ran == s.ran && t.failed == s.failed && t.delivered == s.delivered
      && t.closed == s.closed && t.jobsClosed == s.jobsClosed && t.errsClosed == s.errsClosed
      && (if l.Send? && t.panic.None?
          then !s.jobsClosed && t.jobs == s.jobs + [l.p] && t.accepted == s.accepted + multiset{l.p}
          else t.jobs == s.jobs && t.accepted == s.accepted)
      && !s.producers[l.p].Queued? && (t.panic.None? ==> (t.producers[l.p].Queued? <==> l.Send?))
  {
    match l
    case Check(_) =>
    case Add(_) =>
    case Send(_) =>
    case SeeClosed(_) =>
    case Undo(_) =>
  }

  /** The closer, waiters and reader touch neither jobs nor the goroutines that handle them. */
  lemma OtherStepFrame(s: Pool, l: Label)
    requires !IsWorkerStep(l) && !IsProducerStep(l) && Enabled(s, l)
    ensures
      var t := Apply(s, l);
      && t.producers == s.producers && t.workers == s.workers && t.jobs == s.jobs && t.wg == s.wg
      && t.accepted == s.accepted && t.ran == s.ran && t.failed == s.failed
      && (s.jobsClosed ==> t.jobsClosed)
      && (if l.Read? then s.errs != [] && t.errs == s.errs[1..] && t.delivered == s.delivered + multiset{s.errs[0]}
          else t.errs == s.errs && t.delivered == s.delivered)
  {
    match l
    case CloseClosed =>
    case CloseJobs =>
    case AwaitZero =>
    case CloseErrs =>
    case CallWait(_) =>
    case WaitReturns(_) =>
    case Read =>
  }

  lemma ConservedProducer(s: Pool, l: Label)
    requires Conserved(s) && Flags(s) && NothingLeft(s) && Enabled(s, l) && IsProducerStep(l)
    ensures Apply(s, l).panic == if l.Send? && s.jobsClosed then Some(SendOnClosedJobs) else None
    ensures Apply(s, l).panic.None? ==>
              Conserved(Apply(s, l)) && Flags(Apply(s, l)) && NothingLeft(Apply(s, l))
  {
    ProducerMoves(s, l.p, Apply(s, l).producers[l.p]);
  }

  /** A worker that holds a job is counted, and the error channel is open for it. */
  lemma BusyWorker(s: Pool, l: Label)
    requires Conserved(s) && Flags(s) && NothingLeft(s) && Enabled(s, l) && IsWorkerStep(l)
    ensures l.w < |s.workers| && (l.Finish? ==> s.wg > 0) && (l.SendErr? ==> !s.errsClosed)
  {
    WorkerMoves(s, l.w, Idle);
  }

  /** A worker's step keeps what the wait group counts. */
  lemma HoldMoves(s: Pool, l: Label)
    requires IsWorkerStep(l) && Enabled(s, l) && (l.Finish? ==> s.wg > 0) && (l.SendErr? ==> !s.errsClosed)
    requires |s.errs| <= Capacity(s)
    ensures
      var t := Apply(s, l);
      && t.panic.None? && l.w < |t.workers|
      && t.wg + |s.jobs| + Holding(s.workers[l.w]) == s.wg + |t.jobs| + Holding(t.workers[l.w])
      && |t.jobs| <= |s.jobs| && |t.errs| <= Capacity(s)
      && (s.jobs == [] && Holding(s.workers[l.w]) == 0 ==> Holding(t.workers[l.w]) == 0)
  {
    match l
    case Spawn(_) =>
    case Take(_) =>
    case Exit(_) =>
    case Run(_, _) =>
    case SendErr(_) =>
    case Finish(_) =>
  }

  lemma ConservedWorker(s: Pool, l: Label)
    requires Conserved(s) && Flags(s) && NothingLeft(s) && Enabled(s, l) && IsWorkerStep(l)
    ensures Apply(s, l).panic.None?
    ensures Conserved(Apply(s, l)) && Flags(Apply(s, l)) && NothingLeft(Apply(s, l))
  {
    hide Apply, Enabled, Holding, Total;
    BusyWorker(s, l);
    HoldMoves(s, l);
    WorkerStepFrame(s, l);
    WorkerMoves(s, l.w, Apply(s, l).workers[l.w]);
  }

  lemma ConservedOther(s: Pool, l: Label)
    requires Conserved(s) && Flags(s) && NothingLeft(s) && Enabled(s, l) && !IsWorkerStep(l) && !IsProducerStep(l)
    ensures Apply(s, l).panic.None?
    ensures Conserved(Apply(s, l)) && Flags(Apply(s, l)) && NothingLeft(Apply(s, l))
  {
  }

  /** Wait-group arithmetic, and with it that no Done goes below zero and no error is sent on the closed channel. */
  lemma StepConserved(s: Pool, l: Label)
    requires Conserved(s) && Flags(s) && NothingLeft(s) && Enabled(s, l)
    ensures Apply(s, l).panic == if l.Send? && s.jobsClosed then Some(SendOnClosedJobs) else None
    ensures Apply(s, l).panic.None? ==>
              Conserved(Apply(s, l)) && Flags(Apply(s, l)) && NothingLeft(Apply(s, l))
  {
    if IsProducerStep(l) {
      ConservedProducer(s, l);
    } else if IsWorkerStep(l) {
      ConservedWorker(s, l);
    } else {
      ConservedOther(s, l);
    }
  }

  /** Where job `j` is: buffered, with worker `w`, or run. */
  function JobAt(s: Pool, w: nat, j: nat): nat
    requires w < |s.workers|
  {
    Count(s.jobs, j) + Unrun(s.workers[w])[j] + s.ran[j]
  }

  lemma JobMovesRun(s: Pool, w: nat, fails: bool, j: nat)
    requires Enabled(s, Run(w, fails))
    ensures JobAt(Apply(s, Run(w, fails)), w, j) == JobAt(s, w, j)
  {
  }

  lemma JobMovesTake(s: Pool, w: nat, j: nat)
    requires Enabled(s, Take(w))
    ensures JobAt(Apply(s, Take(w)), w, j) == JobAt(s, w, j)
  {
    CountHead(s.jobs, j);
  }

  /** A job moves from the buffer to its worker, and from there to the jobs that ran. */
  lemma JobMoves(s: Pool, l: Label, j: nat)
    requires IsWorkerStep(l) && Enabled(s, l) && Apply(s, l).panic.None?
    ensures JobAt(Apply(s, l), l.w, j) == JobAt(s, l.w, j)
  {
    if l.Take? {
      JobMovesTake(s, l.w, j);
    } else if l.Run? {
      JobMovesRun(s, l.w, l.fails, j);
    }
  }

  lemma StepJobs(s: Pool, l: Label, j: nat)
    requires JobsConserved(s) && Enabled(s, l) && Apply(s, l).panic.None?
    ensures
      var s' := Apply(s, l);
      s'.accepted[j] == Count(s'.jobs, j) + Bag(s'.workers, Unrun)[j] + s'.ran[j]
  {
    assert s.accepted[j] == Count(s.jobs, j) + Bag(s.workers, Unrun)[j] + s.ran[j];
    hide Apply, Enabled, JobsConserved, Bag, Count;
    if IsWorkerStep(l) {
      WorkerStepFrame(s, l);
      BagUpdateAt(s.workers, l.w, Apply(s, l).workers[l.w], Unrun, j);
      JobMoves(s, l, j);
    } else if IsProducerStep(l) {
      ProducerStepFrame(s, l);
      CountAppend(s.jobs, l.p, j);
    } else {
      OtherStepFrame(s, l);
    }
  }

  lemma ErrorMovesRun(s: Pool, w: nat, fails: bool, j: nat)
    requires Enabled(s, Run(w, fails))
    ensures
      var s' := Apply(s, Run(w, fails));
      s'.errs == s.errs && s'.failed[j] + Unsent(s.workers[w])[j] == s.failed[j] + Unsent(s'.workers[w])[j]
  {
  }

  lemma ErrorMovesSend(s: Pool, w: nat, j: nat)
    requires Enabled(s, SendErr(w)) && !s.errsClosed
    ensures
      var s' := Apply(s, SendErr(w));
      && s'.failed == s.failed
      && Count(s.errs, j) + Unsent(s.workers[w])[j] == Count(s'.errs, j) + Unsent(s'.workers[w])[j]
  {
  }

  /** An error moves from its worker to the buffer; a failing run creates one. */
  lemma ErrorMoves(s: Pool, l: Label, j: nat)
    requires IsWorkerStep(l) && Enabled(s, l) && Apply(s, l).panic.None?
    ensures
      var s' := Apply(s, l);
      s'.failed[j] + Count(s.errs, j) + Unsent(s.workers[l.w])[j]
      == s.failed[j] + Count(s'.errs, j) + Unsent(s'.workers[l.w])[j]
  {
    if l.Run? {
      ErrorMovesRun(s, l.w, l.fails, j);
    } else if l.SendErr? {
      ErrorMovesSend(s, l.w, j);
    }
  }

  lemma StepErrors(s: Pool, l: Label, j: nat)
    requires ErrorsConserved(s) && Enabled(s, l) && Apply(s, l).panic.None?
    ensures
      var s' := Apply(s, l);
      s'.failed[j] == Count(s'.errs, j) + Bag(s'.workers, Unsent)[j] + s'.delivered[j]
  {
    assert s.failed[j] == Count(s.errs, j) + Bag(s.workers, Unsent)[j] + s.delivered[j];
    hide Apply, Enabled, ErrorsConserved, Bag, Count;
    if IsWorkerStep(l) {
      WorkerStepFrame(s, l);
      BagUpdateAt(s.workers, l.w, Apply(s, l).workers[l.w], Unsent, j);
      ErrorMoves(s, l, j);
    } else if IsProducerStep(l) {
      ProducerStepFrame(s, l);
    } else {
      OtherStepFrame(s, l);
      if l.Read? {
        CountHead(s.errs, j);
      }
    }
  }

  lemma StepAcceptedOnce(s: Pool, l: Label)
    requires AcceptedOnce(s) && Enabled(s, l) && Apply(s, l).panic.None?
    ensures AcceptedOnce(Apply(s, l))
  {
    hide Apply, Enabled;
    if IsWorkerStep(l) {
      WorkerStepFrame(s, l);
    } else if IsProducerStep(l) {
      ProducerStepFrame(s, l);
    } else {
      OtherStepFrame(s, l);
    }
  }

  lemma StepExits(s: Pool, l: Label)
    requires ExitsAreFinal(s) && Enabled(s, l) && Apply(s, l).panic.None?
    ensures ExitsAreFinal(Apply(s, l))
  {
    hide Apply, Enabled;
    if IsWorkerStep(l) {
      WorkerStepFrame(s, l);
      LeavesEmpty(s, l);
    } else if IsProducerStep(l) {
      ProducerStepFrame(s, l);
    } else {
      OtherStepFrame(s, l);
    }
  }

  /** Workers only take from the buffer, and leave once it is empty and closed. */
  lemma LeavesEmpty(s: Pool, l: Label)
    requires IsWorkerStep(l) && Enabled(s, l)
    ensures s.jobs == [] ==> Apply(s, l).jobs == []
    ensures Apply(s, l).workers[l.w].Exited? ==> s.jobsClosed && s.jobs == []
  {
    match l
    case Spawn(_) =>
    case Take(_) =>
    case Exit(_) =>
    case Run(_, _) =>
    case SendErr(_) =>
    case Finish(_) =>
  }

  /** A settled job is in no buffer and with no worker, and its producer has returned. */
  lemma SettledAway(s: Pool, j: nat)
    requires JobsConserved(s) && ErrorsConserved(s) && AcceptedOnce(s) && Settled(s, j)
    ensures Count(s.jobs, j) == 0 && Bag(s.workers, Unrun)[j] == 0 && Bag(s.workers, Unsent)[j] == 0
    ensures j < |s.producers| && s.producers[j].Queued?
  {
    assert s.accepted[j] == Count(s.jobs, j) + Bag(s.workers, Unrun)[j] + s.ran[j];
    assert s.failed[j] == Count(s.errs, j) + Bag(s.workers, Unsent)[j] + s.delivered[j];
    assert s.accepted[j] == 1;
  }

  /** A settled job is out of reach of every further step, except that its error may be read. */
  lemma StepSettled(s: Pool, l: Label, j: nat)
    requires JobsConserved(s) && ErrorsConserved(s) && AcceptedOnce(s)
    requires Enabled(s, l) && Apply(s, l).panic.None? && Settled(s, j)
    ensures Settled(Apply(s, l), j)
  {
    hide Apply, Enabled, JobsConserved, ErrorsConserved, AcceptedOnce, Bag, Count, Unrun, Unsent;
    SettledAway(s, j);
    if IsWorkerStep(l) {
      WorkerStepFrame(s, l);
      BagUpdateAt(s.workers, l.w, s.workers[l.w], Unrun, j);
      BagUpdateAt(s.workers, l.w, s.workers[l.w], Unsent, j);
      SettledWorker(s, l, j);
    } else if IsProducerStep(l) {
      ProducerStepFrame(s, l);
    } else {
      OtherStepFrame(s, l);
      if l.Read? {
        CountHead(s.errs, j);
      }
    }
  }

  lemma SettledRun(s: Pool, w: nat, fails: bool, j: nat)
    requires Enabled(s, Run(w, fails)) && Settled(s, j) && Unrun(s.workers[w])[j] == 0
    ensures Settled(Apply(s, Run(w, fails)), j)
  {
  }

  lemma SettledSendErr(s: Pool, w: nat, j: nat)
    requires Enabled(s, SendErr(w)) && !s.errsClosed && Settled(s, j) && Unsent(s.workers[w])[j] == 0
    ensures Settled(Apply(s, SendErr(w)), j)
  {
  }

  lemma SettledWorker(s: Pool, l: Label, j: nat)
    requires IsWorkerStep(l) && Enabled(s, l) && Apply(s, l).panic.None? && Settled(s, j)
    requires Unrun(s.workers[l.w])[j] == 0 && Unsent(s.workers[l.w])[j] == 0
    ensures Settled(Apply(s, l), j)
  {
    if l.Run? {
      SettledRun(s, l.w, l.fails, j);
    } else if l.SendErr? {
      SettledSendErr(s, l.w, j);
    } else {
      RanUnchanged(s, l);
    }
  }

  /** Only a run adds to the jobs that ran, only sending and reading move errors. */
  lemma RanUnchanged(s: Pool, l: Label)
    requires IsWorkerStep(l) && Enabled(s, l) && !l.Run? && !l.SendErr?
    ensures
      var t := Apply(s, l);
      && t.ran == s.ran && t.failed == s.failed && t.errs == s.errs
      && t.delivered == s.delivered && t.accepted == s.accepted
  {
  }

  /** With the wait group at zero, every accepted job is settled. */
  lemma ZeroSettles(s: Pool, j: nat)
    requires Conserved(s) && JobsConserved(s) && ErrorsConserved(s) && s.wg == 0 && j in s.accepted
    ensures Settled(s, j)
  {
    NothingHeld(s);
    assert s.accepted[j] >= 1;
  }

  /** Waiters come and go by their own two steps only. */
  lemma WaitersFrame(s: Pool, l: Label)
    requires Enabled(s, l)
    ensures |Apply(s, l).waiters| == |s.waiters|
    ensures l.CallWait? ==> l.q < |s.waiters| && s.waiters[l.q].Uncalled?
    ensures
      Apply(s, l).waiters ==
      match l
      case CallWait(q) => s.waiters[q := Waiting(set j | j in s.accepted)]
      case WaitReturns(q) => s.waiters[q := Returned(s.waiters[q].before)]
      case _ => s.waiters
  {
  }

  lemma AcceptedGrows(s: Pool, l: Label, j: nat)
    requires Enabled(s, l) && j in s.accepted
    ensures j in Apply(s, l).accepted
  {
  }

  lemma WaitZero(s: Pool, l: Label)
    requires Enabled(s, l) && l.WaitReturns?
    ensures l.q < |s.waiters| && s.waiters[l.q].Waiting? && s.wg == 0
  {
  }

  /** A wait that returns now, or returned before, has its jobs settled after the step. */
  lemma StepReturned(s: Pool, l: Label, q: nat, j: nat)
    requires Inv(s) && Enabled(s, l) && Apply(s, l).panic.None?
    requires q < |s.waiters| == |Apply(s, l).waiters|
    requires Apply(s, l).waiters[q].Returned? && j in Apply(s, l).waiters[q].before
    ensures Settled(Apply(s, l), j)
  {
    hide Apply, Enabled, Settled;
    WaitersFrame(s, l);
    if !s.waiters[q].Returned? {
      WaitZero(s, l);
      ZeroSettles(s, j);
    }
    StepSettled(s, l, j);
  }

  lemma StepWaiting(s: Pool, l: Label, q: nat)
    requires WaitsKept(s) && Enabled(s, l) && Apply(s, l).panic.None?
    requires q < |s.waiters| == |Apply(s, l).waiters| && Apply(s, l).waiters[q].Waiting?
    ensures forall j :: j in Apply(s, l).waiters[q].before ==> j in Apply(s, l).accepted
  {
    hide Apply, Enabled;
    WaitersFrame(s, l);
    if l != CallWait(q) {
      forall j | j in s.waiters[q].before ensures j in Apply(s, l).accepted {
        AcceptedGrows(s, l, j);
      }
    } else {
      forall j | j in s.accepted ensures j in Apply(s, l).accepted {
        AcceptedGrows(s, l, j);
      }
    }
  }

  lemma StepWaits(s: Pool, l: Label)
    requires Inv(s) && Enabled(s, l) && Apply(s, l).panic.None?
    ensures WaitsKept(Apply(s, l))
  {
    hide Apply, Enabled, Settled;
    WaitersFrame(s, l);
    var s' := Apply(s, l);
    forall q | 0 <= q < |s'.waiters|
      ensures match s'.waiters[q]
              case Uncalled => true
              case Waiting(before) => forall j :: j in before ==> j in s'.accepted
              case Returned(before) => forall j :: j in before ==> Settled(s', j)
    {
      if s'.waiters[q].Returned? {
        forall j | j in s'.waiters[q].before ensures Settled(s', j) {
          StepReturned(s, l, q, j);
        }
      } else if s'.waiters[q].Waiting? {
        StepWaiting(s, l, q);
      }
    }
  }

  /** No job and no error is lost or made up by a step. */
  lemma StepAllConserved(s: Pool, l: Label)
    requires JobsConserved(s) && ErrorsConserved(s) && Enabled(s, l) && Apply(s, l).panic.None?
    ensures JobsConserved(Apply(s, l)) && ErrorsConserved(Apply(s, l))
  {
    hide Apply, Enabled;
    var s' := Apply(s, l);
    forall j: nat ensures s'.accepted[j] == Count(s'.jobs, j) + Bag(s'.workers, Unrun)[j] + s'.ran[j] {
      StepJobs(s, l, j);
    }
    forall j: nat ensures s'.failed[j] == Count(s'.errs, j) + Bag(s'.workers, Unsent)[j] + s'.delivered[j] {
      StepErrors(s, l, j);
    }
  }

  /**
   One step: the invariant is kept unless a job is sent on the closed job channel, and nothing
   else ever panics.
   */
  lemma StepInv(s: Pool, l: Label)
    requires Inv(s) && Enabled(s, l)
    ensures Apply(s, l).panic == if l.Send? && s.jobsClosed then Some(SendOnClosedJobs) else None
    ensures Apply(s, l).panic.None? ==> Inv(Apply(s, l))
  {
    hide Apply, Enabled, Conserved, JobsConserved, ErrorsConserved, AcceptedOnce, Flags, NothingLeft, ExitsAreFinal,
      WaitsKept;
    StepConserved(s, l);
    if Apply(s, l).panic.None? {
      StepAllConserved(s, l);
      StepAcceptedOnce(s, l);
      StepExits(s, l);
      StepWaits(s, l);
    }
  }

  lemma {:induction false} RunInv(s: Pool, labels: seq<Label>)
    requires Inv(s) && s.panic.None? && IsRun(s, labels)
    ensures After(s, labels).panic.None? ==> Inv(After(s, labels))
    ensures After(s, labels).panic.Some? ==> After(s, labels).panic == Some(SendOnClosedJobs)
    decreases |labels|
  {
    if labels != [] {
      StepInv(s, labels[0]);
      var s' := Apply(s, labels[0]);
      if s'.panic.None? {
        RunInv(s', labels[1..]);
      } else {
        assert labels[1..] == [];
      }
    }
  }
}
