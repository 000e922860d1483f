/** What the invariant means for whole runs of the worker pool: safety, draining, and the barrier of Wait. */
module PoolTheorems {
  import opened Wrappers
  import opened Sums
  import opened WorkerPool
  import opened PoolInvariant

  // ---------- safety of every run ----------

  /**
   In every state reached without a panic the wait group counts exactly the producers mid-queueing,
   the buffered jobs and the jobs being worked on. The only panic there is is a send on the closed
   job channel; in particular no worker is ever about to send on the closed error channel.
   */
  lemma EveryRun(workers: nat, producers: nat, waiters: nat, labels: seq<Label>)
    requires IsRun(NewPool(workers, producers, waiters), labels)
    ensures
      var s := After(NewPool(workers, producers, waiters), labels);
      && (s.panic.Some? ==> s.panic == Some(SendOnClosedJobs))
      && (s.panic.None? ==>
            && Inv(s)
            && s.wg == Total(s.producers, Pending) + |s.jobs| + Total(s.workers, Holding)
            && (s.errsClosed ==> forall w :: 0 <= w < |s.workers| ==> !s.workers[w].Sending?))
  {
    var s := After(NewPool(workers, producers, waiters), labels);
    NewPoolInv(workers, producers, waiters);
    RunInv(NewPool(workers, producers, waiters), labels);
    forall w | 0 <= w < |s.workers| && s.panic.None? && s.errsClosed ensures !s.workers[w].Sending? {
      TotalAtLeast(s.workers, w, Holding);
    }
  }

  // ---------- which jobs get in ----------

  predicate Outside(p: Producer) {
    p.Called? || p.Refused?
  }

  /** Once the pool is closed, a job whose QueueJob had not passed its first check is never accepted. */
  lemma {:induction false} ClosedPoolRefuses(s: Pool, labels: seq<Label>, p: nat)
    requires s.closed && p < |s.producers| && Outside(s.producers[p]) && s.accepted[p] == 0 && IsRun(s, labels)
    ensures
      var t := After(s, labels);
      p < |t.producers| && Outside(t.producers[p]) && t.accepted[p] == 0
    decreases |labels|
  {
    if labels != [] {
      OutsideStep(s, labels[0], p);
      ClosedPoolRefuses(Apply(s, labels[0]), labels[1..], p);
    }
  }

  lemma OutsideStep(s: Pool, l: Label, p: nat)
    requires s.closed && p < |s.producers| && Outside(s.producers[p]) && s.accepted[p] == 0 && Enabled(s, l)
    ensures
      var t := Apply(s, l);
      t.closed && p < |t.producers| && Outside(t.producers[p]) && t.accepted[p] == 0
  {
  }

  // ---------- when a run can panic ----------

  /** A producer that saw the pool open and has not reached the outcome of its select. */
  predicate Late(p: Producer) {
    p.Checked? || p.Added?
  }

  ghost predicate NoneLate(s: Pool) {
    s.closed && forall p :: 0 <= p < |s.producers| ==> !Late(s.producers[p])
  }

  lemma {:induction false} NoneLateNoPanic(s: Pool, labels: seq<Label>)
    requires Inv(s) && s.panic.None? && NoneLate(s) && IsRun(s, labels)
    ensures After(s, labels).panic.None? && Inv(After(s, labels)) && NoneLate(After(s, labels))
    decreases |labels|
  {
    if labels != [] {
      StepInv(s, labels[0]);
      NoneLateStep(s, labels[0]);
      NoneLateNoPanic(Apply(s, labels[0]), labels[1..]);
    }
  }

  lemma NoneLateStep(s: Pool, l: Label)
    requires NoneLate(s) && Enabled(s, l)
    ensures !l.Send? && NoneLate(Apply(s, l))
  {
  }

  ghost predicate PanicsAfter(s: Pool, labels: seq<Label>) {
    IsRun(s, labels) && After(s, labels).panic.Some?
  }

  /** Prefixing one step. */
  lemma RunCons(s: Pool, l: Label, labels: seq<Label>)
    requires Enabled(s, l) && PanicsAfter(Apply(s, l), labels)
    ensures PanicsAfter(s, [l] + labels)
  {
  }

  lemma SendPanics(s: Pool, p: nat)
    requires s.panic.None? && s.jobsClosed && p < |s.producers| && s.producers[p].Added?
    ensures PanicsAfter(s, [Send(p)])
  {
  }

  /** The schedule that panics: the closer closes the job channel before the producer's select. */
  lemma LateCanPanic(s: Pool, p: nat) returns (labels: seq<Label>)
    requires Flags(s) && s.panic.None? && s.closed && p < |s.producers| && Late(s.producers[p])
    ensures PanicsAfter(s, labels)
    decreases s.producers[p].Checked?
  {
    if s.producers[p].Checked? {
      labels := LateCanPanic(Apply(s, Add(p)), p);
      RunCons(s, Add(p), labels);
      labels := [Add(p)] + labels;
    } else if !s.jobsClosed {
      SendPanics(Apply(s, CloseJobs), p);
      RunCons(s, CloseJobs, [Send(p)]);
      labels := [CloseJobs] + [Send(p)];
    } else {
      SendPanics(s, p);
      labels := [Send(p)];
    }
  }

  /**
   Once `close(closed)` has taken effect, some schedule panics if and only if some producer has
   passed its first check and not yet finished its select.
   */
  lemma PanicIff(s: Pool)
    requires Inv(s) && s.panic.None? && s.closed
    ensures (exists labels :: PanicsAfter(s, labels)) <==>
            (exists p :: 0 <= p < |s.producers| && Late(s.producers[p]))
  {
    if p :| 0 <= p < |s.producers| && Late(s.producers[p]) {
      var labels := LateCanPanic(s, p);
    } else {
      forall labels | IsRun(s, labels) ensures !PanicsAfter(s, labels) {
        NoneLateNoPanic(s, labels);
      }
    }
  }

  /** From a new pool: the producer checks, the closer closes both channels, the producer adds and sends. */
  lemma PanicReached()
    ensures
      var labels := [Check(0)] + ([CloseClosed] + ([CloseJobs] + ([Add(0)] + [Send(0)])));
      PanicsAfter(NewPool(1, 1, 0), labels)
  {
    var s0 := NewPool(1, 1, 0);
    var s1 := Apply(s0, Check(0));
    var s2 := Apply(s1, CloseClosed);
    var s3 := Apply(s2, CloseJobs);
    var s4 := Apply(s3, Add(0));
    SendPanics(s4, 0);
    RunCons(s3, Add(0), [Send(0)]);
    RunCons(s2, CloseJobs, [Add(0)] + [Send(0)]);
    RunCons(s1, CloseClosed, [CloseJobs] + ([Add(0)] + [Send(0)]));
    RunCons(s0, Check(0), [CloseClosed] + ([CloseJobs] + ([Add(0)] + [Send(0)])));
  }

  // ---------- every run is finite ----------

  function ProducerWeight(p: Producer): nat {
    match p
    case Called => 9
    case Checked => 8
    case Added => 7
    case Undoing => 1
    case Queued => 0
    case Refused => 0
  }

  function WorkerWeight(w: Worker): nat {
    match w
    case Unborn => 2
    case Idle => 1
    case Running(_) => 5
    case Sending(_) => 4
    case Finishing(_) => 2
    case Exited => 0
  }

  function WaiterWeight(q: Waiter): nat {
    match q
    case Uncalled => 2
    case Waiting(_) => 1
    case Returned(_) => 0
  }

  function CloserWeight(c: Closer): nat {
    match c
    case Unclosed => 4
    case ClosedClosed => 3
    case ClosedJobs => 2
    case Drained => 1
    case ClosedErrs => 0
  }

  function Measure(s: Pool): nat {
    Total(s.producers, ProducerWeight) + Total(s.workers, WorkerWeight) + Total(s.waiters, WaiterWeight)
    + 5 * |s.jobs| + |s.errs| + CloserWeight(s.closer) + if s.panic.None? then 1 else 0
  }

  /** The part of the measure a producer's step touches. */
  function ProducerShare(s: Pool, p: nat): nat
    requires p < |s.producers|
  {
    5 * |s.jobs| + ProducerWeight(s.producers[p]) + if s.panic.None? then 1 else 0
  }

  lemma ProducerShareFalls(s: Pool, l: Label)
    requires Enabled(s, l) && IsProducerStep(l) && l.p < |Apply(s, l).producers|
    ensures ProducerShare(Apply(s, l), l.p) < ProducerShare(s, l.p)
  {
    match l
    case Check(_) =>
    case Add(_) =>
    case Send(_) =>
    case SeeClosed(_) =>
    case Undo(_) =>
  }

  lemma ProducerStepDecreases(s: Pool, l: Label)
    requires Enabled(s, l) && IsProducerStep(l)
    ensures Measure(Apply(s, l)) < Measure(s)
  {
    hide Apply, Enabled, Total, ProducerWeight;
    ProducerStepFrame(s, l);
    ProducerShareFalls(s, l);
    TotalUpdate(s.producers, l.p, Apply(s, l).producers[l.p], ProducerWeight);
  }

  /** The part of the measure a worker's step touches. */
  function WorkerShare(s: Pool, w: nat): nat
    requires w < |s.workers|
  {
    5 * |s.jobs| + |s.errs| + WorkerWeight(s.workers[w]) + if s.panic.None? then 1 else 0
  }

  lemma TakeShare(s: Pool, w: nat)
    requires Enabled(s, Take(w))
    ensures WorkerShare(Apply(s, Take(w)), w) < WorkerShare(s, w)
  {
  }

  lemma SendErrShare(s: Pool, w: nat)
    requires Enabled(s, SendErr(w))
    ensures WorkerShare(Apply(s, SendErr(w)), w) < WorkerShare(s, w)
  {
  }

  lemma OtherShare(s: Pool, l: Label)
    requires Enabled(s, l) && IsWorkerStep(l) && !l.Take? && !l.SendErr? && l.w < |Apply(s, l).workers|
    ensures WorkerShare(Apply(s, l), l.w) < WorkerShare(s, l.w)
  {
    match l
    case Spawn(_) =>
    case Exit(_) =>
    case Run(_, _) =>
    case Finish(_) =>
  }

  lemma WorkerStepDecreases(s: Pool, l: Label)
    requires Enabled(s, l) && IsWorkerStep(l)
    ensures Measure(Apply(s, l)) < Measure(s)
  {
    hide Apply, Enabled, Total, WorkerWeight;
    WorkerStepFrame(s, l);
    TotalUpdate(s.workers, l.w, Apply(s, l).workers[l.w], WorkerWeight);
    if l.Take? {
      TakeShare(s, l.w);
    } else if l.SendErr? {
      SendErrShare(s, l.w);
    } else {
      OtherShare(s, l);
    }
  }

  lemma StepDecreases(s: Pool, l: Label)
    requires Enabled(s, l)
    ensures Measure(Apply(s, l)) < Measure(s)
  {
    if IsProducerStep(l) {
      ProducerStepDecreases(s, l);
    } else if IsWorkerStep(l) {
      WorkerStepDecreases(s, l);
    } else if l.CallWait? || l.WaitReturns? {
      TotalUpdate(s.waiters, l.q, Apply(s, l).waiters[l.q], WaiterWeight);
    }
  }

  lemma {:induction false} RunBounded(s: Pool, labels: seq<Label>)
    requires IsRun(s, labels)
    ensures |labels| + Measure(After(s, labels)) <= Measure(s)
    decreases |labels|
  {
    if labels != [] {
      StepDecreases(s, labels[0]);
      RunBounded(Apply(s, labels[0]), labels[1..]);
    }
  }

  // ---------- draining ----------

  predicate Started(s: Pool) {
    exists w :: 0 <= w < |s.workers| && !s.workers[w].Unborn?
  }

  /** A worker holding a job can always go on, if need be after the reader makes room for its error. */
  lemma HolderProceeds(s: Pool, w: nat) returns (l: Label)
    requires Inv(s) && s.panic.None? && w < |s.workers| && Holding(s.workers[w]) == 1
    ensures Enabled(s, l) && !l.Spawn?
  {
    match s.workers[w]
    case Running(_) => l := Run(w, false);
    case Finishing(_) => l := Finish(w);
    case Sending(_) => l := if s.errs == [] then SendErr(w) else Read;
  }

  /** After `close(closed)` the pool never gets stuck before `close(errs)`. */
  lemma Progress(s: Pool) returns (l: Label)
    requires Inv(s) && s.panic.None? && s.closed && Started(s) && !s.closer.ClosedErrs?
    ensures Enabled(s, l) && !l.Spawn?
  {
    if s.closer.ClosedClosed? { l := CloseJobs; }
    else if s.closer.Drained? { l := CloseErrs; }
    else if s.wg == 0 { l := AwaitZero; }
    else if Total(s.producers, Pending) > 0 {
      TotalPositive(s.producers, Pending);
      var p :| 0 <= p < |s.producers| && Pending(s.producers[p]) > 0;
      l := if s.producers[p].Added? then SeeClosed(p) else Undo(p);
    } else if Total(s.workers, Holding) > 0 {
      TotalPositive(s.workers, Holding);
      var w :| 0 <= w < |s.workers| && Holding(s.workers[w]) > 0;
      l := HolderProceeds(s, w);
    } else {
      var w :| 0 <= w < |s.workers| && !s.workers[w].Unborn?;
      TotalAtLeast(s.workers, w, Holding);
      l := Take(w);
    }
  }

  lemma {:induction false} RunStarted(s: Pool, labels: seq<Label>)
    requires Started(s) && IsRun(s, labels)
    ensures Started(After(s, labels))
    decreases |labels|
  {
    if labels != [] {
      StartedStep(s, labels[0]);
      RunStarted(Apply(s, labels[0]), labels[1..]);
    }
  }

  lemma NeverUnborn(s: Pool, l: Label)
    requires IsWorkerStep(l) && Enabled(s, l) && l.w < |Apply(s, l).workers|
    ensures !Apply(s, l).workers[l.w].Unborn?
  {
    match l
    case Spawn(_) =>
    case Take(_) =>
    case Exit(_) =>
    case Run(_, _) =>
    case SendErr(_) =>
    case Finish(_) =>
  }

  lemma StartedStep(s: Pool, l: Label)
    requires Started(s) && Enabled(s, l)
    ensures Started(Apply(s, l))
  {
    var w :| 0 <= w < |s.workers| && !s.workers[w].Unborn?;
    if IsWorkerStep(l) {
      WorkerStepFrame(s, l);
      NeverUnborn(s, l);
    } else if IsProducerStep(l) {
      ProducerStepFrame(s, l);
    } else {
      OtherStepFrame(s, l);
    }
    hide Apply, Enabled;
    assert !Apply(s, l).workers[w].Unborn?;
  }

  /**
   With a worker started and no producer past its first check when `close(closed)` took effect: no
   schedule panics, none is longer than the measure of its first state, and one that has not
   reached `close(errs)` can go on. Every schedule therefore reaches it.
   */
  lemma Drains(s: Pool, labels: seq<Label>)
    requires Inv(s) && s.panic.None? && Started(s) && NoneLate(s) && IsRun(s, labels)
    ensures
      var t := After(s, labels);
      && t.panic.None?
      && |labels| + Measure(t) <= Measure(s)
      && (t.closer.ClosedErrs? || exists l :: Enabled(t, l) && !l.Spawn?)
  {
    NoneLateNoPanic(s, labels);
    RunBounded(s, labels);
    RunStarted(s, labels);
    if !After(s, labels).closer.ClosedErrs? {
      var l := Progress(After(s, labels));
    }
  }

  /**
   When `close(errs)` has been reached, every accepted job has run exactly once, and every failed
   job's error has been read once or waits in the closed channel for the reader.
   */
  lemma DrainedCompletely(s: Pool, j: nat)
    requires Inv(s) && s.closer.ClosedErrs?
    ensures s.ran[j] == s.accepted[j] == if j < |s.producers| && s.producers[j].Queued? then 1 else 0
    ensures s.failed[j] == Count(s.errs, j) + s.delivered[j]
    ensures s.errs == [] ==> s.delivered[j] == s.failed[j]
    ensures s.errs != [] && s.panic.None? ==> Enabled(s, Read)
  {
    NothingHeld(s);
    assert s.accepted[j] == Count(s.jobs, j) + Bag(s.workers, Unrun)[j] + s.ran[j];
    assert s.failed[j] == Count(s.errs, j) + Bag(s.workers, Unsent)[j] + s.delivered[j];
  }

  // ---------- the barrier ----------

  lemma {:induction false} BeforeStable(s: Pool, labels: seq<Label>, q: nat)
    requires IsRun(s, labels) && q < |s.waiters| && !s.waiters[q].Uncalled?
    ensures
      var t := After(s, labels);
      q < |t.waiters| && !t.waiters[q].Uncalled? && t.waiters[q].before == s.waiters[q].before
    decreases |labels|
  {
    if labels != [] {
      BeforeStep(s, labels[0], q);
      BeforeStable(Apply(s, labels[0]), labels[1..], q);
    }
  }

  lemma BeforeStep(s: Pool, l: Label, q: nat)
    requires Enabled(s, l) && q < |s.waiters| && !s.waiters[q].Uncalled?
    ensures
      var t := Apply(s, l);
      q < |t.waiters| && !t.waiters[q].Uncalled? && t.waiters[q].before == s.waiters[q].before
  {
    hide Apply, Enabled;
    WaitersFrame(s, l);
  }

  /**
   When Wait has returned, every job accepted before it was called has run, and the error of each
   that failed is in the channel or was received. This holds even while producers keep queueing.
   */
  lemma Barrier(s: Pool, q: nat, labels: seq<Label>, j: nat)
    requires Inv(s) && Enabled(s, CallWait(q)) && IsRun(Apply(s, CallWait(q)), labels)
    requires j in s.accepted
    ensures
      var t := After(Apply(s, CallWait(q)), labels);
      t.panic.None? && q < |t.waiters| && t.waiters[q].Returned? ==>
        t.ran[j] == 1 && t.failed[j] == Count(t.errs, j) + t.delivered[j]
  {
    var s' := Apply(s, CallWait(q));
    assert q < |s.waiters|;
    WaitersFrame(s, CallWait(q));
    hide Apply, Enabled, IsRun, After, Conserved, JobsConserved, ErrorsConserved, Flags, NothingLeft, ExitsAreFinal;
    StepInv(s, CallWait(q));
    RunInv(s', labels);
    BeforeStable(s', labels, q);
    var t := After(s', labels);
    if t.panic.None? && q < |t.waiters| && t.waiters[q].Returned? {
      assert j in t.waiters[q].before;
      assert Settled(t, j);
      assert t.accepted[j] <= 1;
    }
  }

  // ---------- Wait returns ----------

  lemma {:induction false} TotalZeroIff<A>(s: seq<A>, f: A -> nat)
    ensures Total(s, f) == 0 <==> forall i :: 0 <= i < |s| ==> f(s[i]) == 0
  {
    if s != [] {
      TotalZeroIff(s[..|s| - 1], f);
    }
  }

  /**
   In every state reached without a panic, a call of Wait may return exactly when no producer is between its
   Add and the outcome of its select, no job is buffered and no worker has one, closed or not.
   */
  lemma WaitReturnsIff(workers: nat, producers: nat, waiters: nat, labels: seq<Label>, q: nat)
    requires IsRun(NewPool(workers, producers, waiters), labels)
    requires
      var s := After(NewPool(workers, producers, waiters), labels);
      s.panic.None? && q < |s.waiters| && s.waiters[q].Waiting?
    ensures
      var s := After(NewPool(workers, producers, waiters), labels);
      Enabled(s, WaitReturns(q)) <==>
        && (forall p :: 0 <= p < |s.producers| ==> !s.producers[p].Added? && !s.producers[p].Undoing?)
        && s.jobs == []
        && (forall w :: 0 <= w < |s.workers| ==>
              !s.workers[w].Running? && !s.workers[w].Sending? && !s.workers[w].Finishing?)
  {
    EveryRun(workers, producers, waiters, labels);
    hide IsRun, After, Inv;
    var s := After(NewPool(workers, producers, waiters), labels);
    TotalZeroIff(s.producers, Pending);
    TotalZeroIff(s.workers, Holding);
    forall p | 0 <= p < |s.producers|
      ensures Pending(s.producers[p]) == 0 <==> !s.producers[p].Added? && !s.producers[p].Undoing?
    {
    }
    forall w | 0 <= w < |s.workers|
      ensures Holding(s.workers[w]) == 0 <==>
                !s.workers[w].Running? && !s.workers[w].Sending? && !s.workers[w].Finishing?
    {
    }
  }

  /** Steps of work already begun: no call begins, nothing is spawned or closed. */
  predicate CarriesOn(l: Label) {
    l.Send? || l.Undo? || l.Take? || l.Run? || l.SendErr? || l.Finish? || l.WaitReturns? || l.Read?
  }

  /** Open, or closed without a late producer: no send can meet the closed job channel. */
  ghost predicate Calm(s: Pool) {
    s.closed ==> NoneLate(s)
  }

  lemma CalmStep(s: Pool, l: Label)
    requires Inv(s) && Calm(s) && Enabled(s, l) && !l.CloseClosed?
    ensures Apply(s, l).panic.None? && Inv(Apply(s, l)) && Calm(Apply(s, l))
  {
    StepInv(s, l);
    if s.closed {
      NoneLateStep(s, l);
    } else {
      StaysOpen(s, l);
    }
  }

  lemma StaysOpen(s: Pool, l: Label)
    requires Flags(s) && !s.closed && Enabled(s, l) && !l.CloseClosed?
    ensures !Apply(s, l).closed && !s.jobsClosed
  {
  }

  /** A producer mid-queueing can go on, or finds the buffer full. */
  lemma ProducerProceeds(s: Pool, p: nat) returns (l: Label)
    requires Inv(s) && s.panic.None? && Calm(s) && p < |s.producers| && Pending(s.producers[p]) == 1
    requires |s.jobs| < Capacity(s)
    ensures Enabled(s, l) && CarriesOn(l)
  {
    l := if s.producers[p].Added? then Send(p) else Undo(p);
  }

  lemma BusyProceeds(s: Pool, w: nat) returns (l: Label)
    requires Inv(s) && s.panic.None? && w < |s.workers| && Holding(s.workers[w]) == 1
    ensures Enabled(s, l) && CarriesOn(l)
  {
    match s.workers[w]
    case Running(_) => l := Run(w, false);
    case Finishing(_) => l := Finish(w);
    case Sending(_) => l := if s.errs == [] then SendErr(w) else Read;
  }

  /** A started worker takes a buffered job, unless it is still at another. */
  lemma TakerProceeds(s: Pool) returns (l: Label)
    requires Inv(s) && s.panic.None? && Started(s) && s.jobs != [] && Total(s.workers, Holding) == 0
    ensures Enabled(s, l) && CarriesOn(l)
  {
    var w :| 0 <= w < |s.workers| && !s.workers[w].Unborn?;
    TotalAtLeast(s.workers, w, Holding);
    l := Take(w);
  }

  /** While a call of Wait waits, work already begun can go on or the call can return. */
  lemma WaitProgress(s: Pool, q: nat) returns (l: Label)
    requires Inv(s) && s.panic.None? && Calm(s) && Started(s) && q < |s.waiters| && s.waiters[q].Waiting?
    ensures Enabled(s, l) && CarriesOn(l)
  {
    if s.wg == 0 {
      l := WaitReturns(q);
    } else if Total(s.workers, Holding) > 0 {
      TotalPositive(s.workers, Holding);
      var w :| 0 <= w < |s.workers| && Holding(s.workers[w]) > 0;
      l := BusyProceeds(s, w);
    } else if s.jobs != [] {
      l := TakerProceeds(s);
    } else {
      TotalPositive(s.producers, Pending);
      var p :| 0 <= p < |s.producers| && Pending(s.producers[p]) > 0;
      l := ProducerProceeds(s, p);
    }
  }

  lemma {:induction false} CalmRun(s: Pool, labels: seq<Label>)
    requires Inv(s) && s.panic.None? && Calm(s) && IsRun(s, labels) && CloseClosed !in labels
    ensures After(s, labels).panic.None? && Inv(After(s, labels)) && Calm(After(s, labels))
    decreases |labels|
  {
    if labels != [] {
      assert labels[0] in labels;
      CalmStep(s, labels[0]);
      hide Inv, Calm, Apply, Enabled;
      CalmRun(Apply(s, labels[0]), labels[1..]);
    }
  }

  /**
   The counterpart of `Drains` for an open pool. With a worker started, no schedule that does not begin to
   close the pool panics or is longer than the measure of its first state, and as long as some call of Wait has
   not returned it can go on, with no step but those of work already begun. (The pool may also be closed
   already, if no producer is late.)
   */
  lemma WaitsReturn(s: Pool, labels: seq<Label>)
    requires Inv(s) && s.panic.None? && Calm(s) && Started(s) && IsRun(s, labels) && CloseClosed !in labels
    ensures
      var t := After(s, labels);
      && t.panic.None?
      && |labels| + Measure(t) <= Measure(s)
      && ((forall q :: 0 <= q < |t.waiters| ==> !t.waiters[q].Waiting?) || exists l :: Enabled(t, l) && CarriesOn(l))
  {
    CalmRun(s, labels);
    RunBounded(s, labels);
    RunStarted(s, labels);
    hide IsRun, After, Inv, Calm, Started, Enabled, Measure;
    var t := After(s, labels);
    if q :| 0 <= q < |t.waiters| && t.waiters[q].Waiting? {
      var l := WaitProgress(t, q);
    }
  }

  /** Such a schedule, carried on to where every call of Wait has returned. */
  lemma {:induction false} WaitersServed(s: Pool) returns (labels: seq<Label>)
    requires Inv(s) && s.panic.None? && Calm(s) && Started(s)
    ensures IsRun(s, labels) && forall l :: l in labels ==> CarriesOn(l)
    ensures
      var t := After(s, labels);
      t.panic.None? && forall q :: 0 <= q < |t.waiters| ==> !t.waiters[q].Waiting?
    decreases Measure(s)
  {
    labels := [];
    if q :| 0 <= q < |s.waiters| && s.waiters[q].Waiting? {
      var l := WaitProgress(s, q);
      CalmStep(s, l);
      StartedStep(s, l);
      StepDecreases(s, l);
      hide Inv, Calm, Started, Apply, Enabled, Measure, CarriesOn;
      var rest := WaitersServed(Apply(s, l));
      labels := [l] + rest;
    }
  }
}
