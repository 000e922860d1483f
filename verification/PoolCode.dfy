/**
 The worker pool as the object it is: `QueueJob`, the loop of a worker and `Close`, each run undisturbed
 until it returns or has to wait for another goroutine. The effect of each is that of a run of the
 transition system, which then says what happens when many of them overlap.
 */
module PoolCode {
  import opened Wrappers
  import opened Steps = WorkerPool
  import PoolInvariant

  // ---------- runs, put together ----------

  lemma StepThen(s: Pool, l: Label, rest: seq<Label>)
    requires Enabled(s, l) && IsRun(Apply(s, l), rest)
    ensures IsRun(s, [l] + rest) && After(s, [l] + rest) == After(Apply(s, l), rest)
  {
  }

  lemma {:induction false} RunThen(s: Pool, labels: seq<Label>, rest: seq<Label>)
    requires IsRun(s, labels) && IsRun(After(s, labels), rest)
    ensures IsRun(s, labels + rest) && After(s, labels + rest) == After(After(s, labels), rest)
    decreases |labels|
  {
    hide Apply, Enabled;
    if labels == [] {
      assert labels + rest == rest;
    } else {
      RunThen(Apply(s, labels[0]), labels[1..], rest);
      StepThen(s, labels[0], labels[1..] + rest);
      assert labels + rest == [labels[0]] + (labels[1..] + rest);
    }
  }

  lemma OneStep(s: Pool, l: Label)
    requires Enabled(s, l)
    ensures IsRun(s, [l]) && After(s, [l]) == Apply(s, l)
  {
  }

  // ---------- the runs of undisturbed calls ----------

  function QueueLabels(s: Pool, p: nat): seq<Label> {
    if s.closed then [Check(p)]
    else if |s.jobs| < Capacity(s) then [Check(p)] + ([Add(p)] + [Send(p)])
    else [Check(p)] + [Add(p)]
  }

  /**
   A closed pool turns the job away, an open one with room counts it and buffers it behind the others,
   and on a full open one the call has counted it and waits in its select.
   */
  lemma QueueRun(s: Pool, p: nat)
    requires s.panic.None? && Flags(s) && p < |s.producers| && s.producers[p].Called?
    ensures IsRun(s, QueueLabels(s, p))
    ensures
      var t := After(s, QueueLabels(s, p));
      && t == (if s.closed then s.(producers := s.producers[p := Refused])
               else if |s.jobs| < |s.workers|
               then s.(producers := s.producers[p := Queued], wg := s.wg + 1, jobs := s.jobs + [p],
                       accepted := s.accepted + multiset{p})
               else s.(producers := s.producers[p := Added], wg := s.wg + 1))
      && (t.producers[p].Added? ==> !Enabled(t, Send(p)) && !Enabled(t, SeeClosed(p)))
  {
    var s1 := Apply(s, Check(p));
    if s.closed {
      OneStep(s, Check(p));
    } else {
      var s2 := Apply(s1, Add(p));
      assert s1.producers[p := Added] == s.producers[p := Added];
      assert s2.producers[p := Queued] == s.producers[p := Queued];
      if |s.jobs| < Capacity(s) {
        OneStep(s2, Send(p));
        StepThen(s1, Add(p), [Send(p)]);
        StepThen(s, Check(p), [Add(p)] + [Send(p)]);
      } else {
        OneStep(s1, Add(p));
        StepThen(s, Check(p), [Add(p)]);
      }
    }
  }

  lemma UndoRun(s: Pool, p: nat)
    requires s.panic.None? && p < |s.producers| && s.producers[p].Added? && s.closed && s.wg > 0
    ensures IsRun(s, [SeeClosed(p)] + [Undo(p)])
    ensures After(s, [SeeClosed(p)] + [Undo(p)]) == s.(producers := s.producers[p := Refused], wg := s.wg - 1)
  {
    var t := Apply(s, SeeClosed(p));
    assert t.producers[p := Refused] == s.producers[p := Refused];
    OneStep(t, Undo(p));
    StepThen(s, SeeClosed(p), [Undo(p)]);
  }

  /**
   A call in its select may go on as soon as there is room or the pool is closed. Once it is closed, whatever the
   job channel's state, the call may take back its count and return without its job.
   */
  lemma SelectRun(s: Pool, p: nat)
    requires Inv(s) && s.panic.None? && p < |s.producers| && s.producers[p].Added?
    ensures !s.jobsClosed ==>
              (Enabled(s, Send(p)) || Enabled(s, SeeClosed(p)) <==> s.closed || |s.jobs| < |s.workers|)
    ensures s.closed ==>
              && IsRun(s, [SeeClosed(p)] + [Undo(p)])
              && After(s, [SeeClosed(p)] + [Undo(p)]) == s.(producers := s.producers[p := Refused], wg := s.wg - 1)
  {
    if s.closed {
      PoolInvariant.ProducerMoves(s, p, Refused);
      hide Inv;
      UndoRun(s, p);
    }
  }

  function CloseLabels(s: Pool): seq<Label> {
    if s.wg == 0 then [CloseClosed] + ([CloseJobs] + ([AwaitZero] + [CloseErrs])) else [CloseClosed] + [CloseJobs]
  }

  /** Closing runs to its end when nothing is in flight, and otherwise waits once both channels are closed. */
  lemma CloseRun(s: Pool)
    requires s.panic.None? && s.closer.Unclosed?
    ensures IsRun(s, CloseLabels(s))
    ensures
      var t := After(s, CloseLabels(s));
      && t == (if s.wg == 0 then s.(closed := true, jobsClosed := true, errsClosed := true, closer := ClosedErrs)
               else s.(closed := true, jobsClosed := true, closer := ClosedJobs))
      && (t.closer.ClosedJobs? ==> !Enabled(t, AwaitZero))
  {
    var s1 := Apply(s, CloseClosed);
    var s2 := Apply(s1, CloseJobs);
    if s.wg == 0 {
      var s3 := Apply(s2, AwaitZero);
      OneStep(s3, CloseErrs);
      StepThen(s2, AwaitZero, [CloseErrs]);
      StepThen(s1, CloseJobs, [AwaitZero] + [CloseErrs]);
      StepThen(s, CloseClosed, [CloseJobs] + ([AwaitZero] + [CloseErrs]));
    } else {
      OneStep(s1, CloseJobs);
      StepThen(s, CloseClosed, [CloseJobs]);
    }
  }

  function WaitLabels(s: Pool, q: nat): seq<Label> {
    if s.wg == 0 then [CallWait(q)] + [WaitReturns(q)] else [CallWait(q)]
  }

  /** A call of Wait returns at once when nothing is in flight, closed or not, and otherwise waits. */
  lemma WaitRun(s: Pool, q: nat)
    requires s.panic.None? && q < |s.waiters| && s.waiters[q].Uncalled?
    ensures IsRun(s, WaitLabels(s, q))
    ensures
      var t, before := After(s, WaitLabels(s, q)), set j | j in s.accepted;
      && t == s.(waiters := s.waiters[q := if s.wg == 0 then Returned(before) else Waiting(before)])
      && (s.wg != 0 ==> !Enabled(t, WaitReturns(q)))
  {
    var t, before := Apply(s, CallWait(q)), set j | j in s.accepted;
    if s.wg == 0 {
      assert t.waiters[q := Returned(before)] == s.waiters[q := Returned(before)];
      OneStep(t, WaitReturns(q));
      StepThen(s, CallWait(q), [WaitReturns(q)]);
    } else {
      OneStep(s, CallWait(q));
    }
  }

  function StartLabels(n: nat): seq<Label> {
    if n == 0 then [] else StartLabels(n - 1) + [Spawn(n - 1)]
  }

  /** Starting spawns every worker. */
  lemma StartRun(s: Pool)
    requires s.panic.None? && forall w :: 0 <= w < |s.workers| ==> s.workers[w].Unborn?
    ensures IsRun(s, StartLabels(|s.workers|))
    ensures After(s, StartLabels(|s.workers|)) == s.(workers := seq(|s.workers|, _ => Idle))
  {
    Spawned(s, |s.workers|);
    assert After(s, StartLabels(|s.workers|)).workers == seq(|s.workers|, _ => Idle);
  }

  lemma {:induction false} Spawned(s: Pool, n: nat)
    requires s.panic.None? && n <= |s.workers| && forall w :: 0 <= w < |s.workers| ==> s.workers[w].Unborn?
    ensures IsRun(s, StartLabels(n))
    ensures
      var t := After(s, StartLabels(n));
      && t == s.(workers := t.workers) && |t.workers| == |s.workers|
      && forall w :: 0 <= w < |s.workers| ==> t.workers[w] == if w < n then Idle else Unborn
  {
    if n > 0 {
      Spawned(s, n - 1);
      OneStep(After(s, StartLabels(n - 1)), Spawn(n - 1));
      RunThen(s, StartLabels(n - 1), [Spawn(n - 1)]);
    }
  }

  function ReportLabels(w: nat, fails: bool): seq<Label> {
    if fails then [SendErr(w)] + [Finish(w)] else [Finish(w)]
  }

  function RoundLabels(w: nat, fails: bool): seq<Label> {
    [Take(w)] + ([Run(w, fails)] + ReportLabels(w, fails))
  }

  /** One round of a worker: the first job leaves the buffer, runs, hands in its error if any, and is counted off. */
  ghost function AfterRound(s: Pool, fails: bool): Pool
    requires s.jobs != []
  {
    var job := s.jobs[0];
    s.(jobs := s.jobs[1..], wg := s.wg - 1, ran := s.ran + multiset{job},
       errs := if fails then s.errs + [job] else s.errs,
       failed := if fails then s.failed + multiset{job} else s.failed)
  }

  /** Once its job has run, a worker hands in the error, if any, and counts the job off. */
  lemma ReportRun(s: Pool, w: nat, fails: bool, job: nat)
    requires s.panic.None? && w < |s.workers| && s.workers[w] == if fails then Sending(job) else Finishing(job)
    requires s.wg > 0 && (fails ==> !s.errsClosed && |s.errs| < Capacity(s))
    ensures IsRun(s, ReportLabels(w, fails))
    ensures After(s, ReportLabels(w, fails))
            == s.(workers := s.workers[w := Idle], wg := s.wg - 1, errs := if fails then s.errs + [job] else s.errs)
  {
    if fails {
      var t := Apply(s, SendErr(w));
      assert t.workers[w := Idle] == s.workers[w := Idle];
      OneStep(t, Finish(w));
      StepThen(s, SendErr(w), [Finish(w)]);
    } else {
      OneStep(s, Finish(w));
    }
  }

  /** The first two steps of a round. */
  lemma TakeAndRun(s: Pool, w: nat, fails: bool)
    requires s.panic.None? && w < |s.workers| && s.workers[w].Idle? && s.jobs != []
    ensures Enabled(s, Take(w)) && Enabled(Apply(s, Take(w)), Run(w, fails))
    ensures
      var job := s.jobs[0];
      Apply(Apply(s, Take(w)), Run(w, fails))
      == s.(jobs := s.jobs[1..], workers := s.workers[w := if fails then Sending(job) else Finishing(job)],
            ran := s.ran + multiset{job}, failed := if fails then s.failed + multiset{job} else s.failed)
  {
    var t := Apply(s, Take(w));
    var x := if fails then Sending(s.jobs[0]) else Finishing(s.jobs[0]);
    assert t.workers[w := x] == s.workers[w := x];
  }

  lemma RoundRun(s: Pool, w: nat, fails: bool)
    requires s.panic.None? && w < |s.workers| && s.workers[w].Idle?
    requires s.jobs != [] && s.wg > 0 && (fails ==> !s.errsClosed && |s.errs| < Capacity(s))
    ensures IsRun(s, RoundLabels(w, fails)) && After(s, RoundLabels(w, fails)) == AfterRound(s, fails)
  {
    hide IsRun, After, ReportLabels, Apply, Enabled;
    TakeAndRun(s, w, fails);
    var s1 := Apply(s, Take(w));
    var s2 := Apply(s1, Run(w, fails));
    ReportRun(s2, w, fails, s.jobs[0]);
    StepThen(s1, Run(w, fails), ReportLabels(w, fails));
    StepThen(s, Take(w), [Run(w, fails)] + ReportLabels(w, fails));
    assert s2.workers[w := Idle] == s.workers;
  }

  /** A worker leaves its loop once the closed channel is empty. */
  lemma ExitRun(s: Pool, w: nat)
    requires s.panic.None? && w < |s.workers| && s.workers[w].Idle? && s.jobs == [] && s.jobsClosed
    ensures IsRun(s, [Exit(w)]) && After(s, [Exit(w)]) == s.(workers := s.workers[w := Exited])
  {
  }

  /** The jobs of a buffer that fail, in its order. */
  function Failing(jobs: seq<nat>, fails: nat -> bool): seq<nat> {
    if jobs == [] then []
    else Failing(jobs[..|jobs| - 1], fails) + if fails(jobs[|jobs| - 1]) then [jobs[|jobs| - 1]] else []
  }

  lemma FailingNext(jobs: seq<nat>, job: nat, fails: nat -> bool)
    ensures Failing(jobs + [job], fails) == Failing(jobs, fails) + if fails(job) then [job] else []
  {
  }

  /** A worker's first `n` rounds over the buffer of `s`, undisturbed. */
  ghost function AfterRounds(s: Pool, fails: nat -> bool, n: nat): (t: Pool)
    requires n <= |s.jobs|
    ensures t.jobs == s.jobs[n..] && t.wg == s.wg - n
    ensures t == s.(jobs := t.jobs, wg := t.wg, errs := t.errs, ran := t.ran, failed := t.failed)
  {
    if n == 0 then s else AfterRound(AfterRounds(s, fails, n - 1), fails(s.jobs[n - 1]))
  }

  function LoopLabels(jobs: seq<nat>, w: nat, fails: nat -> bool, n: nat): seq<Label>
    requires n <= |jobs|
  {
    if n == 0 then [] else LoopLabels(jobs, w, fails, n - 1) + RoundLabels(w, fails(jobs[n - 1]))
  }

  /** One more round, read off the buffer it began with. */
  lemma RoundMore(s: Pool, fails: nat -> bool, n: nat)
    requires n < |s.jobs|
    ensures
      var t, job := AfterRounds(s, fails, n), s.jobs[n];
      && AfterRounds(s, fails, n + 1).ran == t.ran + multiset{job}
      && AfterRounds(s, fails, n + 1).errs == t.errs + if fails(job) then [job] else []
  {
    var t := AfterRounds(s, fails, n);
    assert t.jobs[0] == s.jobs[n];
    assert AfterRounds(s, fails, n + 1) == AfterRound(t, fails(s.jobs[n]));
    assert t.errs + [] == t.errs;
  }

  lemma NoRounds(s: Pool, fails: nat -> bool)
    ensures AfterRounds(s, fails, 0) == s && Failing(s.jobs[..0], fails) == []
    ensures s.ran + multiset(s.jobs[..0]) == s.ran
  {
  }

  lemma {:induction false} RoundsRan(s: Pool, fails: nat -> bool, n: nat)
    requires n <= |s.jobs|
    ensures AfterRounds(s, fails, n).ran == s.ran + multiset(s.jobs[..n])
  {
    hide *;
    if n == 0 {
      NoRounds(s, fails);
    } else {
      RoundMore(s, fails, n - 1);
      RoundsRan(s, fails, n - 1);
      PrefixMore(s.jobs, n - 1);
      AddAssociates(s.ran, multiset(s.jobs[..n - 1]), multiset{s.jobs[n - 1]});
    }
  }

  lemma AddAssociates(a: multiset<nat>, b: multiset<nat>, c: multiset<nat>)
    ensures a + b + c == a + (b + c)
  {
  }

  lemma {:induction false} RoundsFailed(s: Pool, fails: nat -> bool, n: nat)
    requires n <= |s.jobs|
    ensures AfterRounds(s, fails, n).errs == s.errs + Failing(s.jobs[..n], fails)
    ensures |AfterRounds(s, fails, n).errs| <= |s.errs| + n
  {
    hide *;
    if n == 0 {
      NoRounds(s, fails);
    } else {
      RoundMore(s, fails, n - 1);
      RoundsFailed(s, fails, n - 1);
      FailingNext(s.jobs[..n - 1], s.jobs[n - 1], fails);
      assert s.jobs[..n] == s.jobs[..n - 1] + [s.jobs[n - 1]];
    }
  }

  /** What reachability gives an idle worker. */
  ghost predicate Ready(s: Pool, w: nat) {
    && s.panic.None? && w < |s.workers| && s.workers[w].Idle?
    && |s.jobs| <= s.wg && |s.errs| <= Capacity(s) && (s.errsClosed ==> s.jobs == [])
  }

  lemma InvReady(s: Pool, w: nat)
    requires Inv(s) && s.panic.None? && w < |s.workers| && s.workers[w].Idle?
    ensures Ready(s, w) && |s.errs| <= Capacity(s)
  {
  }

  lemma {:induction false} RoundsRun(s: Pool, w: nat, fails: nat -> bool, n: nat)
    requires Ready(s, w) && n <= |s.jobs| && |s.errs| + |Failing(s.jobs[..n], fails)| <= Capacity(s)
    ensures IsRun(s, LoopLabels(s.jobs, w, fails, n))
    ensures After(s, LoopLabels(s.jobs, w, fails, n)) == AfterRounds(s, fails, n)
  {
    if n > 0 {
      assert s.jobs[..n] == s.jobs[..n - 1] + [s.jobs[n - 1]];
      FailingNext(s.jobs[..n - 1], s.jobs[n - 1], fails);
      hide Failing, IsRun, After, RoundLabels;
      RoundsRun(s, w, fails, n - 1);
      RoundsFailed(s, fails, n - 1);
      var t, more := AfterRounds(s, fails, n - 1), fails(s.jobs[n - 1]);
      RoundRun(t, w, more);
      RunThen(s, LoopLabels(s.jobs, w, fails, n - 1), RoundLabels(w, more));
    }
  }

  /** After `m` rounds nothing is buffered, or the next job fails and there is no room for its error. */
  ghost predicate Stops(s: Pool, fails: nat -> bool, m: nat) {
    && m <= |s.jobs|
    && |s.errs| + |Failing(s.jobs[..m], fails)| <= Capacity(s)
    && (m < |s.jobs| ==> fails(s.jobs[m]) && |s.errs| + |Failing(s.jobs[..m], fails)| == Capacity(s))
  }

  /** Where the worker stands then: sending, gone, or waiting for a job. */
  function LastLabels(s: Pool, w: nat, m: nat): seq<Label> {
    if m < |s.jobs| then [Take(w)] + [Run(w, true)] else if s.jobsClosed then [Exit(w)] else []
  }

  function WorkLabels(s: Pool, w: nat, fails: nat -> bool, m: nat): seq<Label>
    requires m <= |s.jobs|
  {
    LoopLabels(s.jobs, w, fails, m) + LastLabels(s, w, m)
  }

  ghost function AfterWork(s: Pool, w: nat, fails: nat -> bool, m: nat): Pool
    requires m <= |s.jobs| && w < |s.workers|
  {
    var t := AfterRounds(s, fails, m);
    if m < |s.jobs| then
      var job := s.jobs[m];
      t.(jobs := s.jobs[m + 1..], workers := s.workers[w := Sending(job)],
         ran := t.ran + multiset{job}, failed := t.failed + multiset{job})
    else if s.jobsClosed then t.(workers := s.workers[w := Exited])
    else t
  }

  lemma StuckRun(s: Pool, w: nat)
    requires s.panic.None? && w < |s.workers| && s.workers[w].Idle? && s.jobs != []
    ensures IsRun(s, [Take(w)] + [Run(w, true)])
    ensures
      var job := s.jobs[0];
      After(s, [Take(w)] + [Run(w, true)])
      == s.(jobs := s.jobs[1..], workers := s.workers[w := Sending(job)],
            ran := s.ran + multiset{job}, failed := s.failed + multiset{job})
  {
    var t := Apply(s, Take(w));
    assert t.workers[w := Sending(s.jobs[0])] == s.workers[w := Sending(s.jobs[0])];
    OneStep(t, Run(w, true));
    StepThen(s, Take(w), [Run(w, true)]);
  }

  lemma WorkEnd(s: Pool, w: nat, fails: nat -> bool, m: nat)
    requires Ready(s, w) && Stops(s, fails, m)
    ensures IsRun(s, WorkLabels(s, w, fails, m))
    ensures After(s, WorkLabels(s, w, fails, m)) == AfterWork(s, w, fails, m)
  {
    RoundsRun(s, w, fails, m);
    var t := AfterRounds(s, fails, m);
    if m < |s.jobs| {
      StuckRun(t, w);
    } else if s.jobsClosed {
      ExitRun(t, w);
    } else {
      assert IsRun(t, []) && After(t, []) == t;
    }
    hide IsRun, After, Failing, LoopLabels;
    RunThen(s, LoopLabels(s.jobs, w, fails, m), LastLabels(s, w, m));
  }

  lemma RanMore(s: Pool, fails: nat -> bool, m: nat)
    requires m <= |s.jobs|
    ensures
      var taken := if m < |s.jobs| then m + 1 else m;
      AfterRounds(s, fails, m).ran + (if m < |s.jobs| then multiset{s.jobs[m]} else multiset{})
      == s.ran + multiset(s.jobs[..taken])
  {
    RoundsRan(s, fails, m);
    hide AfterRounds;
    if m < |s.jobs| {
      PrefixMore(s.jobs, m);
    }
  }

  lemma PrefixMore(jobs: seq<nat>, m: nat)
    requires m < |jobs|
    ensures multiset(jobs[..m + 1]) == multiset(jobs[..m]) + multiset{jobs[m]}
  {
    assert jobs[..m + 1] == jobs[..m] + [jobs[m]];
  }

  /**
   A worker left alone runs the buffered jobs once each, in order, hands in the errors in that order and
   counts off what it has finished, until it has run them all (then it leaves a closed channel and waits
   at an open one) or holds an error for which there is no room.
   */
  lemma WorkRun(s: Pool, w: nat, fails: nat -> bool, m: nat)
    requires Ready(s, w) && Stops(s, fails, m)
    ensures IsRun(s, WorkLabels(s, w, fails, m))
    ensures
      var t := After(s, WorkLabels(s, w, fails, m));
      var taken := if m < |s.jobs| then m + 1 else m;
      && t.jobs == s.jobs[taken..] && t.wg == s.wg - m
      && t.ran == s.ran + multiset(s.jobs[..taken])
      && t.errs == s.errs + Failing(s.jobs[..m], fails)
      && t.workers == s.workers[w := if m < |s.jobs| then Sending(s.jobs[m])
                                     else if s.jobsClosed then Exited else Idle]
      && (m < |s.jobs| ==> |t.errs| == |s.workers|)
  {
    WorkEnd(s, w, fails, m);
    hide IsRun, After, Failing, WorkLabels, AfterRounds;
    RanMore(s, fails, m);
    RoundsFailed(s, fails, m);
    assert s.workers[w := Idle] == s.workers;
  }

  /** The first `m` errors found room. */
  ghost predicate Going(s: Pool, fails: nat -> bool, m: nat) {
    m <= |s.jobs| && |s.errs| + |Failing(s.jobs[..m], fails)| <= Capacity(s)
  }

  lemma GoingFirst(s: Pool, fails: nat -> bool)
    requires |s.errs| <= Capacity(s)
    ensures Going(s, fails, 0)
  {
  }

  lemma GoingOn(s: Pool, fails: nat -> bool, m: nat)
    requires Going(s, fails, m)
    ensures |AfterRounds(s, fails, m).errs| <= Capacity(s)
    ensures m == |s.jobs| ==> Stops(s, fails, m)
    ensures m < |s.jobs| && fails(s.jobs[m]) && |AfterRounds(s, fails, m).errs| == Capacity(s) ==> Stops(s, fails, m)
    ensures m < |s.jobs| && !(fails(s.jobs[m]) && |AfterRounds(s, fails, m).errs| == Capacity(s)) ==>
              Going(s, fails, m + 1)
  {
    RoundsFailed(s, fails, m);
    if m < |s.jobs| {
      assert s.jobs[..m + 1] == s.jobs[..m] + [s.jobs[m]];
      FailingNext(s.jobs[..m], s.jobs[m], fails);
    }
  }

  /** The worker's run ends in a state without a panic, and so in one that keeps the invariant. */
  lemma WorkStops(s: Pool, w: nat, fails: nat -> bool, m: nat)
    requires Inv(s) && Ready(s, w) && Stops(s, fails, m)
    ensures IsRun(s, WorkLabels(s, w, fails, m))
    ensures After(s, WorkLabels(s, w, fails, m)) == AfterWork(s, w, fails, m)
    ensures Inv(AfterWork(s, w, fails, m)) && AfterWork(s, w, fails, m).panic.None?
    ensures
      var t, end := AfterRounds(s, fails, m), AfterWork(s, w, fails, m);
      && end.jobs == (if m < |s.jobs| then t.jobs[1..] else t.jobs)
      && end.errs == t.errs && end.wg == t.wg && Capacity(end) == Capacity(t)
      && end.closed == t.closed && end.jobsClosed == t.jobsClosed && end.errsClosed == t.errsClosed
  {
    WorkEnd(s, w, fails, m);
    PoolInvariant.RunInv(s, WorkLabels(s, w, fails, m));
  }

  lemma CloseStops(s: Pool)
    requires Inv(s) && s.panic.None? && s.closer.Unclosed?
    ensures IsRun(s, CloseLabels(s))
    ensures
      var t := After(s, CloseLabels(s));
      && Inv(t) && t.panic.None? && |t.workers| == |s.workers|
      && t.closed && t.jobsClosed && t.errsClosed == (if s.wg == 0 then true else s.errsClosed)
      && t.jobs == s.jobs && t.errs == s.errs && t.wg == s.wg
  {
    CloseRun(s);
    hide IsRun, After;
    PoolInvariant.RunInv(s, CloseLabels(s));
  }

  lemma QueueStops(s: Pool, p: nat)
    requires Inv(s) && s.panic.None? && p < |s.producers| && s.producers[p].Called?
    ensures IsRun(s, QueueLabels(s, p))
    ensures
      var t := After(s, QueueLabels(s, p));
      && Inv(t) && t.panic.None? && |t.workers| == |s.workers|
      && t.closed == s.closed && t.jobsClosed == s.jobsClosed && t.errs == s.errs && t.errsClosed == s.errsClosed
      && t.wg == (if s.closed then s.wg else s.wg + 1)
      && t.jobs == (if !s.closed && |s.jobs| < Capacity(s) then s.jobs + [p] else s.jobs)
      && |s.jobs| <= Capacity(s)
  {
    QueueRun(s, p);
    hide IsRun, After;
    PoolInvariant.RunInv(s, QueueLabels(s, p));
  }

  // ---------- the object ----------

  class WorkerPool {
    const capacity: nat  // of both channels
    var jobs: seq<nat>
    var jobsClosed: bool
    var errs: seq<nat>
    var errsClosed: bool
    var closed: bool
    var wg: int
    ghost var others: Pool  // where each goroutine stands, and history; its channel fields are not used

    constructor (workers: nat, ghost producers: nat, ghost waiters: nat)
      ensures Contents() == NewPool(workers, producers, waiters) && Valid()
    {
      capacity := workers;
      jobs, jobsClosed, errs, errsClosed, closed, wg := [], false, [], false, false, 0;
      others := NewPool(workers, producers, waiters);
      new;
      PoolInvariant.NewPoolInv(workers, producers, waiters);
    }

    ghost function Contents(): Pool
      reads this
    {
      others.(jobs := jobs, jobsClosed := jobsClosed, errs := errs, errsClosed := errsClosed,
              closed := closed, wg := wg)
    }

    /** Reached without a panic. */
    ghost predicate Valid()
      reads this
    {
      capacity == Capacity(Contents()) && Contents().panic.None? && Inv(Contents())
    }

    /** Returns, or waits in its second select. */
    method QueueJob(p: nat)
      requires Valid() && p < |Contents().producers| && Contents().producers[p].Called?
      modifies this
      ensures Valid() && IsRun(old(Contents()), QueueLabels(old(Contents()), p))
      ensures Contents() == After(old(Contents()), QueueLabels(old(Contents()), p))
    {
      ghost var s := Contents();
      hide Inv, IsRun, After, QueueLabels;
      QueueStops(s, p);
      others := After(s, QueueLabels(s, p));
      if closed { return; }
      wg := wg + 1;
      if |jobs| == capacity { return; }
      jobs := jobs + [p];
    }

    /** Returns, or waits for the jobs in flight. */
    method Wait(q: nat) returns (returned: bool)
      requires Valid() && q < |Contents().waiters| && Contents().waiters[q].Uncalled?
      modifies this`others
      ensures Valid() && returned == (wg == 0) && IsRun(old(Contents()), WaitLabels(old(Contents()), q))
      ensures Contents() == After(old(Contents()), WaitLabels(old(Contents()), q))
    {
      ghost var s := Contents();
      WaitRun(s, q);
      PoolInvariant.RunInv(s, WaitLabels(s, q));
      hide Inv, IsRun, After, WaitLabels;
      others := After(s, WaitLabels(s, q));
      return wg == 0;
    }

    /** Returns, or waits for the jobs in flight. */
    method Close()
      requires Valid() && Contents().closer.Unclosed?
      modifies this
      ensures Valid() && IsRun(old(Contents()), CloseLabels(old(Contents())))
      ensures Contents() == After(old(Contents()), CloseLabels(old(Contents())))
    {
      ghost var s := Contents();
      hide Inv, IsRun, After, CloseLabels;
      CloseStops(s);
      others := After(s, CloseLabels(s));
      closed := true;
      jobsClosed := true;
      if wg != 0 { return; }
      errsClosed := true;
    }

    /** The body of a worker's loop. */
    method RunJob(fails: bool)
      requires jobs != []
      modifies this
      ensures Contents() == AfterRound(old(Contents()), fails)
    {
      others := AfterRound(Contents(), fails);
      var job := jobs[0];
      jobs := jobs[1..];
      if fails {
        errs := errs + [job];
      }
      wg := wg - 1;
    }

    /** The rounds of a worker's loop; `stuck` tells whether it stops at a job whose error finds no room. */
    method Rounds(fails: nat -> bool) returns (stuck: bool, ghost m: nat)
      requires capacity == Capacity(Contents()) && |errs| <= capacity
      modifies this
      ensures Stops(old(Contents()), fails, m) && Contents() == AfterRounds(old(Contents()), fails, m)
      ensures m <= |old(jobs)| && stuck == (m < |old(jobs)|)
    {
      ghost var s := Contents();
      GoingFirst(s, fails);
      hide Failing, Stops, Going;
      m, stuck := 0, false;
      while jobs != [] && !stuck
        invariant m <= |s.jobs| && Contents() == AfterRounds(s, fails, m) && Going(s, fails, m)
        invariant stuck ==> m < |s.jobs| && fails(s.jobs[m]) && |errs| == capacity
        decreases |s.jobs| - m, !stuck
      {
        GoingOn(s, fails, m);
        if fails(jobs[0]) && |errs| == capacity {
          stuck := true;
        } else {
          RunJob(fails(jobs[0]));
          m := m + 1;
        }
      }
      GoingOn(s, fails, m);
    }

    /** A worker's loop, until it ends, waits for a job, or waits for room for an error. */
    method Work(w: nat, fails: nat -> bool) returns (ghost m: nat)
      requires Valid() && w < |Contents().workers| && Contents().workers[w].Idle?
      modifies this
      ensures Valid() && Stops(old(Contents()), fails, m)
      ensures IsRun(old(Contents()), WorkLabels(old(Contents()), w, fails, m))
      ensures Contents() == After(old(Contents()), WorkLabels(old(Contents()), w, fails, m))
    {
      ghost var s := Contents();
      hide Inv, IsRun, After, Failing, WorkLabels, Stops, AfterWork, AfterRounds, Ready;
      InvReady(s, w);
      var stuck;
      stuck, m := Rounds(fails);
      WorkStops(s, w, fails, m);
      ghost var end := AfterWork(s, w, fails, m);
      others := end;
      if stuck {
        jobs := jobs[1..];
      }
      assert Contents() == end;
    }
  }
}
