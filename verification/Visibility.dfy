/**
 When eviction can be seen at all: for given bounds on lookup-to-reservation gaps and on admitted
 delays, exactly the time-to-live values for which some client gets another answer.
 */
module Visibility {
  import opened Wrappers
  import opened Sums
  import opened RateLimiter
  import opened Eviction
  import opened RateBound

  // ---------- grants, read off the answers ----------

  /** Answers that grant `key` a time with `from <= time < to`. */
  function GrantedIn(answers: seq<Decision>, key: string, from: int, to: int): nat {
    if answers == [] then 0
    else
      var d := answers[|answers| - 1];
      GrantedIn(answers[..|answers| - 1], key, from, to)
      + if d.key == key && d.answer.Granted? && from <= d.answer.time < to then 1 else 0
  }

  lemma GrantedMore(answers: seq<Decision>, d: Decision, key: string, from: int, to: int)
    ensures GrantedIn(answers + [d], key, from, to) == GrantedIn(answers, key, from, to)
            + if d.key == key && d.answer.Granted? && from <= d.answer.time < to then 1 else 0
  {
    assert (answers + [d])[..|answers + [d]| - 1] == answers;
  }

  lemma InWindowMore(grants: seq<Grant>, g: Grant, key: string, from: int, to: int)
    ensures InWindow(OfKey(grants + [g], key), from, to) == InWindow(OfKey(grants, key), from, to)
            + if g.key == key && from <= g.time < to then 1 else 0
  {
    assert (grants + [g])[..|grants + [g]| - 1] == grants;
    var kept := OfKey(grants, key);
    assert (kept + [g])[..|kept + [g]| - 1] == kept;
    assert kept + [] == kept;
  }

  /** A client could count the grants of a window itself: the record holds what was answered. */
  lemma {:induction false} GrantsAreAnswers(u: Setup, start: int, events: seq<Event>, key: string, from: int, to: int)
    requires LegalRun(u, Initial(start), events)
    ensures
      var s := Run(u, Initial(start), events);
      InWindow(OfKey(s.grants, key), from, to) == GrantedIn(s.answers, key, from, to)
  {
    if events != [] {
      var init, e := events[..|events| - 1], events[|events| - 1];
      GrantsAreAnswers(u, start, init, key, from, to);
      var s := Run(u, Initial(start), init);
      if e.Decide? {
        var s' := Step(u, s, e);
        GrantedMore(s.answers, s'.answers[|s.answers|], key, from, to);
        if s'.grants != s.grants {
          InWindowMore(s.grants, s'.grants[|s.grants|], key, from, to);
        }
      }
    }
  }

  lemma {:induction false} OneGranted(answers: seq<Decision>, key: string, from: int, to: int, i: nat)
    requires i < |answers| && answers[i].key == key && answers[i].answer.Granted?
    requires from <= answers[i].answer.time < to
    ensures GrantedIn(answers, key, from, to) >= 1
  {
    if i < |answers| - 1 {
      OneGranted(answers[..|answers| - 1], key, from, to, i);
    }
  }

  // ---------- runs, one event at a time ----------

  const DEVICE := "d"

  ghost predicate Leads(u: Setup, events: seq<Event>, s: System) {
    LegalRun(u, Initial(0), events) && Run(u, Initial(0), events) == s
  }

  ghost predicate LeadsSwiftly(u: Setup, events: seq<Event>, s: System, gap: int, delay: int) {
    Leads(u, events, s) && SwiftRun(u, 0, events, gap, delay)
  }

  /** The same, within the bounds if `swift`. */
  ghost predicate Led(u: Setup, events: seq<Event>, s: System, swift: bool, gap: int, delay: int) {
    Leads(u, events, s) && (swift ==> SwiftRun(u, 0, events, gap, delay))
  }

  lemma Then(u: Setup, events: seq<Event>, s: System, e: Event)
    requires Leads(u, events, s) && Legal(s, e)
    ensures Leads(u, events + [e], Step(u, s, e))
  {
    RunSnoc(u, Initial(0), events, e);
  }

  lemma ThenSwiftly(u: Setup, events: seq<Event>, s: System, e: Event, gap: int, delay: int)
    requires LeadsSwiftly(u, events, s, gap, delay) && Legal(s, e) && Swift(u, s, e, gap, delay)
    ensures LeadsSwiftly(u, events + [e], Step(u, s, e), gap, delay)
  {
    Then(u, events, s, e);
    assert (events + [e])[..|events + [e]| - 1] == events;
  }

  predicate NoTicks(events: seq<Event>) {
    forall i :: 0 <= i < |events| ==> !events[i].Tick?
  }

  /** Without ticks there is nothing to tell the two limiters apart. */
  lemma {:induction false} TicklessAlike(u: Setup, events: seq<Event>)
    requires LegalRun(u, Initial(0), events) && NoTicks(events)
    ensures Leads(NeverEvicting(u), events, Run(u, Initial(0), events))
  {
    if events != [] {
      TicklessAlike(u, events[..|events| - 1]);
    }
  }

  // ---------- calls that are waiting together ----------

  /** How long after a full bucket's first reservation its `i`-th one comes due, if none comes later than that. */
  function Due(r: Rate, i: nat): int {
    if Worth(r, i + 1) > Capacity(r) then Worth(r, i + 1) - Capacity(r) else 0
  }

  lemma DueMoves(r: Rate, i: nat)
    requires ValidRate(r)
    ensures Worth(r, i + 1) == Worth(r, i) + r.cost && Capacity(r) >= r.cost
    ensures 0 <= Due(r, i) <= Due(r, i + 1) <= Due(r, i) + r.cost
    ensures Due(r, i) <= Worth(r, i)
  {
  }

  /**
   `n` calls have reserved since the bucket was full at `t0`, each before its token was there; `m - n`
   are waiting.
   */
  ghost predicate Rushing(u: Setup, s: System, t0: int, n: nat, m: nat, seen: int) {
    && n <= m
    && s.core.limiters == map[DEVICE := Entry(0, seen)]
    && |s.core.buckets| == 1
    && Indebted(u.rate, s.core.buckets[0], t0, n)
    && s.core.buckets[0].last <= s.clock
    && (forall c: nat :: c in s.pending <==> n <= c < m)
    && (forall c: nat :: c in s.pending ==> s.pending[c] == Pending(DEVICE, 0, seen))
    && |s.answers| == n
    && (forall i :: 0 <= i < n ==> s.answers[i] == Decision(i, DEVICE, Granted(t0 + Due(u.rate, i))))
  }

  predicate Indebted(r: Rate, b: Bucket, t0: int, n: nat) {
    if n == 0 then b.credit == Capacity(r) && b.last <= t0
    else t0 <= b.last && b.credit == Capacity(r) - Worth(r, n) + (b.last - t0)
  }

  lemma RushFirst(u: Setup, t0: int, gap: int, delay: int)
    requires t0 >= 0
    ensures
      var e := Arrive(0, DEVICE, 0);
      && Legal(Initial(0), e) && Swift(u, Initial(0), e, gap, delay)
      && Rushing(u, Step(u, Initial(0), e), t0, 0, 1, 0) && Step(u, Initial(0), e).clock == 0
  {
  }

  lemma RushArrive(u: Setup, s: System, t0: int, n: nat, m: nat, seen: int, now: int, gap: int, delay: int)
    requires Rushing(u, s, t0, n, m, seen) && now >= s.clock && (m > n ==> seen == now) && gap >= 0
    ensures
      var e := Arrive(m, DEVICE, now);
      && Legal(s, e) && Swift(u, s, e, gap, delay)
      && Rushing(u, Step(u, s, e), t0, n, m + 1, now) && Step(u, s, e).clock == now
  {
  }

  /** A reservation made before its token is there is granted for when it is. */
  lemma IndebtedReserve(r: Rate, b: Bucket, t0: int, n: nat, now: int)
    requires ValidRate(r) && Indebted(r, b, t0, n) && b.last <= now
    requires t0 <= now <= t0 + Due(r, n) && (n == 0 ==> now == t0)
    ensures
      var (answer, b') := Reserve(r, b, now, None);
      answer == Granted(t0 + Due(r, n)) && Indebted(r, b', t0, n + 1) && b'.last == now
  {
    DueMoves(r, n);
  }

  lemma RushDecide(u: Setup, s: System, t0: int, n: nat, m: nat, seen: int, now: int, gap: int, delay: int)
    requires ValidRate(u.rate) && Rushing(u, s, t0, n, m, seen) && n < m && s.clock <= now <= seen + gap
    requires t0 <= now <= t0 + Due(u.rate, n) <= now + delay && (n == 0 ==> now == t0)
    ensures
      var e := Decide(n, now, None);
      && Legal(s, e) && Swift(u, s, e, gap, delay)
      && Rushing(u, Step(u, s, e), t0, n + 1, m, seen)
      && Step(u, s, e).clock == now && Step(u, s, e).core.buckets[0].last == now
  {
    IndebtedReserve(u.rate, s.core.buckets[0], t0, n, now);
  }

  /** More calls look the bucket up, all at the same time. */
  lemma {:induction false} Lookups(
      u: Setup, events: seq<Event>, s: System, t0: int, n: nat, m: nat, seen: int, now: int, more: nat,
      gap: int, delay: int)
    returns (events': seq<Event>, s': System)
    requires LeadsSwiftly(u, events, s, gap, delay) && NoTicks(events) && Rushing(u, s, t0, n, m, seen)
    requires now >= s.clock && (m > n ==> seen == now) && gap >= 0
    ensures LeadsSwiftly(u, events', s', gap, delay) && NoTicks(events')
    ensures Rushing(u, s', t0, n, m + more, if more == 0 then seen else now)
    ensures s'.clock == if more == 0 then s.clock else now
    ensures s'.core.buckets == s.core.buckets
    decreases more
  {
    events', s' := events, s;
    if more > 0 {
      var e := Arrive(m, DEVICE, now);
      RushArrive(u, s, t0, n, m, seen, now, gap, delay);
      ThenSwiftly(u, events, s, e, gap, delay);
      events', s' := Lookups(u, events + [e], Step(u, s, e), t0, n, m + 1, now, now, more - 1, gap, delay);
    }
  }

  /** Waiting calls reserve, all at the same time and before their tokens are there. */
  lemma {:induction false} Decisions(
      u: Setup, events: seq<Event>, s: System, t0: int, n: nat, m: nat, seen: int, now: int, more: nat,
      gap: int, delay: int)
    returns (events': seq<Event>, s': System)
    requires ValidRate(u.rate)
    requires LeadsSwiftly(u, events, s, gap, delay) && NoTicks(events) && Rushing(u, s, t0, n, m, seen)
    requires n + more <= m && s.clock <= now <= seen + gap
    requires t0 <= now <= t0 + Due(u.rate, n) && (n == 0 ==> now == t0)
    requires more > 0 ==> t0 + Due(u.rate, n + more - 1) <= now + delay
    ensures LeadsSwiftly(u, events', s', gap, delay) && NoTicks(events')
    ensures Rushing(u, s', t0, n + more, m, seen)
    ensures s'.clock == if more == 0 then s.clock else now
    ensures s'.core.buckets[0].last == if more == 0 then s.core.buckets[0].last else now
    decreases more
  {
    events', s' := events, s;
    if more > 0 {
      var e := Decide(n, now, None);
      DueGrows(u.rate, n, n + more - 1);
      RushDecide(u, s, t0, n, m, seen, now, gap, delay);
      ThenSwiftly(u, events, s, e, gap, delay);
      DueMoves(u.rate, n);
      events', s' := Decisions(u, events + [e], Step(u, s, e), t0, n + 1, m, seen, now, more - 1, gap, delay);
    }
  }

  lemma {:induction false} DueGrows(r: Rate, i: nat, j: nat)
    requires ValidRate(r) && i <= j
    ensures Due(r, i) <= Due(r, j)
  {
    if i < j {
      DueGrows(r, i, j - 1);
      DueMoves(r, j - 1);
    }
  }

  // ---------- the deepest debt the bounds allow ----------

  lemma {:induction false} WorthAdds(r: Rate, n: nat, m: nat)
    ensures Worth(r, n + m) == Worth(r, n) + Worth(r, m)
  {
    if m > 0 {
      WorthAdds(r, n, m - 1);
    }
  }

  /** The least number of tokens that cost at least `delay`. */
  lemma Tokens(r: Rate, delay: nat) returns (k: nat)
    requires ValidRate(r)
    ensures Worth(r, k) - r.cost < delay <= Worth(r, k)
  {
    k := 0;
    while Worth(r, k) < delay
      invariant Worth(r, k) - r.cost < delay
      decreases delay - Worth(r, k)
    {
      k := k + 1;
    }
  }

  /** The calls beyond the burst come due a token apart. */
  lemma DueBeyond(r: Rate, j: nat)
    requires ValidRate(r)
    ensures Due(r, r.burst + j) == Worth(r, j + 1)
    ensures Due(r, r.burst - 1) == 0
  {
    WorthAdds(r, r.burst, j + 1);
  }

  /** The burst is due at once, the calls after it a token apart. */
  lemma BurstDue(r: Rate, k: nat)
    requires ValidRate(r)
    ensures Due(r, 0) == Due(r, r.burst - 1) == 0 && Due(r, r.burst) == r.cost
    ensures k > 0 ==> Due(r, r.burst + k - 1) == Worth(r, k)
  {
    DueBeyond(r, 0);
    DueMoves(r, 0);
    DueGrows(r, 0, r.burst - 1);
    if k > 0 {
      DueBeyond(r, k - 1);
    }
  }

  lemma First(u: Setup, t0: int, gap: int, delay: int) returns (events: seq<Event>, s: System)
    requires t0 >= 0
    ensures LeadsSwiftly(u, events, s, gap, delay) && NoTicks(events)
    ensures Rushing(u, s, t0, 0, 1, 0) && s.clock == 0
  {
    RushFirst(u, t0, gap, delay);
    assert LeadsSwiftly(u, [], Initial(0), gap, delay);
    ThenSwiftly(u, [], Initial(0), Arrive(0, DEVICE, 0), gap, delay);
    events, s := [] + [Arrive(0, DEVICE, 0)], Step(u, Initial(0), Arrive(0, DEVICE, 0));
  }

  /** The burst is reserved `early` before the last `k` calls; all have looked up by then. */
  lemma IndebtTogether(u: Setup, gap: int, delay: int, k: nat, early: int) returns (events: seq<Event>, s: System)
    requires ValidRate(u.rate) && delay >= 0 && 0 <= early <= gap && early < u.rate.cost
    requires Worth(u.rate, k) == delay + early && (k == 0 ==> early == 0)
    ensures LeadsSwiftly(u, events, s, gap, delay) && NoTicks(events)
    ensures Rushing(u, s, gap - early, u.rate.burst + k, u.rate.burst + k, 0) && s.clock == gap
    ensures s.core.buckets[0].last == gap
  {
    var b, t0 := u.rate.burst, gap - early;
    hide LeadsSwiftly, Rushing, Indebted, Due, Worth, NoTicks;
    BurstDue(u.rate, k);
    var es1, s1 := First(u, t0, gap, delay);
    var es2, s2 := Lookups(u, es1, s1, t0, 0, 1, 0, 0, b - 1 + k, gap, delay);
    var es3, s3 := Decisions(u, es2, s2, t0, 0, b + k, 0, t0, b, gap, delay);
    events, s := Decisions(u, es3, s3, t0, b, b + k, 0, gap, k, gap, delay);
  }

  /** The same when the gap is shorter than that: the last calls look up after the burst is reserved. */
  lemma IndebtApart(u: Setup, gap: int, delay: int, k: nat, early: int) returns (events: seq<Event>, s: System)
    requires ValidRate(u.rate) && delay >= 0 && 0 <= gap < early < u.rate.cost
    requires Worth(u.rate, k) == delay + early && k > 0
    ensures LeadsSwiftly(u, events, s, gap, delay) && NoTicks(events)
    ensures Rushing(u, s, 0, u.rate.burst + k, u.rate.burst + k, early - gap) && s.clock == early
    ensures s.core.buckets[0].last == early
  {
    var b := u.rate.burst;
    hide LeadsSwiftly, Rushing, Indebted, Due, Worth, NoTicks;
    BurstDue(u.rate, k);
    var es1, s1 := First(u, 0, gap, delay);
    var es2, s2 := Lookups(u, es1, s1, 0, 0, 1, 0, 0, b - 1, gap, delay);
    var es3, s3 := Decisions(u, es2, s2, 0, 0, b, 0, 0, b, gap, delay);
    var es4, s4 := Lookups(u, es3, s3, 0, b, b, 0, early - gap, k, gap, delay);
    events, s := Decisions(u, es4, s4, 0, b, b + k, early - gap, early, k, gap, delay);
  }

  /**
   Calls that stay within the bounds leave the bucket owing `delay`, all of it reserved `gap` after the
   last lookup.
   */
  lemma Indebt(u: Setup, gap: int, delay: int)
    returns (events: seq<Event>, s: System, t0: int, k: nat, seen: int)
    requires ValidRate(u.rate) && gap >= 0 && delay >= 0
    ensures LeadsSwiftly(u, events, s, gap, delay) && NoTicks(events)
    ensures Rushing(u, s, t0, u.rate.burst + k, u.rate.burst + k, seen)
    ensures s.clock == seen + gap && s.core.buckets[0] == Bucket(-delay, seen + gap)
    ensures t0 + Worth(u.rate, k) == seen + gap + delay && t0 <= seen + gap
  {
    k := Tokens(u.rate, delay);
    var early := Worth(u.rate, k) - delay;
    WorthAdds(u.rate, u.rate.burst, k);
    hide LeadsSwiftly, Due, NoTicks;
    if gap >= early {
      t0, seen := gap - early, 0;
      events, s := IndebtTogether(u, gap, delay, k, early);
    } else {
      t0, seen := 0, early - gap;
      events, s := IndebtApart(u, gap, delay, k, early);
    }
  }

  // ---------- calls that come alone ----------

  /** No call is between its two halves. */
  predicate Quiet(s: System) {
    && s.pending == map[]
    && (DEVICE in s.core.limiters ==>
          && s.core.limiters[DEVICE].bucket < |s.core.buckets|
          && s.core.buckets[s.core.limiters[DEVICE].bucket].last <= s.clock
          && s.core.limiters[DEVICE].seen <= s.clock)
  }

  /** The credit a call would find. */
  function Balance(u: Setup, s: System, now: int): int
    requires Quiet(s)
  {
    if DEVICE in s.core.limiters then Credit(u.rate, s.core.buckets[s.core.limiters[DEVICE].bucket], now)
    else Capacity(u.rate)
  }

  /** A whole call, with nothing in between. */
  function Call(now: int): seq<Event> {
    [Arrive(0, DEVICE, now)] + [Decide(0, now, None)]
  }

  function GrantTime(u: Setup, s: System, now: int): int
    requires Quiet(s)
  {
    if Balance(u, s, now) < u.rate.cost then now + u.rate.cost - Balance(u, s, now) else now
  }

  lemma CallSteps(u: Setup, s: System, now: int)
    requires ValidRate(u.rate) && Quiet(s) && now >= s.clock
    ensures Legal(s, Arrive(0, DEVICE, now))
    ensures
      var s1 := Step(u, s, Arrive(0, DEVICE, now));
      && Legal(s1, Decide(0, now, None))
      && var s2 := Step(u, s1, Decide(0, now, None));
         && Quiet(s2) && s2.clock == now
         && DEVICE in s2.core.limiters
         && Balance(u, s2, now) == Balance(u, s, now) - u.rate.cost
         && s2.answers == s.answers + [Decision(0, DEVICE, Granted(GrantTime(u, s, now)))]
         && Reserve(u.rate, s1.core.buckets[s1.pending[0].bucket], now, None).0 == Granted(GrantTime(u, s, now))
         && s1.pending == map[0 := Pending(DEVICE, s1.core.limiters[DEVICE].bucket, now)]
  {
    assert Capacity(u.rate) >= u.rate.cost;
  }

  lemma BalanceLater(u: Setup, s: System, now: int, later: int)
    requires Quiet(s) && s.clock <= now <= later
    ensures Balance(u, s, later) == Min(Capacity(u.rate), Balance(u, s, now) + later - now)
  {
  }

  lemma ThenCall(u: Setup, events: seq<Event>, s: System, now: int, swift: bool, gap: nat, delay: nat)
    returns (s': System)
    requires ValidRate(u.rate) && Led(u, events, s, swift, gap, delay) && Quiet(s) && now >= s.clock
    requires swift ==> GrantTime(u, s, now) <= now + delay
    ensures Led(u, events + Call(now), s', swift, gap, delay) && Quiet(s') && s'.clock == now
    ensures Balance(u, s', now) == Balance(u, s, now) - u.rate.cost
    ensures s'.answers == s.answers + [Decision(0, DEVICE, Granted(GrantTime(u, s, now)))]
  {
    CallSteps(u, s, now);
    var e1, e2 := Arrive(0, DEVICE, now), Decide(0, now, None);
    var s1 := Step(u, s, e1);
    s' := Step(u, s1, e2);
    hide Step, Legal, Reserve, LegalRun, Run, SwiftRun, Quiet, Balance, GrantTime;
    assert events + Call(now) == events + [e1] + [e2];
    if swift {
      ThenSwiftly(u, events, s, e1, gap, delay);
      ThenSwiftly(u, events + [e1], s1, e2, gap, delay);
    } else {
      Then(u, events, s, e1);
      Then(u, events + [e1], s1, e2);
    }
  }

  /** Several of them at one moment. */
  function Burst(now: int, n: nat): seq<Event> {
    if n == 0 then [] else Burst(now, n - 1) + Call(now)
  }

  /** `n` calls took a token each, and the last of them waits for as many as the balance did not cover. */
  predicate Served(u: Setup, s: System, s': System, now: int, n: nat) {
    && Quiet(s) && Quiet(s') && s.clock <= s'.clock <= now
    && Balance(u, s', now) == Balance(u, s, now) - Worth(u.rate, n)
    && |s'.answers| == |s.answers| + n && s.answers <= s'.answers
    && (n > 0 ==>
          s'.answers[|s'.answers| - 1] == Decision(0, DEVICE, Granted(
            if Balance(u, s, now) < Worth(u.rate, n) then now + Worth(u.rate, n) - Balance(u, s, now) else now)))
  }

  lemma ServedNext(u: Setup, s: System, s1: System, s2: System, now: int, n: nat)
    requires Served(u, s, s1, now, n) && Quiet(s2) && s2.clock == now
    requires Balance(u, s2, now) == Balance(u, s1, now) - u.rate.cost
    requires s2.answers == s1.answers + [Decision(0, DEVICE, Granted(GrantTime(u, s1, now)))]
    ensures Served(u, s, s2, now, n + 1)
  {
  }

  lemma {:induction false} ThenBurst(
      u: Setup, events: seq<Event>, s: System, now: int, n: nat, swift: bool, gap: nat, delay: nat)
    returns (s': System)
    requires ValidRate(u.rate) && Led(u, events, s, swift, gap, delay) && Quiet(s) && now >= s.clock
    requires swift ==> Worth(u.rate, n) <= Balance(u, s, now) + delay
    ensures Led(u, events + Burst(now, n), s', swift, gap, delay) && Served(u, s, s', now, n)
    decreases n
  {
    hide *;
    BurstGrows(u, s, events, now, if n == 0 then 0 else n - 1);
    if n == 0 {
      s' := s;
    } else {
      var s1 := ThenBurst(u, events, s, now, n - 1, swift, gap, delay);
      s' := ThenOneMore(u, events + Burst(now, n - 1), s, s1, now, n - 1, swift, gap, delay);
    }
  }

  lemma BurstGrows(u: Setup, s: System, events: seq<Event>, now: int, n: nat)
    requires Quiet(s) && s.clock <= now
    ensures events + Burst(now, n + 1) == events + Burst(now, n) + Call(now)
    ensures events + Burst(now, 0) == events && Served(u, s, s, now, 0)
    ensures Worth(u.rate, n) <= Worth(u.rate, n + 1)
  {
  }

  lemma ThenOneMore(
      u: Setup, events: seq<Event>, s: System, s1: System, now: int, n: nat, swift: bool, gap: nat, delay: nat)
    returns (s': System)
    requires ValidRate(u.rate) && Led(u, events, s1, swift, gap, delay) && Served(u, s, s1, now, n)
    requires swift ==> Worth(u.rate, n + 1) <= Balance(u, s, now) + delay
    ensures Led(u, events + Call(now), s', swift, gap, delay) && Served(u, s, s', now, n + 1)
  {
    hide Led, Quiet, Call;
    s' := ThenCall(u, events, s1, now, swift, gap, delay);
    ServedNext(u, s, s1, s', now, n);
  }

  // ---------- the eviction that shows ----------

  /** The earliest tick that evicts the device, taken once its calls have reserved. */
  function Evicting(u: Setup, seen: int, gap: int): Event {
    Tick(seen + u.ttl + 1, seen + if u.ttl + 1 >= gap then u.ttl + 1 else gap)
  }

  lemma EvictingSteps(u: Setup, s: System, t0: int, n: nat, seen: int, gap: int, delay: int)
    requires ValidRate(u.rate) && u.evicting && u.ttl >= 0 && gap >= 0
    requires Rushing(u, s, t0, n, n, seen) && s.clock == seen + gap
    ensures
      var e := Evicting(u, seen, gap);
      var s', f' := Step(u, s, e), Step(NeverEvicting(u), s, e);
      && Legal(s, e) && Swift(u, s, e, gap, delay)
      && Quiet(s') && s'.clock == e.now && s'.answers == s.answers && Balance(u, s', e.now) == Capacity(u.rate)
      && GrantTime(u, s', e.now) == e.now
      && Quiet(f') && f'.clock == e.now && f'.answers == s.answers
      && Balance(u, f', e.now) == Credit(u.rate, s.core.buckets[0], e.now)
  {
    var e := Evicting(u, seen, gap);
    assert s.pending == map[];
    assert Step(u, s, e).core.limiters == map[];
    assert Capacity(u.rate) >= u.rate.cost;
  }

  /** Every client that keeps to the bounds gets the answers it would get without eviction. */
  ghost predicate Transparent(u: Setup, gap: int, delay: int) {
    forall start, events ::
      LegalRun(u, Initial(start), events) && SwiftRun(u, start, events, gap, delay) ==>
        && LegalRun(NeverEvicting(u), Initial(start), events)
        && Run(u, Initial(start), events).answers == Run(NeverEvicting(u), Initial(start), events).answers
  }

  /** A whole burst is granted at once exactly when the bucket is full. */
  lemma BurstTells(u: Setup, s: System, s': System, now: int)
    requires ValidRate(u.rate) && Served(u, s, s', now, u.rate.burst)
    ensures s'.answers != []
    ensures s'.answers[|s'.answers| - 1] == Decision(0, DEVICE, Granted(now)) <==>
              Balance(u, s, now) >= Capacity(u.rate)
  {
  }

  /** The deepest debt the bounds allow, and the tick that evicts it; without eviction the debt still shows. */
  lemma DebtEvicted(u: Setup, gap: int, delay: int) returns (events: seq<Event>, s: System, f: System, now: int)
    requires ValidRate(u.rate) && u.evicting && u.ttl >= 0 && gap >= 0 && delay >= 0
    requires gap + delay + Capacity(u.rate) > u.ttl + 1
    ensures LeadsSwiftly(u, events, s, gap, delay) && Leads(NeverEvicting(u), events, f)
    ensures Quiet(s) && Quiet(f) && s.clock == f.clock == now
    ensures Balance(u, s, now) == Capacity(u.rate) > Balance(NeverEvicting(u), f, now)
  {
    var before, t, t0, k, seen := Indebt(u, gap, delay);
    var e := Evicting(u, seen, gap);
    EvictingSteps(u, t, t0, u.rate.burst + k, seen, gap, delay);
    assert Credit(u.rate, t.core.buckets[0], e.now) < Capacity(u.rate);
    TicklessAlike(u, before);
    hide Step, Legal, LegalRun, SwiftRun, Rushing, Quiet, Balance, Credit;
    events, s, f, now := before + [e], Step(u, t, e), Step(NeverEvicting(u), t, e), e.now;
    BalanceIs(u, f, now);
    ThenSwiftly(u, before, t, e, gap, delay);
    Then(NeverEvicting(u), before, t, e);
  }

  /** Leave the bucket as deep in debt as the bounds allow, have it evicted, and use up a burst. */
  lemma Visible(u: Setup, gap: int, delay: int) returns (events: seq<Event>)
    requires ValidRate(u.rate) && u.evicting && u.ttl >= 0 && gap >= 0 && delay >= 0
    requires gap + delay + Capacity(u.rate) > u.ttl + 1
    ensures LegalRun(u, Initial(0), events) && SwiftRun(u, 0, events, gap, delay)
    ensures LegalRun(NeverEvicting(u), Initial(0), events)
    ensures Run(u, Initial(0), events).answers != Run(NeverEvicting(u), Initial(0), events).answers
  {
    var v := NeverEvicting(u);
    var before, s, f, now := DebtEvicted(u, gap, delay);
    hide LegalRun, SwiftRun, Quiet, Balance, Served, Burst;
    events := before + Burst(now, u.rate.burst);
    var s' := ThenBurst(u, before, s, now, u.rate.burst, true, gap, delay);
    var f' := ThenBurst(v, before, f, now, u.rate.burst, false, gap, delay);
    BurstTells(u, s, s', now);
    BurstTells(v, f, f', now);
  }

  lemma BalanceIs(u: Setup, s: System, now: int)
    requires Quiet(s)
    ensures Balance(NeverEvicting(u), s, now) == Balance(u, s, now)
  {
  }

  /**
   Eviction is invisible to every client that reserves within `gap` of its lookup and accepts delays of
   at most `delay` if and only if gap, delay and a full refill take at most one unit more than the ttl.
   */
  lemma TransparentIff(u: Setup, gap: int, delay: int)
    requires ValidRate(u.rate) && u.evicting && u.ttl >= 0 && gap >= 0 && delay >= 0
    ensures Transparent(u, gap, delay) <==> gap + delay + Capacity(u.rate) <= u.ttl + 1
  {
    assert Capacity(u.rate) >= 1;
    if gap + delay + Capacity(u.rate) <= u.ttl + 1 {
      forall start, events | LegalRun(u, Initial(start), events) && SwiftRun(u, start, events, gap, delay)
        ensures LegalRun(NeverEvicting(u), Initial(start), events)
        ensures Run(u, Initial(start), events).answers == Run(NeverEvicting(u), Initial(start), events).answers
      {
        LongTtlTransparent(u, start, events, gap, delay);
      }
    } else {
      var events := Visible(u, gap, delay);
    }
  }

  // ---------- two grants closer than a token ----------

  /** The last call due at or before `now`. */
  lemma LastDue(r: Rate, t0: int, k: nat, now: int) returns (i: nat)
    requires ValidRate(r) && t0 <= now
    ensures i <= k && t0 + Worth(r, i) <= now
    ensures i < k ==> now < t0 + Worth(r, i) + r.cost
  {
    i := 0;
    while i < k && t0 + Worth(r, i + 1) <= now
      invariant i <= k && t0 + Worth(r, i) <= now
    {
      i := i + 1;
    }
  }

  /** With a burst of one, the calls before the eviction are due a token apart, one of them just before it. */
  lemma DueBefore(u: Setup, s: System, t0: int, k: nat, seen: int, gap: int, delay: int) returns (from: int)
    requires ValidRate(u.rate) && u.rate.burst == 1 && u.ttl >= 0 && gap >= 0
    requires Rushing(u, s, t0, 1 + k, 1 + k, seen)
    requires t0 + Worth(u.rate, k) == seen + gap + delay && t0 <= seen + gap && delay >= 0
    requires gap + delay + u.rate.cost > u.ttl + 1
    ensures from <= Evicting(u, seen, gap).now < from + u.rate.cost
    ensures GrantedIn(s.answers, DEVICE, from, from + u.rate.cost) >= 1
  {
    var i := LastDue(u.rate, t0, k, Evicting(u, seen, gap).now);
    from := t0 + Worth(u.rate, i);
    DueBeyond(u.rate, if i > 0 then i - 1 else 0);
    assert s.answers[i] == Decision(i, DEVICE, Granted(t0 + Due(u.rate, i)));
    assert Due(u.rate, i) == Worth(u.rate, i);
    assert i == k ==> from == seen + gap + delay;
    OneGranted(s.answers, DEVICE, from, from + u.rate.cost, i);
  }

  /** The call after the eviction is granted less than a token after an earlier one. */
  lemma TooClose(u: Setup, gap: int, delay: int) returns (events: seq<Event>, from: int)
    requires ValidRate(u.rate) && u.rate.burst == 1 && u.evicting && u.ttl >= 0 && gap >= 0 && delay >= 0
    requires gap + delay + u.rate.cost > u.ttl + 1
    ensures LegalRun(u, Initial(0), events) && SwiftRun(u, 0, events, gap, delay)
    ensures InWindow(OfKey(Run(u, Initial(0), events).grants, DEVICE), from, from + u.rate.cost) >= 2
  {
    hide Step, Legal, LegalRun, SwiftRun, Swift, Rushing, Quiet, Balance, GrantTime, Due, Worth, Capacity, GrantedIn,
      InWindow, OfKey, NoTicks, Call, Evicting, NeverEvicting;
    var before, s, t0, k, seen := Indebt(u, gap, delay);
    var e := Evicting(u, seen, gap);
    EvictingSteps(u, s, t0, 1 + k, seen, gap, delay);
    from := DueBefore(u, s, t0, k, seen, gap, delay);
    ThenSwiftly(u, before, s, e, gap, delay);
    var s' := ThenCall(u, before + [e], Step(u, s, e), e.now, true, gap, delay);
    GrantedMore(s.answers, Decision(0, DEVICE, Granted(e.now)), DEVICE, from, from + u.rate.cost);
    events := before + [e] + Call(e.now);
    GrantsAreAnswers(u, 0, events, DEVICE, from, from + u.rate.cost);
  }

  // ---------- calls that never wait ----------

  /** `n` calls, each made when its token is there, from a full bucket on. */
  function Steady(r: Rate, t0: int, n: nat): seq<Event> {
    if n == 0 then [] else Steady(r, t0, n - 1) + Call(t0 + Due(r, n - 1))
  }

  function SteadyAnswers(r: Rate, t0: int, n: nat): seq<Decision> {
    if n == 0 then [] else SteadyAnswers(r, t0, n - 1) + [Decision(0, DEVICE, Granted(t0 + Due(r, n - 1)))]
  }

  /** `n` calls were made, each when it was due; the next one's token will be there when it is. */
  predicate OnTime(u: Setup, s: System, t0: int, n: nat) {
    && Quiet(s)
    && s.clock <= t0 + Due(u.rate, n)
    && Balance(u, s, t0 + Due(u.rate, n)) == Capacity(u.rate) - Worth(u.rate, n) + Due(u.rate, n)
  }

  /** From `s` on, `n` calls were granted without waiting. */
  predicate Steadied(u: Setup, s: System, s': System, t0: int, n: nat) {
    OnTime(u, s', t0, n) && s'.answers == s.answers + SteadyAnswers(u.rate, t0, n)
  }

  lemma SteadyGrows(u: Setup, events: seq<Event>, s: System, t0: int, n: nat)
    ensures events + Steady(u.rate, t0, n + 1) == events + Steady(u.rate, t0, n) + Call(t0 + Due(u.rate, n))
    ensures events + Steady(u.rate, t0, 0) == events
    ensures OnTime(u, s, t0, 0) ==> Steadied(u, s, s, t0, 0)
  {
  }

  lemma {:induction false} ThenSteady(
      u: Setup, events: seq<Event>, s: System, t0: int, n: nat, swift: bool, gap: nat, delay: nat)
    returns (s': System)
    requires ValidRate(u.rate) && Led(u, events, s, swift, gap, delay) && OnTime(u, s, t0, 0)
    ensures Led(u, events + Steady(u.rate, t0, n), s', swift, gap, delay) && Steadied(u, s, s', t0, n)
    decreases n
  {
    SteadyGrows(u, events, s, t0, if n == 0 then 0 else n - 1);
    hide *;
    if n == 0 {
      s' := s;
    } else {
      var s1 := ThenSteady(u, events, s, t0, n - 1, swift, gap, delay);
      s' := ThenOneDue(u, events + Steady(u.rate, t0, n - 1), s, s1, t0, n - 1, swift, gap, delay);
    }
  }

  lemma ThenOneDue(
      u: Setup, events: seq<Event>, s: System, s1: System, t0: int, n: nat, swift: bool, gap: nat, delay: nat)
    returns (s': System)
    requires ValidRate(u.rate) && Led(u, events, s1, swift, gap, delay) && Steadied(u, s, s1, t0, n)
    ensures Led(u, events + Call(t0 + Due(u.rate, n)), s', swift, gap, delay) && Steadied(u, s, s', t0, n + 1)
  {
    hide Led, OnTime, Call, Due, ValidRate;
    s' := ThenDue(u, events, s1, t0, n, swift, gap, delay);
    var d := Decision(0, DEVICE, Granted(t0 + Due(u.rate, n)));
    assert s.answers + SteadyAnswers(u.rate, t0, n + 1) == s.answers + SteadyAnswers(u.rate, t0, n) + [d];
  }

  /** One more call when it is due. */
  lemma ThenDue(u: Setup, events: seq<Event>, s: System, t0: int, n: nat, swift: bool, gap: nat, delay: nat)
    returns (s': System)
    requires ValidRate(u.rate) && Led(u, events, s, swift, gap, delay) && OnTime(u, s, t0, n)
    ensures Led(u, events + Call(t0 + Due(u.rate, n)), s', swift, gap, delay) && OnTime(u, s', t0, n + 1)
    ensures s'.answers == s.answers + [Decision(0, DEVICE, Granted(t0 + Due(u.rate, n)))]
  {
    var now := t0 + Due(u.rate, n);
    DueMoves(u.rate, n);
    SteadyCovers(u.rate, n);
    hide Led, Due, Worth, Capacity, Quiet, Balance, Call;
    s' := ThenCall(u, events, s, now, swift, gap, delay);
    BalanceLater(u, s', now, t0 + Due(u.rate, n + 1));
  }

  /** When a call is due its token is there, and the balance stays under the cap. */
  lemma SteadyCovers(r: Rate, n: nat)
    requires ValidRate(r)
    ensures Capacity(r) - Worth(r, n) + Due(r, n) >= r.cost
    ensures Capacity(r) - Worth(r, n + 1) + Due(r, n + 1) <= Capacity(r)
  {
    DueMoves(r, n);
    DueMoves(r, n + 1);
  }

  lemma {:induction false} SteadyGranted(answers: seq<Decision>, r: Rate, t0: int, n: nat, from: int, to: int)
    requires ValidRate(r) && from <= t0 && (n > 0 ==> t0 + Due(r, n - 1) < to)
    ensures GrantedIn(answers + SteadyAnswers(r, t0, n), DEVICE, from, to) == GrantedIn(answers, DEVICE, from, to) + n
  {
    if n == 0 {
      assert answers + [] == answers;
    } else {
      var d := Decision(0, DEVICE, Granted(t0 + Due(r, n - 1)));
      if n > 1 { DueMoves(r, n - 2); }
      SteadyGranted(answers, r, t0, n - 1, from, to);
      GrantedMore(answers + SteadyAnswers(r, t0, n - 1), d, DEVICE, from, to);
      assert answers + SteadyAnswers(r, t0, n) == answers + SteadyAnswers(r, t0, n - 1) + [d];
    }
  }

  /** Every limiter, evicting or not, grants calls that never wait as fast as its rate and burst allow. */
  lemma SteadyGrants(u: Setup, n: nat, window: int)
    requires ValidRate(u.rate) && n > 0 && Due(u.rate, n - 1) < window
    ensures LegalRun(u, Initial(0), Steady(u.rate, 0, n)) && SwiftRun(u, 0, Steady(u.rate, 0, n), 0, 0)
    ensures InWindow(OfKey(Run(u, Initial(0), Steady(u.rate, 0, n)).grants, DEVICE), 0, 0 + window) == n
  {
    assert Leads(u, [], Initial(0)) && SwiftRun(u, 0, [], 0, 0);
    BurstDue(u.rate, 0);
    assert OnTime(u, Initial(0), 0, 0);
    hide OnTime, LegalRun, SwiftRun, Quiet, Balance, Due, Worth, Capacity;
    var s := ThenSteady(u, [], Initial(0), 0, n, true, 0, 0);
    assert [] + Steady(u.rate, 0, n) == Steady(u.rate, 0, n);
    SteadyGranted([], u.rate, 0, n, 0, window);
    GrantsAreAnswers(u, 0, Steady(u.rate, 0, n), DEVICE, 0, window);
  }

  // ---------- two bursts, one right after the other ----------

  lemma {:induction false} AllGranted(answers: seq<Decision>, from: int, to: int)
    requires forall i :: 0 <= i < |answers| ==>
               answers[i].key == DEVICE && answers[i].answer.Granted? && from <= answers[i].answer.time < to
    ensures GrantedIn(answers, DEVICE, from, to) == |answers|
  {
    if answers != [] {
      AllGranted(answers[..|answers| - 1], from, to);
    }
  }

  /** A burst of calls that look up at once and reserve a ttl later, all granted then. */
  lemma LateBurst(u: Setup, window: int) returns (events: seq<Event>, s: System)
    requires ValidRate(u.rate) && u.ttl >= 0 && window > 0
    ensures LeadsSwiftly(u, events, s, u.ttl, 0) && s.clock == u.ttl
    ensures Rushing(u, s, u.ttl, u.rate.burst, u.rate.burst, 0)
    ensures GrantedIn(s.answers, DEVICE, u.ttl, u.ttl + window) == u.rate.burst
  {
    BurstDue(u.rate, 0);
    events, s := IndebtTogether(u, u.ttl, 0, 0, 0);
    forall i | 0 <= i < |s.answers|
      ensures s.answers[i].key == DEVICE && s.answers[i].answer == Granted(u.ttl)
    {
      DueGrows(u.rate, 0, i);
      DueGrows(u.rate, i, u.rate.burst - 1);
    }
    AllGranted(s.answers, u.ttl, u.ttl + window);
  }

  lemma FreshOnTime(u: Setup, s: System, t0: int)
    requires ValidRate(u.rate) && Quiet(s) && s.clock == t0 && Balance(u, s, t0) == Capacity(u.rate)
    ensures OnTime(u, s, t0, 0)
  {
    BurstDue(u.rate, 0);
  }

  lemma EvictingNext(u: Setup)
    ensures u.ttl >= 0 ==> Evicting(u, 0, u.ttl) == Tick(u.ttl + 1, u.ttl + 1)
  {
  }

  lemma DueNonNegative(r: Rate, i: nat)
    ensures Due(r, i) >= 0
  {
  }

  /** The late burst, and the eviction one unit later. */
  lemma LateEviction(u: Setup, window: int) returns (events: seq<Event>, s: System)
    requires ValidRate(u.rate) && u.evicting && u.ttl >= 0 && window > 0
    ensures LeadsSwiftly(u, events, s, u.ttl, 0) && OnTime(u, s, u.ttl + 1, 0)
    ensures GrantedIn(s.answers, DEVICE, u.ttl, u.ttl + window) == u.rate.burst
  {
    EvictingNext(u);
    hide Step, Legal, LeadsSwiftly, Swift, Rushing, Quiet, Balance, OnTime, GrantedIn, Evicting, NeverEvicting,
      ValidRate;
    var before, t := LateBurst(u, window);
    var e := Evicting(u, 0, u.ttl);
    EvictingSteps(u, t, u.ttl, u.rate.burst, 0, u.ttl, 0);
    ThenSwiftly(u, before, t, e, u.ttl, 0);
    events, s := before + [e], Step(u, t, e);
    FreshOnTime(u, s, u.ttl + 1);
  }

  /**
   Evicted so soon, the device finds a fresh bucket: a whole burst more within the window than a single
   bucket allows, with no call admitted later than a ttl after its lookup.
   */
  lemma DoubleBurst(u: Setup, n: nat, window: int) returns (events: seq<Event>, s: System)
    requires ValidRate(u.rate) && u.evicting && u.ttl >= 0 && n > 0 && Due(u.rate, n - 1) + 1 < window
    ensures LeadsSwiftly(u, events, s, u.ttl, 0)
    ensures GrantedIn(s.answers, DEVICE, u.ttl, u.ttl + window) == u.rate.burst + n
  {
    DueNonNegative(u.rate, n - 1);
    hide OnTime, Due, GrantedIn, Steady, SteadyAnswers, Leads, SwiftRun, ValidRate;
    var before, t := LateEviction(u, window);
    s := ThenSteady(u, before, t, u.ttl + 1, n, true, u.ttl, 0);
    events := before + Steady(u.rate, u.ttl + 1, n);
    SteadyGranted(t.answers, u.rate, u.ttl + 1, n, u.ttl, u.ttl + window);
  }

  /** Gap and delay within the ttl together bring every grant within the ttl of its lookup. */
  lemma {:induction false} SwiftIsTimely(u: Setup, start: int, events: seq<Event>, gap: int, delay: int)
    requires LegalRun(u, Initial(start), events) && SwiftRun(u, start, events, gap, delay)
    requires delay >= 0 && gap + delay <= u.ttl
    ensures TimelyRun(u, start, events)
  {
    if events != [] {
      SwiftIsTimely(u, start, events[..|events| - 1], gap, delay);
    }
  }

  // ---------- patient calls pile up ----------

  /** A tick more than a ttl after everything so far evicts the device and grants nothing. */
  lemma ThenEvict(u: Setup, events: seq<Event>, s: System) returns (s': System)
    requires Leads(u, events, s) && Quiet(s) && u.evicting && u.ttl >= 0
    ensures Leads(u, events + [Tick(s.clock + u.ttl + 1, s.clock + u.ttl + 1)], s')
    ensures Quiet(s') && DEVICE !in s'.core.limiters && s'.answers == s.answers && s'.clock == s.clock + u.ttl + 1
  {
    var e := Tick(s.clock + u.ttl + 1, s.clock + u.ttl + 1);
    s' := Step(u, s, e);
    hide LegalRun, Run;
    Then(u, events, s, e);
  }

  /** So many patient calls at `now` that the last of them is due within a token of `from`. */
  lemma Enough(r: Rate, now: int, from: int) returns (n: nat)
    requires ValidRate(r) && now < from
    ensures n > 0 && from <= now + Due(r, n - 1) < from + r.cost
  {
    n := 1;
    BurstDue(r, 0);
    while now + Due(r, n - 1) < from
      invariant n > 0 && now + Due(r, n - 1) < from + r.cost
      decreases if n < r.burst then r.burst - n else 0, from - (now + Due(r, n - 1))
    {
      DueSteps(r, n - 1);
      n := n + 1;
    }
  }

  /** Beyond the burst each call is due exactly a token after the one before. */
  lemma DueSteps(r: Rate, i: nat)
    requires ValidRate(r)
    ensures i + 1 >= r.burst ==> Due(r, i + 1) == Due(r, i) + r.cost
    ensures Due(r, i + 1) <= Due(r, i) + r.cost
  {
    DueMoves(r, i);
    if i + 1 >= r.burst {
      DueBeyond(r, i + 1 - r.burst);
      if i >= r.burst {
        DueBeyond(r, i - r.burst);
      } else {
        BurstDue(r, 0);
      }
    }
  }

  /** Later answers add to the count; the last one adds itself. */
  lemma {:induction false} GrantedGrows(a: seq<Decision>, b: seq<Decision>, from: int, to: int)
    requires a <= b
    ensures GrantedIn(a, DEVICE, from, to) <= GrantedIn(b, DEVICE, from, to)
  {
    if |a| < |b| {
      GrantedGrows(a, b[..|b| - 1], from, to);
    } else {
      assert a == b;
    }
  }

  lemma LastCounts(a: seq<Decision>, b: seq<Decision>, from: int, to: int)
    requires a <= b && |a| < |b| && b[|b| - 1].key == DEVICE && b[|b| - 1].answer.Granted?
    requires from <= b[|b| - 1].answer.time < to
    ensures GrantedIn(a, DEVICE, from, to) + 1 <= GrantedIn(b, DEVICE, from, to)
  {
    GrantedGrows(a, b[..|b| - 1], from, to);
  }

  /** One round: the calls that reach the window, and the eviction that lets the next round start afresh. */
  lemma PileRound(u: Setup, events: seq<Event>, s: System, from: int, window: int)
    returns (events': seq<Event>, s': System)
    requires ValidRate(u.rate) && u.evicting && u.ttl >= 0 && u.rate.cost <= window
    requires Leads(u, events, s) && Quiet(s) && DEVICE !in s.core.limiters && s.clock < from
    ensures Leads(u, events', s') && Quiet(s') && DEVICE !in s'.core.limiters && s'.clock == s.clock + u.ttl + 1
    ensures GrantedIn(s'.answers, DEVICE, from, from + window)
            >= GrantedIn(s.answers, DEVICE, from, from + window) + 1
  {
    var n := Enough(u.rate, s.clock, from);
    var t := ThenBurst(u, events, s, s.clock, n, false, 0, 0);
    assert t.answers[|t.answers| - 1] == Decision(0, DEVICE, Granted(s.clock + Due(u.rate, n - 1)));
    LastCounts(s.answers, t.answers, from, from + window);
    hide Leads, Quiet, Served, Burst, GrantedIn;
    s' := ThenEvict(u, events + Burst(s.clock, n), t);
    events' := events + Burst(s.clock, n) + [Tick(t.clock + u.ttl + 1, t.clock + u.ttl + 1)];
  }

  /** After `n` rounds `n` evicted buckets go on granting in the same window. */
  lemma {:induction false} Pile(u: Setup, n: nat, from: int, window: int) returns (events: seq<Event>, s: System)
    requires ValidRate(u.rate) && u.evicting && u.ttl >= 0 && u.rate.cost <= window
    requires Times(n, u.ttl + 1) <= from
    ensures Leads(u, events, s) && Quiet(s) && DEVICE !in s.core.limiters && s.clock == Times(n, u.ttl + 1)
    ensures GrantedIn(s.answers, DEVICE, from, from + window) >= n
    decreases n
  {
    if n == 0 {
      events, s := [], Initial(0);
      assert Leads(u, events, s);
    } else {
      hide Leads, Quiet, GrantedIn;
      events, s := Pile(u, n - 1, from, window);
      events, s := PileRound(u, events, s, from, window);
    }
  }
}
