/**
 Eviction is invisible: compared with a limiter that never evicts, the collecting limiter answers
 every call alike, provided evicted buckets are full and no call is caught between its lookup and
 its reservation.
 */
module Eviction {
  import opened Wrappers
  import opened RateLimiter
  import opened Sums

  // ---------- invariants of any run ----------

  /** Every key has a bucket of its own, and no bucket has been used later than the present. */
  ghost predicate WellFormed(s: System) {
    && (forall k :: k in s.core.limiters ==> s.core.limiters[k].bucket < |s.core.buckets|)
    && (forall k, l :: k in s.core.limiters && l in s.core.limiters && k != l ==>
          s.core.limiters[k].bucket != s.core.limiters[l].bucket)
    && (forall i :: 0 <= i < |s.core.buckets| ==> s.core.buckets[i].last <= s.clock)
    && (forall k :: k in s.core.limiters ==> s.core.limiters[k].seen <= s.clock)
  }

  /** Every call between its two halves still holds the bucket the map has for its key. */
  ghost predicate Attached(s: System) {
    forall c :: c in s.pending ==>
      && s.pending[c].key in s.core.limiters
      && s.core.limiters[s.pending[c].key].bucket == s.pending[c].bucket
      && s.pending[c].at <= s.core.limiters[s.pending[c].key].seen
  }

  /** No call stays longer than `gap` between its lookup and its reservation. */
  ghost predicate Prompt(s: System, e: Event, gap: int) {
    forall c :: c in s.pending ==> e.now <= s.pending[c].at + gap
  }

  lemma ArriveAttached(u: Setup, s: System, e: Event)
    requires Legal(s, e) && e.Arrive? && WellFormed(s) && Attached(s)
    ensures Attached(Step(u, s, e))
  {
  }

  lemma ArriveWellFormed(u: Setup, s: System, e: Event)
    requires Legal(s, e) && e.Arrive? && WellFormed(s) && Attached(s)
    ensures WellFormed(Step(u, s, e)) && Attached(Step(u, s, e))
  {
    ArriveAttached(u, s, e);
    hide Attached;
  }

  lemma DecideWellFormed(u: Setup, s: System, e: Event)
    requires Legal(s, e) && e.Decide? && WellFormed(s) && Attached(s)
    ensures WellFormed(Step(u, s, e)) && Attached(Step(u, s, e))
  {
  }

  /** The collector cannot take a bucket from under a call: its key was seen too recently. */
  lemma TickWellFormed(u: Setup, s: System, e: Event)
    requires Legal(s, e) && e.Tick? && WellFormed(s) && Attached(s)
    requires u.evicting ==> Prompt(s, e, u.ttl)
    ensures WellFormed(Step(u, s, e)) && Attached(Step(u, s, e))
  {
  }

  lemma StepWellFormed(u: Setup, s: System, e: Event)
    requires Legal(s, e) && WellFormed(s) && Attached(s)
    requires u.evicting ==> Prompt(s, e, u.ttl)
    ensures WellFormed(Step(u, s, e)) && Attached(Step(u, s, e))
  {
    match e
    case Arrive(_, _, _) => ArriveWellFormed(u, s, e);
    case Decide(_, _, _) => DecideWellFormed(u, s, e);
    case Tick(_, _) => TickWellFormed(u, s, e);
  }

  // ---------- which keys the map holds ----------

  /** Event `i` is the key's last lookup, and no later tick finds it idle for longer than the ttl. */
  ghost predicate LastLookup(u: Setup, events: seq<Event>, key: string, i: nat) {
    && i < |events|
    && events[i].Arrive? && events[i].key == key
    && (forall j :: i < j < |events| && events[j].Arrive? ==> events[j].key != key)
    && (u.evicting ==> forall j :: i < j < |events| && events[j].Tick? ==> events[j].tick - events[i].now <= u.ttl)
  }

  /** A mapped key's entry carries the time of its last lookup. */
  lemma {:induction false} MappedSince(u: Setup, start: int, events: seq<Event>, key: string) returns (i: nat)
    requires LegalRun(u, Initial(start), events)
    requires key in Run(u, Initial(start), events).core.limiters
    ensures LastLookup(u, events, key, i)
    ensures Run(u, Initial(start), events).core.limiters[key].seen == events[i].now
  {
    var init, e := events[..|events| - 1], events[|events| - 1];
    if e.Arrive? && e.key == key {
      i := |events| - 1;
    } else {
      i := MappedSince(u, start, init, key);
    }
  }

  lemma {:induction false} StillMapped(u: Setup, start: int, events: seq<Event>, key: string, i: nat)
    requires LegalRun(u, Initial(start), events) && LastLookup(u, events, key, i)
    ensures key in Run(u, Initial(start), events).core.limiters
    ensures Run(u, Initial(start), events).core.limiters[key].seen == events[i].now
  {
    var init, e := events[..|events| - 1], events[|events| - 1];
    if i < |init| {
      StillMapped(u, start, init, key, i);
    }
  }

  /**
   The map holds exactly the keys that were looked up and that no tick since their last lookup
   found idle for longer than the ttl: the collector forgets every idle key and no other.
   */
  lemma RetainedIff(u: Setup, start: int, events: seq<Event>, key: string)
    requires LegalRun(u, Initial(start), events)
    ensures key in Run(u, Initial(start), events).core.limiters
            <==> exists i: nat :: LastLookup(u, events, key, i)
  {
    if key in Run(u, Initial(start), events).core.limiters {
      var i := MappedSince(u, start, events, key);
    }
    if i: nat :| LastLookup(u, events, key, i) {
      StillMapped(u, start, events, key, i);
    }
  }

  // ---------- the evicting limiter and the one that never evicts ----------

  function CreditOf(u: Setup, s: System, key: string): int
    requires key in s.core.limiters && s.core.limiters[key].bucket < |s.core.buckets|
  {
    Credit(u.rate, s.core.buckets[s.core.limiters[key].bucket], s.clock)
  }

  ghost predicate SameCalls(s: System, f: System) {
    && s.clock == f.clock
    && s.answers == f.answers
    && s.pending.Keys == f.pending.Keys
    && (forall c :: c in s.pending ==> s.pending[c].key == f.pending[c].key && s.pending[c].at == f.pending[c].at)
  }

  ghost predicate SameCredit(u: Setup, s: System, f: System)
    requires WellFormed(s) && WellFormed(f)
  {
    && (forall k :: k in s.core.limiters ==> k in f.core.limiters && CreditOf(u, s, k) == CreditOf(u, f, k))
    && (forall k :: k in f.core.limiters && k !in s.core.limiters ==> CreditOf(u, f, k) == Capacity(u.rate))
  }

  /** Same calls, same answers, same credit for every key; a key `s` has dropped is full in `f`. */
  ghost predicate Alike(u: Setup, s: System, f: System) {
    && WellFormed(s) && WellFormed(f) && Attached(s) && Attached(f)
    && SameCalls(s, f)
    && SameCredit(u, s, f)
  }

  /** What the collector evicts is full at the time its tick carries. */
  ghost predicate FullWhenEvicted(u: Setup, s: System, e: Event)
    requires WellFormed(s)
  {
    e.Tick? ==>
      forall k :: k in s.core.limiters && Expired(s.core.limiters[k], u.ttl, e.tick) ==>
        Credit(u.rate, s.core.buckets[s.core.limiters[k].bucket], e.tick) == Capacity(u.rate)
  }

  function NeverEvicting(u: Setup): Setup {
    u.(evicting := false)
  }

  /** Waiting keeps equal credits equal and full buckets full. */
  lemma CreditsLater(r: Rate, b: Bucket, b': Bucket, now: int, later: int)
    requires b.last <= now <= later && b'.last <= now
    ensures Credit(r, b, now) == Credit(r, b', now) ==> Credit(r, b, later) == Credit(r, b', later)
    ensures Credit(r, b, now) == Capacity(r) ==> Credit(r, b, later) == Capacity(r)
  {
  }

  /** Advancing the clock alone keeps the two limiters alike. */
  lemma AlikeLater(u: Setup, s: System, f: System, now: int)
    requires Alike(u, s, f) && now >= s.clock
    ensures Alike(u, s.(clock := now), f.(clock := now))
  {
    forall k | k in f.core.limiters
      ensures k in s.core.limiters ==> CreditOf(u, s.(clock := now), k) == CreditOf(u, f.(clock := now), k)
      ensures k !in s.core.limiters ==> CreditOf(u, f.(clock := now), k) == Capacity(u.rate)
    {
      var b := f.core.buckets[f.core.limiters[k].bucket];
      var a := if k in s.core.limiters then s.core.buckets[s.core.limiters[k].bucket] else b;
      CreditsLater(u.rate, b, a, s.clock, now);
    }
  }

  /** A step does not look at how far the clock lags behind it. */
  lemma StepAtNow(u: Setup, s: System, e: Event)
    requires Legal(s, e)
    ensures Legal(s.(clock := e.now), e) && Step(u, s.(clock := e.now), e) == Step(u, s, e)
  {
  }

  /** A lookup leaves the credit of every mapped key and gives a new key a full bucket. */
  lemma ArriveCredit(u: Setup, s: System, e: Event, k: string)
    requires e.Arrive? && e.now == s.clock && Legal(s, e) && WellFormed(s)
    ensures
      var s' := Step(u, s, e);
      && (k in s'.core.limiters <==> k in s.core.limiters || k == e.key)
      && (k in s'.core.limiters ==>
            && s'.core.limiters[k].bucket < |s'.core.buckets|
            && CreditOf(u, s', k) == if k in s.core.limiters then CreditOf(u, s, k) else Capacity(u.rate))
  {
  }

  lemma CallsArrive(u: Setup, s: System, f: System, e: Event)
    requires e.Arrive? && Legal(s, e) && SameCalls(s, f)
    ensures Legal(f, e)
    ensures SameCalls(Step(u, s, e), Step(NeverEvicting(u), f, e))
  {
  }

  lemma CreditArrive(u: Setup, s: System, f: System, e: Event)
    requires e.Arrive? && e.now == s.clock == f.clock && Legal(s, e) && Legal(f, e)
    requires WellFormed(s) && WellFormed(f) && SameCredit(u, s, f)
    requires WellFormed(Step(u, s, e)) && WellFormed(Step(NeverEvicting(u), f, e))
    ensures SameCredit(u, Step(u, s, e), Step(NeverEvicting(u), f, e))
  {
    var s', f' := Step(u, s, e), Step(NeverEvicting(u), f, e);
    forall k: string
      ensures k in s'.core.limiters ==> k in f'.core.limiters && CreditOf(u, s', k) == CreditOf(u, f', k)
      ensures k in f'.core.limiters && k !in s'.core.limiters ==> CreditOf(u, f', k) == Capacity(u.rate)
    {
      ArriveCredit(u, s, e, k);
      ArriveCredit(NeverEvicting(u), f, e, k);
      assert k in f.core.limiters ==> CreditOf(NeverEvicting(u), f, k) == CreditOf(u, f, k);
    }
  }

  lemma AlikeArrive(u: Setup, s: System, f: System, e: Event)
    requires e.Arrive? && e.now == s.clock && Legal(s, e) && Alike(u, s, f)
    ensures Legal(f, e)
    ensures Alike(u, Step(u, s, e), Step(NeverEvicting(u), f, e))
  {
    CallsArrive(u, s, f, e);
    ArriveWellFormed(u, s, e);
    ArriveWellFormed(NeverEvicting(u), f, e);
    CreditArrive(u, s, f, e);
  }

  /** Reservations on buckets with equal credit answer alike and leave equal credit. */
  lemma ReserveAlike(r: Rate, b: Bucket, b': Bucket, now: int, patience: Option<nat>)
    requires Credit(r, b, now) == Credit(r, b', now)
    ensures Reserve(r, b, now, patience).0 == Reserve(r, b', now, patience).0
    ensures Credit(r, Reserve(r, b, now, patience).1, now) == Credit(r, Reserve(r, b', now, patience).1, now)
  {
  }

  lemma CallsDecide(u: Setup, s: System, f: System, e: Event)
    requires e.Decide? && e.now == s.clock && Legal(s, e) && Alike(u, s, f)
    ensures Legal(f, e)
    ensures SameCalls(Step(u, s, e), Step(NeverEvicting(u), f, e))
  {
    var p, q := s.pending[e.call], f.pending[e.call];
    ReserveAlike(u.rate, s.core.buckets[p.bucket], f.core.buckets[q.bucket], e.now, e.patience);
  }

  /** A decision changes the credit of the call's own key only. */
  lemma DecideCredit(u: Setup, s: System, e: Event, k: string)
    requires e.Decide? && e.now == s.clock && Legal(s, e) && WellFormed(s) && Attached(s) && k in s.core.limiters
    ensures
      var p, s' := s.pending[e.call], Step(u, s, e);
      && s'.core.limiters == s.core.limiters && |s'.core.buckets| == |s.core.buckets|
      && CreditOf(u, s', k) ==
         if k == p.key then Credit(u.rate, Reserve(u.rate, s.core.buckets[p.bucket], e.now, e.patience).1, e.now)
         else CreditOf(u, s, k)
  {
  }

  lemma CreditDecide(u: Setup, s: System, f: System, e: Event, k: string)
    requires e.Decide? && e.now == s.clock && Legal(s, e) && Legal(f, e) && Alike(u, s, f)
    requires k in f.core.limiters
    ensures
      var s', f' := Step(u, s, e), Step(NeverEvicting(u), f, e);
      && s'.core.limiters == s.core.limiters && |s'.core.buckets| == |s.core.buckets|
      && f'.core.limiters == f.core.limiters && |f'.core.buckets| == |f.core.buckets|
      && (k in s.core.limiters ==> CreditOf(u, s', k) == CreditOf(u, f', k))
      && (k !in s.core.limiters ==> CreditOf(u, f', k) == Capacity(u.rate))
  {
    var p, q := s.pending[e.call], f.pending[e.call];
    ReserveAlike(u.rate, s.core.buckets[p.bucket], f.core.buckets[q.bucket], e.now, e.patience);
    DecideCredit(NeverEvicting(u), f, e, k);
    DecideCredit(u, s, e, p.key);
    if k in s.core.limiters {
      DecideCredit(u, s, e, k);
    }
    hide Step, Reserve;
    assert k !in s.core.limiters ==> k != q.key;
  }

  lemma AlikeDecide(u: Setup, s: System, f: System, e: Event)
    requires e.Decide? && e.now == s.clock && Legal(s, e) && Alike(u, s, f)
    ensures Legal(f, e)
    ensures Alike(u, Step(u, s, e), Step(NeverEvicting(u), f, e))
  {
    CallsDecide(u, s, f, e);
    DecideWellFormed(u, s, e);
    DecideWellFormed(NeverEvicting(u), f, e);
    var s', f' := Step(u, s, e), Step(NeverEvicting(u), f, e);
    forall k | k in f.core.limiters
      ensures s'.core.limiters == s.core.limiters && f'.core.limiters == f.core.limiters
      ensures k in s.core.limiters ==> CreditOf(u, s', k) == CreditOf(u, f', k)
      ensures k !in s.core.limiters ==> CreditOf(u, f', k) == Capacity(u.rate)
    {
      CreditDecide(u, s, f, e, k);
    }
  }

  lemma AlikeTick(u: Setup, s: System, f: System, e: Event)
    requires e.Tick? && e.now == s.clock && Legal(s, e) && Alike(u, s, f)
    requires Prompt(s, e, u.ttl) && FullWhenEvicted(u, s, e)
    ensures Legal(f, e)
    ensures Alike(u, Step(u, s, e), Step(NeverEvicting(u), f, e))
  {
    TickWellFormed(u, s, e);
    TickWellFormed(NeverEvicting(u), f, e);
    var s', f' := Step(u, s, e), Step(NeverEvicting(u), f, e);
    forall k | k in f'.core.limiters && k !in s'.core.limiters
      ensures CreditOf(u, f', k) == Capacity(u.rate)
    {
      if k in s.core.limiters {
        var entry := s.core.limiters[k];
        assert Expired(entry, u.ttl, e.tick);
        var b := s.core.buckets[entry.bucket];
        assert Credit(u.rate, b, e.tick) <= Credit(u.rate, b, s.clock);
        assert CreditOf(u, s, k) == Capacity(u.rate);
      }
    }
  }

  lemma AlikeStepNow(u: Setup, s: System, f: System, e: Event)
    requires e.now == s.clock && Legal(s, e) && Alike(u, s, f)
    requires Prompt(s, e, u.ttl) && FullWhenEvicted(u, s, e)
    ensures Legal(f, e)
    ensures Alike(u, Step(u, s, e), Step(NeverEvicting(u), f, e))
  {
    match e
    case Arrive(_, _, _) => AlikeArrive(u, s, f, e);
    case Decide(_, _, _) => AlikeDecide(u, s, f, e);
    case Tick(_, _) => AlikeTick(u, s, f, e);
  }

  lemma ConditionsAtNow(u: Setup, s: System, e: Event)
    requires WellFormed(s) && e.now >= s.clock && Prompt(s, e, u.ttl) && FullWhenEvicted(u, s, e)
    ensures WellFormed(s.(clock := e.now)) && Prompt(s.(clock := e.now), e, u.ttl)
    ensures FullWhenEvicted(u, s.(clock := e.now), e)
  {
  }

  lemma LegalAlike(u: Setup, s: System, f: System, e: Event)
    requires Legal(s, e) && Alike(u, s, f)
    ensures Legal(f, e)
  {
  }

  lemma AlikeStep(u: Setup, s: System, f: System, e: Event)
    requires Legal(s, e) && Alike(u, s, f)
    requires Prompt(s, e, u.ttl) && FullWhenEvicted(u, s, e)
    ensures Legal(f, e)
    ensures Alike(u, Step(u, s, e), Step(NeverEvicting(u), f, e))
  {
    LegalAlike(u, s, f, e);
    AlikeLater(u, s, f, e.now);
    var s1, f1 := s.(clock := e.now), f.(clock := e.now);
    ConditionsAtNow(u, s, e);
    StepAtNow(u, s, e);
    StepAtNow(NeverEvicting(u), f, e);
    AlikeStepNow(u, s1, f1, e);
  }

  // ---------- whole runs ----------

  /** Each call reserves within `ttl` of its lookup, and only full buckets are evicted. */
  ghost predicate Discreet(u: Setup, start: int, events: seq<Event>)
    requires LegalRun(u, Initial(start), events)
  {
    events != [] ==>
      var init, e := events[..|events| - 1], events[|events| - 1];
      var s := Run(u, Initial(start), init);
      && Discreet(u, start, init)
      && Prompt(s, e, u.ttl)
      && (WellFormed(s) ==> FullWhenEvicted(u, s, e))
  }

  lemma {:induction false} RunAlike(u: Setup, start: int, events: seq<Event>)
    requires LegalRun(u, Initial(start), events) && Discreet(u, start, events)
    ensures LegalRun(NeverEvicting(u), Initial(start), events)
    ensures Alike(u, Run(u, Initial(start), events), Run(NeverEvicting(u), Initial(start), events))
  {
    if events != [] {
      var init, e := events[..|events| - 1], events[|events| - 1];
      RunAlike(u, start, init);
      AlikeStep(u, Run(u, Initial(start), init), Run(NeverEvicting(u), Initial(start), init), e);
    }
  }

  /**
   Transparency: as long as no call takes longer than the ttl from its lookup to its reservation and
   every evicted bucket is full at the tick that evicts it, the collecting limiter gives every call
   the same answer, grant times included, as one that never evicts. Ticks may be stale.
   */
  lemma GcTransparent(u: Setup, start: int, events: seq<Event>)
    requires LegalRun(u, Initial(start), events) && Discreet(u, start, events)
    ensures LegalRun(NeverEvicting(u), Initial(start), events)
    ensures Run(u, Initial(start), events).answers == Run(NeverEvicting(u), Initial(start), events).answers
  {
    RunAlike(u, start, events);
  }

  // ---------- parameters that make every evicted bucket full ----------

  /** Lookup-to-reservation gaps of at most `gap` and admitted delays of at most `delay`. */
  ghost predicate Swift(u: Setup, s: System, e: Event, gap: int, delay: int)
    requires Legal(s, e)
  {
    && Prompt(s, e, gap)
    && (e.Decide? ==>
          var answer := Reserve(u.rate, s.core.buckets[s.pending[e.call].bucket], e.now, e.patience).0;
          answer.Granted? ==> answer.time <= e.now + delay)
  }

  ghost predicate SwiftRun(u: Setup, start: int, events: seq<Event>, gap: int, delay: int)
    requires LegalRun(u, Initial(start), events)
  {
    events != [] ==>
      var init, e := events[..|events| - 1], events[|events| - 1];
      && SwiftRun(u, start, init, gap, delay)
      && Swift(u, Run(u, Initial(start), init), e, gap, delay)
  }

  /** A mapped bucket was last used at most `gap` after its key was seen, and owes at most `delay`. */
  ghost predicate Shallow(s: System, gap: int, delay: int)
    requires WellFormed(s)
  {
    forall k :: k in s.core.limiters ==>
      var b := s.core.buckets[s.core.limiters[k].bucket];
      b.last <= s.core.limiters[k].seen + gap && b.credit >= -delay
  }

  lemma ShallowDecide(u: Setup, s: System, e: Event, gap: int, delay: int, k: string)
    requires Legal(s, e) && e.Decide? && WellFormed(s) && Attached(s) && Shallow(s, gap, delay)
    requires Swift(u, s, e, gap, delay) && k in s.core.limiters && delay >= 0
    ensures
      var s' := Step(u, s, e);
      var b := s'.core.buckets[s.core.limiters[k].bucket];
      s'.core.limiters == s.core.limiters && b.last <= s.core.limiters[k].seen + gap && b.credit >= -delay
  {
  }

  lemma ShallowArrive(u: Setup, s: System, e: Event, gap: int, delay: int)
    requires Legal(s, e) && e.Arrive? && WellFormed(s) && Attached(s) && Shallow(s, gap, delay)
    requires gap >= 0 && delay >= 0
    ensures WellFormed(Step(u, s, e)) && Shallow(Step(u, s, e), gap, delay)
  {
    ArriveWellFormed(u, s, e);
    assert Capacity(u.rate) >= 0;
  }

  lemma ShallowStep(u: Setup, s: System, e: Event, gap: int, delay: int)
    requires Legal(s, e) && WellFormed(s) && Attached(s) && Shallow(s, gap, delay)
    requires Swift(u, s, e, gap, delay) && (u.evicting ==> Prompt(s, e, u.ttl))
    requires gap >= 0 && delay >= 0
    ensures WellFormed(Step(u, s, e)) && Shallow(Step(u, s, e), gap, delay)
  {
    StepWellFormed(u, s, e);
    match e
    case Arrive(_, _, _) => ShallowArrive(u, s, e, gap, delay);
    case Decide(_, _, _) =>
      forall k | k in s.core.limiters
        ensures var b := Step(u, s, e).core.buckets[s.core.limiters[k].bucket];
                b.last <= s.core.limiters[k].seen + gap && b.credit >= -delay
      {
        ShallowDecide(u, s, e, gap, delay, k);
      }
    case Tick(_, _) =>
  }

  lemma ShallowFull(u: Setup, s: System, e: Event, gap: int, delay: int)
    requires WellFormed(s) && Shallow(s, gap, delay)
    requires gap + delay + Capacity(u.rate) <= u.ttl + 1
    ensures FullWhenEvicted(u, s, e)
  {
  }

  lemma {:induction false} SwiftIsDiscreet(u: Setup, start: int, events: seq<Event>, gap: int, delay: int)
    requires LegalRun(u, Initial(start), events) && SwiftRun(u, start, events, gap, delay)
    requires 0 <= gap <= u.ttl && delay >= 0 && gap + delay + Capacity(u.rate) <= u.ttl + 1
    ensures Discreet(u, start, events)
    ensures
      var s := Run(u, Initial(start), events);
      WellFormed(s) && Attached(s) && Shallow(s, gap, delay)
  {
    if events != [] {
      var init, e := events[..|events| - 1], events[|events| - 1];
      SwiftIsDiscreet(u, start, init, gap, delay);
      var s := Run(u, Initial(start), init);
      assert Prompt(s, e, u.ttl);
      ShallowFull(u, s, e, gap, delay);
      ShallowStep(u, s, e, gap, delay);
      StepWellFormed(u, s, e);
    }
  }

  /**
   A ttl that covers the longest gap, the longest admitted delay and a full refill but for one unit
   of time makes eviction invisible in every run: an entry is evicted a unit after the ttl at the earliest.
   */
  lemma LongTtlTransparent(u: Setup, start: int, events: seq<Event>, gap: int, delay: int)
    requires LegalRun(u, Initial(start), events) && SwiftRun(u, start, events, gap, delay)
    requires 0 <= gap <= u.ttl && delay >= 0 && gap + delay + Capacity(u.rate) <= u.ttl + 1
    ensures LegalRun(NeverEvicting(u), Initial(start), events)
    ensures Run(u, Initial(start), events).answers == Run(NeverEvicting(u), Initial(start), events).answers
  {
    SwiftIsDiscreet(u, start, events, gap, delay);
    GcTransparent(u, start, events);
  }

  // ---------- one eviction, seen from outside ----------

  /** The answers of `n` patient calls, one after the other at the same moment. */
  function Serve(r: Rate, b: Bucket, now: int, n: nat): seq<Answer>
    decreases n
  {
    if n == 0 then []
    else
      var (answer, b') := Reserve(r, b, now, None);
      [answer] + Serve(r, b', now, n - 1)
  }

  /** The `i`-th such call waits until its token is there. */
  lemma {:induction false} ServeAt(r: Rate, b: Bucket, now: int, n: nat, i: nat)
    requires i < n && b.last <= now
    ensures |Serve(r, b, now, n)| == n
    ensures
      var after := Credit(r, b, now) - Worth(r, i + 1);
      Serve(r, b, now, n)[i] == Granted(if after < 0 then now - after else now)
    decreases n
  {
    assert Times(i + 1, r.cost) == Times(i, r.cost) + r.cost;
    if n > 1 {
      var b' := Reserve(r, b, now, None).1;
      ServeAt(r, b', now, n - 1, if i > 0 then i - 1 else 0);
    }
  }

  /**
   Replacing a bucket by a fresh one goes unnoticed by every number of later calls if and only if
   the bucket is full at that moment.
   */
  lemma EvictionInvisibleIff(r: Rate, b: Bucket, now: int)
    requires ValidRate(r) && b.last <= now
    ensures (forall n: nat :: Serve(r, b, now, n) == Serve(r, NewBucket(r, now), now, n))
            <==> Credit(r, b, now) == Capacity(r)
  {
    if Credit(r, b, now) == Capacity(r) {
      forall n: nat ensures Serve(r, b, now, n) == Serve(r, NewBucket(r, now), now, n) {
        if n > 0 {
          assert Reserve(r, b, now, None) == Reserve(r, NewBucket(r, now), now, None);
        }
      }
    } else {
      var n := r.burst;
      ServeAt(r, b, now, n, n - 1);
      ServeAt(r, NewBucket(r, now), now, n, n - 1);
      assert Serve(r, b, now, n)[n - 1] != Serve(r, NewBucket(r, now), now, n)[n - 1];
    }
  }
}
