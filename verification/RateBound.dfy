/** How many calls of one key the limiter grants in a window of time, with and without evictions. */
module RateBound {
  import opened Wrappers
  import opened Sums
  import opened RateLimiter
  import opened Eviction

  // ---------- the grants of one key ----------

  function OfKey(grants: seq<Grant>, key: string): seq<Grant> {
    if grants == [] then []
    else
      OfKey(grants[..|grants| - 1], key)
      + if grants[|grants| - 1].key == key then [grants[|grants| - 1]] else []
  }

  /** Grants with `from <= time < to`. */
  function InWindow(grants: seq<Grant>, from: int, to: int): nat {
    if grants == [] then 0
    else
      InWindow(grants[..|grants| - 1], from, to)
      + if from <= grants[|grants| - 1].time < to then 1 else 0
  }

  /** The grants of a window lie between a first and a last one. */
  lemma {:induction false} WindowSpan(grants: seq<Grant>, from: int, to: int) returns (x: nat, y: nat)
    requires InWindow(grants, from, to) > 0
    ensures x <= y < |grants|
    ensures from <= grants[x].time < to && from <= grants[y].time < to
    ensures InWindow(grants, from, to) <= y - x + 1
  {
    var init, last := grants[..|grants| - 1], grants[|grants| - 1];
    if !(from <= last.time < to) {
      x, y := WindowSpan(init, from, to);
    } else if InWindow(init, from, to) == 0 {
      x, y := |grants| - 1, |grants| - 1;
    } else {
      x, y := WindowSpan(init, from, to);
      y := |grants| - 1;
    }
  }

  // ---------- the potential ----------

  /** The credit that `gen` evictions may have given back. */
  function Refunds(r: Rate, gen: nat): nat {
    Times(gen, Capacity(r))
  }

  /** Grows along the grants of a key: each costs a token, each eviction may give back a whole bucket. */
  function Potential(r: Rate, grants: seq<Grant>, i: nat): int
    requires i < |grants|
  {
    grants[i].full + Refunds(r, grants[i].gen) - Worth(r, i)
  }

  ghost predicate Growing(r: Rate, ttl: int, grants: seq<Grant>) {
    && (forall i :: 0 <= i < |grants| ==> r.cost <= grants[i].full - grants[i].time <= Capacity(r))
    && (forall i, j :: 0 <= i < j < |grants| ==> Potential(r, grants, i) <= Potential(r, grants, j))
    && (forall i, j :: 0 <= i < j < |grants| ==> grants[i].gen <= grants[j].gen)
    && (forall i, j :: 0 <= i < j < |grants| && grants[i].gen < grants[j].gen ==>
          Apart(ttl, grants[i].time, grants[i].gen, grants[j].time, grants[j].gen))
  }

  /** All but one of the evictions between two moments took more than a ttl each. */
  predicate Apart(ttl: int, time: int, gen: int, time': int, gen': int) {
    time + (gen' - gen - 1) * ttl < time'
  }

  lemma ApartLater(ttl: int, time: int, gen: int, time': int, gen': int, time'': int)
    requires Apart(ttl, time, gen, time', gen') && time' <= time''
    ensures Apart(ttl, time, gen, time'', gen')
  {
  }

  lemma ApartBefore(ttl: int, time: int, gen: int, time': int, gen': int)
    requires Apart(ttl, time, gen, time', gen') && ttl >= 0 && gen < gen'
    ensures time < time'
  {
    assert (gen' - gen - 1) * ttl >= 0;
  }

  lemma ApartNext(ttl: int, time: int, gen: int, time': int, gen': int, time'': int)
    requires Apart(ttl, time, gen, time', gen') && time' + ttl < time''
    ensures Apart(ttl, time, gen, time'', gen' + 1)
  {
    assert (gen' + 1 - gen - 1) * ttl == (gen' - gen - 1) * ttl + ttl;
  }

  // ---------- the invariant for one key ----------

  /** The grants of a key, and when it was last evicted. */
  ghost predicate History(u: Setup, grants: seq<Grant>, epoch: Epoch, now: int) {
    && Growing(u.rate, u.ttl, grants)
    && (forall i :: 0 <= i < |grants| ==> grants[i].gen <= epoch.gen)
    && (forall i :: 0 <= i < |grants| && grants[i].gen < epoch.gen ==>
          Apart(u.ttl, grants[i].time, grants[i].gen, epoch.since, epoch.gen))
    && (epoch.gen > 0 ==> epoch.since <= now)
  }

  /**
   While the key has a bucket: its grants come due within a ttl of the last lookup, and the last one
   left the bucket as it is.
   */
  ghost predicate Current(u: Setup, grants: seq<Grant>, epoch: Epoch, seen: int, full: int) {
    && (epoch.gen > 0 ==> epoch.since <= seen)
    && (u.evicting ==> forall i :: 0 <= i < |grants| && grants[i].gen == epoch.gen ==> grants[i].time <= seen + u.ttl)
    && (grants != [] && grants[|grants| - 1].gen == epoch.gen ==> grants[|grants| - 1].full == full)
  }

  /** While it has none: all its grants are from before the last eviction. */
  ghost predicate Dropped(grants: seq<Grant>, epoch: Epoch) {
    forall i :: 0 <= i < |grants| ==> grants[i].gen < epoch.gen
  }

  ghost predicate Tracked(u: Setup, s: System, key: string)
    requires WellFormed(s)
  {
    var grants, epoch := OfKey(s.grants, key), EpochOf(s, key);
    && History(u, grants, epoch, s.clock)
    && if key in s.core.limiters
       then Current(u, grants, epoch, s.core.limiters[key].seen,
                    FullAt(u.rate, s.core.buckets[s.core.limiters[key].bucket]))
       else Dropped(grants, epoch)
  }

  /** Lookup-to-grant, gap and delay together, takes at most a ttl. */
  ghost predicate Timely(u: Setup, s: System, e: Event)
    requires Legal(s, e)
  {
    && Prompt(s, e, u.ttl)
    && (e.Decide? ==>
          var answer := Reserve(u.rate, s.core.buckets[s.pending[e.call].bucket], e.now, e.patience).0;
          answer.Granted? ==> answer.time <= s.pending[e.call].at + u.ttl)
  }

  /** A new last grant that moves the potential on keeps the sequence growing. */
  lemma GrowingAppend(r: Rate, ttl: int, grants: seq<Grant>, g: Grant)
    requires Growing(r, ttl, grants)
    requires r.cost <= g.full - g.time <= Capacity(r)
    requires forall i :: 0 <= i < |grants| ==> grants[i].gen <= g.gen
    requires forall i :: 0 <= i < |grants| && grants[i].gen < g.gen ==>
               Apart(ttl, grants[i].time, grants[i].gen, g.time, g.gen)
    requires grants != [] ==>
               grants[|grants| - 1].full + Refunds(r, grants[|grants| - 1].gen) + r.cost
               <= g.full + Refunds(r, g.gen)
    ensures Growing(r, ttl, grants + [g])
  {
    var grants', n := grants + [g], |grants|;
    if n > 0 {
      assert Potential(r, grants', n - 1) <= Potential(r, grants', n);
    }
    forall i, j | 0 <= i < j < |grants'| ensures Potential(r, grants', i) <= Potential(r, grants', j) {
      assert Potential(r, grants', i) == Potential(r, grants, i);
      if j < n {
        assert Potential(r, grants', j) == Potential(r, grants, j);
      } else {
        assert i == n - 1 || Potential(r, grants, i) <= Potential(r, grants, n - 1);
      }
    }
  }

  /** Crossing at least one eviction gives back at least a capacity. */
  lemma {:induction false} RefundsGrow(r: Rate, gen: nat, gen': nat)
    requires gen < gen'
    ensures Refunds(r, gen) + Capacity(r) <= Refunds(r, gen')
  {
    if gen + 1 < gen' {
      RefundsGrow(r, gen, gen' - 1);
    }
  }

  /** A new grant against the one before it: same bucket, one token further; or a later bucket. */
  lemma NextPotential(u: Setup, last: Grant, epoch: Epoch, g: Grant)
    requires ValidRate(u.rate) && u.ttl >= 0 && last.gen <= epoch.gen == g.gen
    requires last.full - last.time <= Capacity(u.rate) && u.rate.cost <= g.full - g.time
    requires last.gen == epoch.gen ==> g.full >= last.full + u.rate.cost
    requires last.gen < epoch.gen ==>
               Apart(u.ttl, last.time, last.gen, epoch.since, epoch.gen) && epoch.since <= g.time
    ensures last.full + Refunds(u.rate, last.gen) + u.rate.cost <= g.full + Refunds(u.rate, g.gen)
  {
    if last.gen < epoch.gen {
      ApartBefore(u.ttl, last.time, last.gen, epoch.since, epoch.gen);
      RefundsGrow(u.rate, last.gen, g.gen);
    }
  }

  /** The history of a key after a grant from its current bucket. */
  lemma AfterGrant(u: Setup, grants: seq<Grant>, epoch: Epoch, seen: int, full: int, now: int, now': int, g: Grant)
    requires ValidRate(u.rate) && u.ttl >= 0 && now <= now'
    requires History(u, grants, epoch, now) && Current(u, grants, epoch, seen, full)
    requires g.gen == epoch.gen && g.time >= now' && g.full >= full + u.rate.cost
    requires u.rate.cost <= g.full - g.time <= Capacity(u.rate)
    requires u.evicting ==> g.time <= seen + u.ttl
    ensures History(u, grants + [g], epoch, now') && Current(u, grants + [g], epoch, seen, g.full)
  {
    forall i | 0 <= i < |grants| && grants[i].gen < g.gen
      ensures Apart(u.ttl, grants[i].time, grants[i].gen, g.time, g.gen)
    {
      ApartLater(u.ttl, grants[i].time, grants[i].gen, epoch.since, epoch.gen, g.time);
    }
    if grants != [] {
      NextPotential(u, grants[|grants| - 1], epoch, g);
    }
    GrowingAppend(u.rate, u.ttl, grants, g);
  }

  /** The history of a key after its eviction, more than a ttl after it was last seen. */
  lemma AfterEviction(u: Setup, grants: seq<Grant>, epoch: Epoch, seen: int, full: int, now: int, now': int)
    requires u.evicting && u.ttl >= 0 && now <= now'
    requires History(u, grants, epoch, now) && Current(u, grants, epoch, seen, full)
    requires seen + u.ttl < now'
    ensures History(u, grants, Epoch(epoch.gen + 1, now'), now') && Dropped(grants, Epoch(epoch.gen + 1, now'))
  {
    forall i | 0 <= i < |grants|
      ensures Apart(u.ttl, grants[i].time, grants[i].gen, now', epoch.gen + 1)
    {
      if grants[i].gen < epoch.gen {
        ApartNext(u.ttl, grants[i].time, grants[i].gen, epoch.since, epoch.gen, now');
      }
    }
  }

  /** What one decision does to its key and to the others. */
  lemma DecideFrame(u: Setup, s: System, e: Event, key: string)
    requires Legal(s, e) && e.Decide? && WellFormed(s) && Attached(s) && key in s.core.limiters
    ensures
      var p, s' := s.pending[e.call], Step(u, s, e);
      var (answer, b') := Reserve(u.rate, s.core.buckets[p.bucket], e.now, e.patience);
      && s'.core.limiters == s.core.limiters && EpochOf(s', key) == EpochOf(s, key)
      && s'.core.buckets[s.core.limiters[key].bucket]
         == (if key == p.key then b' else s.core.buckets[s.core.limiters[key].bucket])
      && OfKey(s'.grants, key) == OfKey(s.grants, key) +
           if key == p.key && answer.Granted?
           then [Grant(key, answer.time, FullAt(u.rate, b'), EpochOf(s, key).gen)] else []
  {
    var p, s' := s.pending[e.call], Step(u, s, e);
    assert OfKey(s.grants, key) + [] == OfKey(s.grants, key);
    if Reserve(u.rate, s.core.buckets[p.bucket], e.now, e.patience).0.Granted? {
      assert s'.grants[..|s'.grants| - 1] == s.grants;
    }
  }

  lemma DecideUntracked(u: Setup, s: System, e: Event, key: string)
    requires Legal(s, e) && e.Decide? && key !in s.core.limiters && Attached(s)
    ensures
      var s' := Step(u, s, e);
      s'.core.limiters == s.core.limiters && EpochOf(s', key) == EpochOf(s, key)
      && OfKey(s'.grants, key) == OfKey(s.grants, key)
  {
    var p, s' := s.pending[e.call], Step(u, s, e);
    assert OfKey(s.grants, key) + [] == OfKey(s.grants, key);
    if Reserve(u.rate, s.core.buckets[p.bucket], e.now, e.patience).0.Granted? {
      assert s'.grants[..|s'.grants| - 1] == s.grants;
    }
  }

  lemma HistoryLater(u: Setup, grants: seq<Grant>, epoch: Epoch, now: int, now': int)
    requires History(u, grants, epoch, now) && now <= now'
    ensures History(u, grants, epoch, now')
  {
  }

  /** A decision of a mapped key's call keeps its history. */
  lemma MappedTracked(u: Setup, s: System, e: Event, key: string)
    requires Legal(s, e) && e.Decide? && WellFormed(s) && Attached(s) && ValidRate(u.rate) && u.ttl >= 0
    requires u.evicting ==> Timely(u, s, e)
    requires Tracked(u, s, key) && key in s.core.limiters && WellFormed(Step(u, s, e))
    ensures Tracked(u, Step(u, s, e), key)
  {
    DecideFrame(u, s, e, key);
    assert OfKey(s.grants, key) + [] == OfKey(s.grants, key);
    var p := s.pending[e.call];
    var b := s.core.buckets[p.bucket];
    var (answer, b') := Reserve(u.rate, b, e.now, e.patience);
    assert Step(u, s, e).clock == e.now >= s.clock >= b.last;
    if key == p.key && answer.Granted? {
      ReserveMoves(u.rate, b, e.now, e.patience);
      assert p.at <= s.core.limiters[key].seen && s.core.limiters[key].bucket == p.bucket;
      assert u.evicting ==> answer.time <= p.at + u.ttl;
      hide Step, Legal, WellFormed, Attached, Timely, History, Current, Reserve, FullAt, Capacity, ValidRate;
      AfterGrant(u, OfKey(s.grants, key), EpochOf(s, key), s.core.limiters[key].seen, FullAt(u.rate, b),
                 s.clock, e.now, Grant(key, answer.time, FullAt(u.rate, b'), EpochOf(s, key).gen));
    } else {
      hide Step, Legal, WellFormed, Attached, Timely, History, Current;
      HistoryLater(u, OfKey(s.grants, key), EpochOf(s, key), s.clock, e.now);
      assert answer.Refused? ==> b' == b by { RefusedKeeps(u.rate, b, e.now, e.patience); }
    }
  }

  lemma RefusedKeeps(r: Rate, b: Bucket, now: int, patience: Option<nat>)
    ensures Reserve(r, b, now, patience).0.Refused? ==> Reserve(r, b, now, patience).1 == b
  {
  }

  lemma DecideTracked(u: Setup, s: System, e: Event, key: string)
    requires Legal(s, e) && e.Decide? && WellFormed(s) && Attached(s) && ValidRate(u.rate) && u.ttl >= 0
    requires u.evicting ==> Timely(u, s, e)
    requires Tracked(u, s, key)
    ensures WellFormed(Step(u, s, e)) && Tracked(u, Step(u, s, e), key)
  {
    DecideWellFormed(u, s, e);
    if key in s.core.limiters {
      MappedTracked(u, s, e, key);
    } else {
      DecideUntracked(u, s, e, key);
      assert Step(u, s, e).clock == e.now >= s.clock;
      hide Step, Legal, WellFormed, Attached, Timely, History, Dropped;
      HistoryLater(u, OfKey(s.grants, key), EpochOf(s, key), s.clock, e.now);
    }
  }

  /** A lookup moves the time a key was last seen, or maps a key that was not. */
  lemma ArriveFrame(u: Setup, s: System, e: Event, key: string)
    requires Legal(s, e) && e.Arrive? && WellFormed(s)
    ensures
      var s' := Step(u, s, e);
      && s'.grants == s.grants && EpochOf(s', key) == EpochOf(s, key) && s'.clock == e.now
      && (key in s.core.limiters ==>
            && key in s'.core.limiters
            && s.core.limiters[key].seen <= s'.core.limiters[key].seen
            && s'.core.limiters[key].bucket == s.core.limiters[key].bucket < |s.core.buckets| <= |s'.core.buckets|
            && s'.core.buckets[s.core.limiters[key].bucket] == s.core.buckets[s.core.limiters[key].bucket])
      && (key !in s.core.limiters && key in s'.core.limiters ==> s'.core.limiters[key].seen == e.now)
  {
  }

  lemma CurrentLater(u: Setup, grants: seq<Grant>, epoch: Epoch, seen: int, seen': int, full: int)
    requires Current(u, grants, epoch, seen, full) && seen <= seen'
    ensures Current(u, grants, epoch, seen', full)
  {
  }

  /** A fresh bucket has granted nothing yet. */
  lemma CurrentFresh(u: Setup, grants: seq<Grant>, epoch: Epoch, now: int, seen: int, full: int)
    requires History(u, grants, epoch, now) && Dropped(grants, epoch) && now <= seen
    ensures Current(u, grants, epoch, seen, full)
  {
  }

  lemma ArriveTracked(u: Setup, s: System, e: Event, key: string)
    requires Legal(s, e) && e.Arrive? && WellFormed(s) && Attached(s) && Tracked(u, s, key)
    ensures WellFormed(Step(u, s, e)) && Tracked(u, Step(u, s, e), key)
  {
    ArriveWellFormed(u, s, e);
    ArriveFrame(u, s, e, key);
    hide Step, Legal, WellFormed, Attached, Current, Dropped;
    var s' := Step(u, s, e);
    var grants, epoch := OfKey(s.grants, key), EpochOf(s, key);
    if key in s.core.limiters {
      CurrentLater(u, grants, epoch, s.core.limiters[key].seen, s'.core.limiters[key].seen,
                   FullAt(u.rate, s.core.buckets[s.core.limiters[key].bucket]));
    } else if key in s'.core.limiters {
      CurrentFresh(u, grants, epoch, s.clock, e.now,
                   FullAt(u.rate, s'.core.buckets[s'.core.limiters[key].bucket]));
    }
  }

  /** Whether this tick evicts the key. */
  predicate Evicts(u: Setup, s: System, e: Event, key: string)
    requires e.Tick?
  {
    u.evicting && key in s.core.limiters && Expired(s.core.limiters[key], u.ttl, e.tick)
  }

  /** A tick touches no bucket and no grant; an evicted key begins its next epoch. */
  lemma TickFrame(u: Setup, s: System, e: Event, key: string)
    requires Legal(s, e) && e.Tick?
    ensures
      var s' := Step(u, s, e);
      && s'.grants == s.grants && s'.clock == e.now && s'.core.buckets == s.core.buckets
      && (key in s'.core.limiters <==> key in s.core.limiters && !Evicts(u, s, e, key))
      && (key in s'.core.limiters ==> s'.core.limiters[key] == s.core.limiters[key])
      && EpochOf(s', key) == if Evicts(u, s, e, key) then Epoch(EpochOf(s, key).gen + 1, e.now) else EpochOf(s, key)
  {
  }

  lemma TickTracked(u: Setup, s: System, e: Event, key: string)
    requires Legal(s, e) && e.Tick? && WellFormed(s) && Attached(s) && Tracked(u, s, key) && u.ttl >= 0
    requires u.evicting ==> Prompt(s, e, u.ttl)
    ensures WellFormed(Step(u, s, e)) && Tracked(u, Step(u, s, e), key)
  {
    TickWellFormed(u, s, e);
    TickFrame(u, s, e, key);
    if Evicts(u, s, e, key) {
      assert e.tick <= e.now;
      hide Step, Legal, WellFormed, Attached, Prompt, History, Current, Dropped;
      AfterEviction(u, OfKey(s.grants, key), EpochOf(s, key), s.core.limiters[key].seen,
                    FullAt(u.rate, s.core.buckets[s.core.limiters[key].bucket]), s.clock, e.now);
    }
  }

  // ---------- whole runs ----------

  ghost predicate TimelyRun(u: Setup, start: int, events: seq<Event>)
    requires LegalRun(u, Initial(start), events)
  {
    events != [] ==>
      var init, e := events[..|events| - 1], events[|events| - 1];
      TimelyRun(u, start, init) && Timely(u, Run(u, Initial(start), init), e)
  }

  lemma {:induction false} RunTracked(u: Setup, start: int, events: seq<Event>, key: string)
    requires LegalRun(u, Initial(start), events) && ValidRate(u.rate) && u.ttl >= 0
    requires u.evicting ==> TimelyRun(u, start, events)
    ensures
      var s := Run(u, Initial(start), events);
      && WellFormed(s) && Attached(s) && Tracked(u, s, key)
      && (!u.evicting ==> s.epochs == map[])
  {
    if events != [] {
      var init, e := events[..|events| - 1], events[|events| - 1];
      RunTracked(u, start, init, key);
      var s := Run(u, Initial(start), init);
      StepWellFormed(u, s, e);
      match e
      case Arrive(_, _, _) => ArriveTracked(u, s, e, key);
      case Decide(_, _, _) => DecideTracked(u, s, e, key);
      case Tick(_, _) => TickTracked(u, s, e, key);
    }
  }

  // ---------- the bounds ----------

  /**
   Two grants of one key: the tokens between them were refilled, or given back by evictions, which
   take their time.
   */
  lemma Between(u: Setup, grants: seq<Grant>, x: nat, y: nat)
    requires Growing(u.rate, u.ttl, grants) && x <= y < |grants|
    ensures grants[x].gen <= grants[y].gen
    ensures Worth(u.rate, y - x + 1) + Refunds(u.rate, grants[x].gen)
            <= grants[y].time - grants[x].time + Capacity(u.rate) + Refunds(u.rate, grants[y].gen)
    ensures grants[x].gen < grants[y].gen ==>
              (grants[y].gen - grants[x].gen - 1) * u.ttl < grants[y].time - grants[x].time
  {
    WorthIs(u.rate, y - x + 1);
    WorthIs(u.rate, x);
    WorthIs(u.rate, y);
    assert (y - x + 1) * u.rate.cost == y * u.rate.cost - x * u.rate.cost + u.rate.cost;
    if x < y {
      assert Potential(u.rate, grants, x) <= Potential(u.rate, grants, y);
    }
  }

  lemma RefundsIs(r: Rate, gen: nat)
    ensures Refunds(r, gen) == gen * Capacity(r)
  {
    TimesIs(gen, Capacity(r));
  }

  /** `m` evictions that took more than a ttl each, but for one, within `window`. */
  lemma EvictionsFit(m: nat, ttl: int, window: int)
    requires ttl > 0 && window > 0 && (m - 1) * ttl < window
    ensures m <= (window - 1) / ttl + 1
  {
    var q := (window - 1) / ttl;
    assert window - 1 < q * ttl + ttl == (q + 1) * ttl;
    if m - 1 > q {
      MulMonotone(q + 1, m - 1, ttl);
    }
  }

  lemma WorthMonotone(r: Rate, n: nat, m: nat)
    requires n <= m
    ensures Worth(r, n) <= Worth(r, m)
  {
    WorthIs(r, n);
    WorthIs(r, m);
    assert (m - n) * r.cost >= 0;
    assert m * r.cost == n * r.cost + (m - n) * r.cost;
  }

  /**
   Rate bound across evictions. If no call takes longer than the ttl from its lookup to its grant, the
   grants of one key in a window cost less than a bucket, the window's refill, and one more bucket
   per eviction that fits: N < burst + window / cost + burst * ((window - 1) / ttl + 1), in tokens.
   */
  lemma EvictingBound(u: Setup, start: int, events: seq<Event>, key: string, from: int, window: nat)
    requires LegalRun(u, Initial(start), events) && TimelyRun(u, start, events)
    requires ValidRate(u.rate) && u.ttl > 0 && window > 0
    ensures
      var n := InWindow(OfKey(Run(u, Initial(start), events).grants, key), from, from + window);
      n * u.rate.cost < u.rate.burst * u.rate.cost + window + u.rate.burst * u.rate.cost * ((window - 1) / u.ttl + 1)
  {
    RunTracked(u, start, events, key);
    GrowingBound(u, OfKey(Run(u, Initial(start), events).grants, key), from, window);
  }

  lemma GrowingBound(u: Setup, grants: seq<Grant>, from: int, window: nat)
    requires Growing(u.rate, u.ttl, grants) && ValidRate(u.rate) && u.ttl > 0 && window > 0
    ensures InWindow(grants, from, from + window) * u.rate.cost
            < u.rate.burst * u.rate.cost + window + u.rate.burst * u.rate.cost * ((window - 1) / u.ttl + 1)
  {
    var n := InWindow(grants, from, from + window);
    WorthIs(u.rate, n);
    WorthIs(u.rate, u.rate.burst);
    if n > 0 {
      var x, y := WindowSpan(grants, from, from + window);
      Between(u, grants, x, y);
      WorthMonotone(u.rate, n, y - x + 1);
      RefundsBetween(u.rate, grants[x].gen, grants[y].gen);
      EvictionShare(u, grants[y].gen - grants[x].gen, window);
    } else {
      EvictionShare(u, 0, window);
    }
  }

  lemma RefundsBetween(r: Rate, gen: nat, gen': nat)
    requires gen <= gen'
    ensures Refunds(r, gen') == Refunds(r, gen) + (gen' - gen) * Capacity(r)
  {
    RefundsIs(r, gen);
    RefundsIs(r, gen');
    Distribute(gen, gen', Capacity(r));
  }

  lemma Distribute(a: int, b: int, k: int)
    ensures b * k == a * k + (b - a) * k
  {
  }

  lemma EvictionShare(u: Setup, m: nat, window: nat)
    requires u.ttl > 0 && window > 0 && (m > 0 ==> (m - 1) * u.ttl < window)
    ensures m * Capacity(u.rate) <= u.rate.burst * u.rate.cost * ((window - 1) / u.ttl + 1)
  {
    if m > 0 {
      EvictionsFit(m, u.ttl, window);
    }
    WorthIs(u.rate, u.rate.burst);
    MulMonotone(m, (window - 1) / u.ttl + 1, Capacity(u.rate));
  }

  /** Without eviction the grants of one key in a window cost less than a bucket and the window's refill. */
  lemma SingleBucketBound(u: Setup, start: int, events: seq<Event>, key: string, from: int, window: nat)
    requires LegalRun(u, Initial(start), events) && !u.evicting
    requires ValidRate(u.rate) && u.ttl >= 0 && window > 0
    ensures
      var n := InWindow(OfKey(Run(u, Initial(start), events).grants, key), from, from + window);
      n * u.rate.cost < u.rate.burst * u.rate.cost + window
  {
    RunTracked(u, start, events, key);
    var s := Run(u, Initial(start), events);
    assert EpochOf(s, key).gen == 0;
    OneGeneration(u, OfKey(s.grants, key), from, window);
  }

  /** Grants of one bucket in a window. */
  lemma OneGeneration(u: Setup, grants: seq<Grant>, from: int, window: nat)
    requires Growing(u.rate, u.ttl, grants) && ValidRate(u.rate) && window > 0
    requires forall i :: 0 <= i < |grants| ==> grants[i].gen == 0
    ensures InWindow(grants, from, from + window) * u.rate.cost < u.rate.burst * u.rate.cost + window
  {
    var n := InWindow(grants, from, from + window);
    WorthIs(u.rate, n);
    WorthIs(u.rate, u.rate.burst);
    hide Worth, InWindow, Refunds, Potential;
    if n > 0 {
      var x, y := WindowSpan(grants, from, from + window);
      Between(u, grants, x, y);
      WorthMonotone(u.rate, n, y - x + 1);
    }
  }
}
