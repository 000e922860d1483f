/**
 The keyed rate limiter: a map from keys to token buckets whose idle entries a collector evicts.

 Time is counted in units small enough that one token takes a whole number of them (`cost`) to
 refill, and credit is counted in the same unit: a bucket gains one unit of credit per unit of time.
 */
module RateLimiter {
  import opened Wrappers
  import opened Sums

  // ---------- one token bucket ----------

  datatype Rate = Rate(cost: nat, burst: nat)

  predicate ValidRate(r: Rate) {
    r.cost > 0 && r.burst > 0
  }

  /** What `n` tokens cost. */
  function Worth(r: Rate, n: nat): nat {
    Times(n, r.cost)
  }

  lemma WorthIs(r: Rate, n: nat)
    ensures Worth(r, n) == n * r.cost
  {
    TimesIs(n, r.cost);
  }

  /** The credit of a full bucket, which is also the time an empty one takes to fill. */
  function Capacity(r: Rate): nat {
    Worth(r, r.burst)
  }

  /** Credit as it was at the last reservation; below zero while granted calls are still waiting. */
  datatype Bucket = Bucket(credit: int, last: int)

  datatype Answer = Granted(time: int) | Refused

  function NewBucket(r: Rate, now: int): Bucket {
    Bucket(Capacity(r), now)
  }

  function Min(a: int, b: int): int {
    if a <= b then a else b
  }

  function Credit(r: Rate, b: Bucket, now: int): int {
    Min(Capacity(r), b.credit + if now > b.last then now - b.last else 0)
  }

  /** Takes one token; the call is granted for when the debt, if any, is paid off, unless that is too late for it. */
  function Reserve(r: Rate, b: Bucket, now: int, patience: Option<nat>): (Answer, Bucket) {
    var after := Credit(r, b, now) - r.cost;
    var wait := if after < 0 then -after else 0;
    if patience.Some? && wait > patience.value then (Refused, b)
    else (Granted(now + wait), Bucket(after, now))
  }

  /** When the bucket will be full again. */
  function FullAt(r: Rate, b: Bucket): int {
    b.last + Capacity(r) - b.credit
  }

  /**
   A reservation pushes the time of being full one token further, and the grant is no more than a
   capacity before it.
   */
  lemma ReserveMoves(r: Rate, b: Bucket, now: int, patience: Option<nat>)
    requires ValidRate(r) && b.last <= now
    ensures
      var (answer, b') := Reserve(r, b, now, patience);
      answer.Granted? ==>
        && FullAt(r, b') >= FullAt(r, b) + r.cost
        && answer.time >= now
        && r.cost <= FullAt(r, b') - answer.time <= Capacity(r)
        && b'.last == now
  {
  }

  /**
   A call is granted for the first moment its bucket would hold a whole token, and refused exactly
   when that moment lies beyond its patience. A refused call leaves the bucket alone; a granted one
   takes a single token from every later balance short of the cap.
   */
  lemma GrantEarliest(r: Rate, b: Bucket, now: int, patience: Option<nat>)
    requires ValidRate(r) && b.last <= now
    ensures
      var (answer, b') := Reserve(r, b, now, patience);
      && (answer.Refused? <==> patience.Some? && Credit(r, b, now + patience.value) < r.cost)
      && (answer.Refused? ==> b' == b)
      && (answer.Granted? ==>
            && now <= answer.time
            && Credit(r, b, answer.time) >= r.cost
            && (forall t :: now <= t < answer.time ==> Credit(r, b, t) < r.cost)
            && (forall t :: now <= t ==>
                  Credit(r, b', t) == Min(Capacity(r), Credit(r, b, now) - r.cost + (t - now))))
  {
  }

  // ---------- the map of buckets ----------

  /** A pointer to a bucket is its index in `buckets`; evicted buckets stay reachable for calls holding them. */
  datatype Entry = Entry(bucket: nat, seen: int)

  datatype Core = Core(limiters: map<string, Entry>, buckets: seq<Bucket>)

  /** The locked part of a call: find or create the key's bucket and note the time. */
  function LookUp(r: Rate, c: Core, key: string, now: int): (Core, nat) {
    if key in c.limiters then
      (c.(limiters := c.limiters[key := c.limiters[key].(seen := now)]), c.limiters[key].bucket)
    else
      (Core(c.limiters[key := Entry(|c.buckets|, now)], c.buckets + [NewBucket(r, now)]), |c.buckets|)
  }

  predicate Expired(e: Entry, ttl: int, tick: int) {
    tick - e.seen > ttl
  }

  /** One collector tick, which may carry a time older than the present. */
  function Collect(c: Core, ttl: int, tick: int): Core {
    c.(limiters := map k | k in c.limiters && !Expired(c.limiters[k], ttl, tick) :: c.limiters[k])
  }

  class RateLimiter {
    const rate: Rate
    const ttl: int
    var limiters: map<string, Entry>
    var buckets: seq<Bucket>

    constructor (rate: Rate, ttl: int)
      ensures this.rate == rate && this.ttl == ttl && Contents() == Core(map[], [])
    {
      this.rate, this.ttl := rate, ttl;
      limiters, buckets := map[], [];
    }

    ghost function Contents(): Core
      reads this
    {
      Core(limiters, buckets)
    }

    ghost predicate Valid()
      reads this
    {
      forall k :: k in limiters ==> limiters[k].bucket < |buckets|
    }

    /** The first half of Wait, under the lock. */
    method GetLimiter(key: string, now: int) returns (bucket: nat)
      requires Valid()
      modifies this
      ensures Valid()
      ensures (Contents(), bucket) == LookUp(rate, old(Contents()), key, now)
      ensures bucket < |buckets|
    {
      if key !in limiters {
        bucket := |buckets|;
        buckets := buckets + [NewBucket(rate, now)];
        limiters := limiters[key := Entry(bucket, now)];
        return;
      }
      bucket := limiters[key].bucket;
      limiters := limiters[key := limiters[key].(seen := now)];
    }

    /** The second half of Wait, on the bucket the first half returned. */
    method WaitOn(bucket: nat, now: int, patience: Option<nat>) returns (answer: Answer)
      requires Valid() && bucket < |buckets|
      modifies this
      ensures Valid()
      ensures answer == Reserve(rate, old(buckets[bucket]), now, patience).0
      ensures Contents() == old(Contents()).(
                  buckets := old(buckets)[bucket := Reserve(rate, old(buckets[bucket]), now, patience).1])
    {
      var (a, b) := Reserve(rate, buckets[bucket], now, patience);
      buckets := buckets[bucket := b];
      answer := a;
    }

    /** The body of the collector's loop: visit every key, in any order, and delete the expired ones. */
    method Sweep(tick: int)
      requires Valid()
      modifies this
      ensures Valid()
      ensures Contents() == Collect(old(Contents()), ttl, tick)
    {
      var keys := limiters.Keys;
      while keys != {}
        invariant keys <= limiters.Keys
        invariant buckets == old(buckets)
        invariant forall k :: k in limiters <==>
                    k in old(limiters) && (k in keys || !Expired(old(limiters)[k], ttl, tick))
        invariant forall k :: k in limiters ==> limiters[k] == old(limiters)[k]
        decreases keys
      {
        var key :| key in keys;
        if tick - limiters[key].seen > ttl {
          limiters := limiters - {key};
        }
        keys := keys - {key};
      }
      assert limiters == Collect(old(Contents()), ttl, tick).limiters;
    }
  }

  // ---------- runs ----------

  /** What the process is started with; a limiter without a collector never evicts. */
  datatype Setup = Setup(rate: Rate, ttl: int, evicting: bool)

  /** A call between its lookup (at time `at`) and its reservation. */
  datatype Pending = Pending(key: string, bucket: nat, at: int)

  datatype Decision = Decision(call: nat, key: string, answer: Answer)

  /** `gen` counts the evictions of the key before the grant; `full` is when its bucket would be full again. */
  datatype Grant = Grant(key: string, time: int, full: int, gen: nat)

  /** How often a key has been evicted, and when last. */
  datatype Epoch = Epoch(gen: nat, since: int)

  /** `answers`, `grants` and `epochs` record history. */
  datatype System = System(
    core: Core,
    pending: map<nat, Pending>,
    clock: int,
    answers: seq<Decision>,
    grants: seq<Grant>,
    epochs: map<string, Epoch>)

  datatype Event =
    | Arrive(call: nat, key: string, now: int)
    | Decide(call: nat, now: int, patience: Option<nat>)
    | Tick(tick: int, now: int)

  function Initial(now: int): System {
    System(Core(map[], []), map[], now, [], [], map[])
  }

  function EpochOf(s: System, key: string): Epoch {
    if key in s.epochs then s.epochs[key] else Epoch(0, 0)
  }

  /**
   Time does not run backwards, a call looks up once before it reserves once, and ticks may be stale
   but not early.
   */
  predicate Legal(s: System, e: Event) {
    && e.now >= s.clock
    && match e
       case Arrive(call, _, _) => call !in s.pending
       case Decide(call, _, _) => call in s.pending && s.pending[call].bucket < |s.core.buckets|
       case Tick(tick, now) => tick <= now
  }

  function Step(u: Setup, s: System, e: Event): System
    requires Legal(s, e)
  {
    match e
    case Arrive(call, key, now) =>
      var (core, bucket) := LookUp(u.rate, s.core, key, now);
      s.(core := core, clock := now, pending := s.pending[call := Pending(key, bucket, now)])
    case Decide(call, now, patience) =>
      var p := s.pending[call];
      var (answer, b) := Reserve(u.rate, s.core.buckets[p.bucket], now, patience);
      s.(core := s.core.(buckets := s.core.buckets[p.bucket := b]),
         clock := now,
         pending := s.pending - {call},
         answers := s.answers + [Decision(call, p.key, answer)],
         grants := if answer.Refused? then s.grants
                   else s.grants + [Grant(p.key, answer.time, FullAt(u.rate, b), EpochOf(s, p.key).gen)])
    case Tick(tick, now) =>
      if !u.evicting then s.(clock := now)
      else
        s.(core := Collect(s.core, u.ttl, tick),
           clock := now,
           epochs := s.epochs + map k | k in s.core.limiters && Expired(s.core.limiters[k], u.ttl, tick)
                                     :: Epoch(EpochOf(s, k).gen + 1, now))
  }

  ghost predicate LegalRun(u: Setup, s: System, events: seq<Event>)
    decreases |events|, 0
  {
    events != [] ==>
      && LegalRun(u, s, events[..|events| - 1])
      && Legal(Run(u, s, events[..|events| - 1]), events[|events| - 1])
  }

  ghost function Run(u: Setup, s: System, events: seq<Event>): System
    requires LegalRun(u, s, events)
    decreases |events|, 1
  {
    if events == [] then s else Step(u, Run(u, s, events[..|events| - 1]), events[|events| - 1])
  }

  lemma RunSnoc(u: Setup, s: System, events: seq<Event>, e: Event)
    requires LegalRun(u, s, events) && Legal(Run(u, s, events), e)
    ensures LegalRun(u, s, events + [e])
    ensures Run(u, s, events + [e]) == Step(u, Run(u, s, events), e)
  {
  }
}
