/** The limiter as the service starts it: what its fixed burst and ttl mean for the documented limit. */
module Startup {
  import opened Sums
  import opened RateLimiter
  import opened Eviction
  import opened RateBound
  import opened Visibility

  const MAX_BURST := 50
  const TTL_SECONDS := 300

  /**
   `tokens` requests per `seconds` seconds. Time is counted in `resolution` units per tokens-th of a
   second, so that a token takes `seconds * resolution` units to refill.
   */
  function BurstOf(tokens: nat): (burst: nat)
    ensures burst == Min(tokens, 50)
  {
    if tokens < MAX_BURST then tokens else MAX_BURST
  }

  function Second(tokens: nat, resolution: nat): nat {
    tokens * resolution
  }

  function Configured(tokens: nat, seconds: nat, resolution: nat): Setup {
    Setup(Rate(seconds * resolution, BurstOf(tokens)), TTL_SECONDS * Second(tokens, resolution), true)
  }

  /** The documented window, in units. */
  function Window(tokens: nat, seconds: nat, resolution: nat): nat {
    seconds * Second(tokens, resolution)
  }

  lemma Positive(a: nat, b: nat)
    requires a > 0 && b > 0
    ensures a * b > 0
  {
  }

  /** The window is worth `tokens` tokens, and the parameters are ones a limiter can have. */
  lemma ConfiguredIs(tokens: nat, seconds: nat, resolution: nat)
    requires tokens > 0 && seconds > 0 && resolution > 0
    ensures
      var u := Configured(tokens, seconds, resolution);
      && ValidRate(u.rate) && u.ttl > 0 && u.evicting
      && Window(tokens, seconds, resolution) == Worth(u.rate, tokens) > 0
      && Capacity(u.rate) == BurstOf(tokens) * (seconds * resolution)
  {
    var u := Configured(tokens, seconds, resolution);
    Positive(seconds, resolution);
    Positive(tokens, resolution);
    Positive(tokens, u.rate.cost);
    WorthIs(u.rate, tokens);
    WorthIs(u.rate, u.rate.burst);
    Exchange(tokens, seconds, resolution);
  }

  lemma Exchange(a: nat, b: nat, c: nat)
    ensures b * (a * c) == a * (b * c)
  {
  }

  lemma FewerTokens(n: nat, m: nat, cost: nat)
    requires n * cost < m * cost
    ensures n < m
  {
    if n >= m {
      MulMonotone(m, n, cost);
    }
  }

  // ---------- calls that come all at once ----------

  predicate BurstAnswered(r: Rate, answers: seq<Decision>, now: int, n: nat) {
    && |answers| == n
    && forall i :: 0 <= i < n ==> answers[i] == Decision(0, DEVICE, Granted(now + Due(r, i)))
  }

  lemma FreshServed(u: Setup, now: int)
    requires now >= 0
    ensures Led(u, Burst(now, 0), Initial(0), false, 0, 0) && Served(u, Initial(0), Initial(0), now, 0)
    ensures Quiet(Initial(0)) && Balance(u, Initial(0), now) == Capacity(u.rate)
  {
  }

  lemma LastServed(u: Setup, s: System, now: int, n: nat)
    requires Served(u, Initial(0), s, now, n + 1) && Balance(u, Initial(0), now) == Capacity(u.rate)
    ensures |s.answers| == n + 1 && s.answers[n] == Decision(0, DEVICE, Granted(now + Due(u.rate, n)))
  {
  }

  lemma {:induction false} BurstRun(u: Setup, now: int, n: nat) returns (s: System)
    requires ValidRate(u.rate) && now >= 0
    ensures Led(u, Burst(now, n), s, false, 0, 0) && Served(u, Initial(0), s, now, n)
    ensures BurstAnswered(u.rate, s.answers, now, n)
    decreases n
  {
    FreshServed(u, now);
    if n == 0 {
      s := Initial(0);
    } else {
      var t := BurstRun(u, now, n - 1);
      hide Led, Balance, Capacity, ValidRate, Due, Call, GrantTime;
      s := ThenCall(u, Burst(now, n - 1), t, now, false, 0, 0);
      ServedNext(u, Initial(0), t, s, now, n - 1);
      hide Served, Quiet;
      LastServed(u, s, now, n - 1);
    }
  }

  /** The burst is due at once, each later call a token after the one before. */
  lemma DueIs(tokens: nat, seconds: nat, resolution: nat, i: nat)
    requires tokens > 0 && seconds > 0 && resolution > 0
    ensures Due(Configured(tokens, seconds, resolution).rate, i)
            == if i < Min(tokens, 50) then 0 else (i + 1 - Min(tokens, 50)) * (seconds * resolution)
  {
    var r := Configured(tokens, seconds, resolution).rate;
    WorthIs(r, i + 1);
    WorthIs(r, r.burst);
    if i < r.burst {
      MulMonotone(i + 1, r.burst, r.cost);
    } else {
      MulMonotone(r.burst, i + 1, r.cost);
    }
    Distribute(r.burst, i + 1, r.cost);
  }

  /**
   Of any number of calls that one device makes at the same moment, the first min(tokens, 50) are granted then,
   and every further one as much later as a token takes to refill: `seconds / tokens` seconds.
   */
  lemma SimultaneousCalls(tokens: nat, seconds: nat, resolution: nat, evicting: bool, now: int, n: nat)
    requires tokens > 0 && seconds > 0 && resolution > 0 && now >= 0
    ensures
      var u := Configured(tokens, seconds, resolution).(evicting := evicting);
      && LegalRun(u, Initial(0), Burst(now, n))
      && var answers := Run(u, Initial(0), Burst(now, n)).answers;
         && |answers| == n
         && forall i :: 0 <= i < n ==>
              answers[i] == Decision(0, DEVICE, Granted(
                if i < Min(tokens, 50) then now
                else now + (i + 1 - Min(tokens, 50)) * (seconds * resolution)))
  {
    var u := Configured(tokens, seconds, resolution).(evicting := evicting);
    ConfiguredIs(tokens, seconds, resolution);
    var s := BurstRun(u, now, n);
    hide LegalRun, Run, Served, Burst, Due;
    forall i | 0 <= i < n
      ensures now + Due(u.rate, i) == if i < Min(tokens, 50) then now
                                      else now + (i + 1 - Min(tokens, 50)) * (seconds * resolution)
    {
      DueIs(tokens, seconds, resolution, i);
    }
  }

  // ---------- the documented limit ----------

  ghost predicate AtMost(u: Setup, start: int, events: seq<Event>, key: string, from: int, window: nat, n: nat)
    requires LegalRun(u, Initial(start), events)
  {
    InWindow(OfKey(Run(u, Initial(start), events).grants, key), from, from + window) <= n
  }

  /** With a single bucket per key, a window of `seconds` sees at most tokens + min(tokens, 50) - 1 grants. */
  lemma SingleBucketConfigured(
      tokens: nat, seconds: nat, resolution: nat, start: int, events: seq<Event>, key: string, from: int)
    requires tokens > 0 && seconds > 0 && resolution > 0
    requires LegalRun(NeverEvicting(Configured(tokens, seconds, resolution)), Initial(start), events)
    ensures AtMost(NeverEvicting(Configured(tokens, seconds, resolution)), start, events, key, from,
                   Window(tokens, seconds, resolution), tokens + Min(tokens, 50) - 1)
  {
    var u := NeverEvicting(Configured(tokens, seconds, resolution));
    var window := Window(tokens, seconds, resolution);
    ConfiguredIs(tokens, seconds, resolution);
    WorthIs(u.rate, tokens);
    Distribute(tokens, tokens + BurstOf(tokens), u.rate.cost);
    hide LegalRun, Run, InWindow, OfKey, Worth, Capacity, Window;
    SingleBucketBound(u, start, events, key, from, window);
    var n := InWindow(OfKey(Run(u, Initial(start), events).grants, key), from, from + window);
    FewerTokens(n, tokens + BurstOf(tokens), u.rate.cost);
  }

  /** The condition under which the fixed ttl covers a gap, a delay and a full refill. */
  predicate Covered(tokens: nat, seconds: nat, resolution: nat, gap: int, delay: int) {
    gap + delay + Min(tokens, 50) * (seconds * resolution) <= 300 * (tokens * resolution) + 1
  }

  /**
   The fixed ttl is invisible to every client that keeps to the bounds if and only if it covers the
   longest gap, the longest delay and a full refill, but for one unit of time.
   */
  lemma ConfiguredTransparentIff(tokens: nat, seconds: nat, resolution: nat, gap: int, delay: int)
    requires tokens > 0 && seconds > 0 && resolution > 0 && gap >= 0 && delay >= 0
    ensures Transparent(Configured(tokens, seconds, resolution), gap, delay)
            <==> Covered(tokens, seconds, resolution, gap, delay)
  {
    ConfiguredIs(tokens, seconds, resolution);
    TransparentIff(Configured(tokens, seconds, resolution), gap, delay);
  }

  /** Where the ttl covers them, the limiter that runs keeps the bound of a single bucket. */
  lemma ConfiguredBound(
      tokens: nat, seconds: nat, resolution: nat, start: int, events: seq<Event>, key: string, from: int,
      gap: int, delay: int)
    requires tokens > 0 && seconds > 0 && resolution > 0 && gap >= 0 && delay >= 0
    requires Covered(tokens, seconds, resolution, gap, delay)
    requires LegalRun(Configured(tokens, seconds, resolution), Initial(start), events)
    requires SwiftRun(Configured(tokens, seconds, resolution), start, events, gap, delay)
    ensures AtMost(Configured(tokens, seconds, resolution), start, events, key, from,
                   Window(tokens, seconds, resolution), tokens + Min(tokens, 50) - 1)
  {
    var u := Configured(tokens, seconds, resolution);
    hide LegalRun, Run, SwiftRun, InWindow, OfKey, GrantedIn, BurstOf, Window, Configured, Covered;
    ConfiguredTransparentIff(tokens, seconds, resolution, gap, delay);
    assert LegalRun(NeverEvicting(u), Initial(start), events);
    SingleBucketConfigured(tokens, seconds, resolution, start, events, key, from);
    var to := from + Window(tokens, seconds, resolution);
    GrantsAreAnswers(u, start, events, key, from, to);
    GrantsAreAnswers(NeverEvicting(u), start, events, key, from, to);
  }

  /** That many calls are granted when each is made just when its token is there: none waits, evicting or not. */
  lemma RushFits(tokens: nat, seconds: nat, resolution: nat, evicting: bool)
    requires tokens > 0 && seconds > 0 && resolution > 0
    ensures
      var u := Configured(tokens, seconds, resolution).(evicting := evicting);
      var n := tokens + Min(tokens, 50) - 1;
      && LegalRun(u, Initial(0), Steady(u.rate, 0, n))
      && SwiftRun(u, 0, Steady(u.rate, 0, n), 0, 0)
      && InWindow(OfKey(Run(u, Initial(0), Steady(u.rate, 0, n)).grants, DEVICE),
                  0, 0 + Window(tokens, seconds, resolution)) == n
  {
    var u := Configured(tokens, seconds, resolution).(evicting := evicting);
    ConfiguredIs(tokens, seconds, resolution);
    RushEnds(tokens, seconds, resolution);
    SteadyGrants(u, tokens + BurstOf(tokens) - 1, Window(tokens, seconds, resolution));
  }

  /** The last of those calls comes a token before the window ends. */
  lemma RushEnds(tokens: nat, seconds: nat, resolution: nat)
    requires tokens > 0 && seconds > 0 && resolution > 0
    ensures
      var r := Configured(tokens, seconds, resolution).rate;
      Due(r, tokens + BurstOf(tokens) - 2) + r.cost == Window(tokens, seconds, resolution)
  {
    var r := Configured(tokens, seconds, resolution).rate;
    ConfiguredIs(tokens, seconds, resolution);
    if tokens > 1 {
      DueBeyond(r, tokens - 2);
      assert Worth(r, tokens) == Worth(r, tokens - 1) + r.cost;
    } else {
      BurstDue(r, 0);
      WorthIs(r, 1);
    }
  }

  /** At most `tokens` requests per `seconds` seconds, for every client that keeps to the bounds. */
  ghost predicate KeepsLimit(u: Setup, window: nat, n: nat, gap: int, delay: int) {
    forall start, events, key, from ::
      LegalRun(u, Initial(start), events) && SwiftRun(u, start, events, gap, delay) ==>
        AtMost(u, start, events, key, from, window, n)
  }

  /**
   The documented limit holds for the limiter that runs if and only if `tokens` is one and the fixed ttl
   covers gap, delay and the refill of that one token.
   */
  lemma DocumentedLimitIff(tokens: nat, seconds: nat, resolution: nat, gap: int, delay: int)
    requires tokens > 0 && seconds > 0 && resolution > 0 && gap >= 0 && delay >= 0
    ensures KeepsLimit(Configured(tokens, seconds, resolution), Window(tokens, seconds, resolution), tokens, gap, delay)
            <==> tokens == 1 && Covered(tokens, seconds, resolution, gap, delay)
  {
    var u := Configured(tokens, seconds, resolution);
    var window := Window(tokens, seconds, resolution);
    ConfiguredIs(tokens, seconds, resolution);
    if tokens == 1 && Covered(tokens, seconds, resolution, gap, delay) {
      forall start, events, key, from |
          LegalRun(u, Initial(start), events) && SwiftRun(u, start, events, gap, delay)
        ensures AtMost(u, start, events, key, from, window, tokens)
      {
        ConfiguredBound(tokens, seconds, resolution, start, events, key, from, gap, delay);
      }
    } else {
      var events, from := LimitExceeded(tokens, seconds, resolution, gap, delay);
      assert !AtMost(u, 0, events, DEVICE, from, window, tokens);
    }
  }

  /** With more than one token a rush without waiting exceeds the limit. */
  lemma RushExceeds(tokens: nat, seconds: nat, resolution: nat, gap: int, delay: int) returns (events: seq<Event>)
    requires tokens > 1 && seconds > 0 && resolution > 0 && gap >= 0 && delay >= 0
    ensures
      var u := Configured(tokens, seconds, resolution);
      && LegalRun(u, Initial(0), events) && SwiftRun(u, 0, events, gap, delay)
      && !AtMost(u, 0, events, DEVICE, 0, Window(tokens, seconds, resolution), tokens)
  {
    var u := Configured(tokens, seconds, resolution);
    assert u.(evicting := true) == u && BurstOf(tokens) > 1;
    hide Configured, LegalRun, Run, SwiftRun, InWindow, OfKey, Window, Worth, Steady;
    RushFits(tokens, seconds, resolution, true);
    events := Steady(u.rate, 0, tokens + BurstOf(tokens) - 1);
    SwiftLooser(u, 0, events, 0, 0, gap, delay);
  }

  /** A run that keeps to the bounds and exceeds the documented limit. */
  lemma LimitExceeded(tokens: nat, seconds: nat, resolution: nat, gap: int, delay: int)
    returns (events: seq<Event>, from: int)
    requires tokens > 0 && seconds > 0 && resolution > 0 && gap >= 0 && delay >= 0
    requires tokens > 1 || !Covered(tokens, seconds, resolution, gap, delay)
    ensures
      var u := Configured(tokens, seconds, resolution);
      && LegalRun(u, Initial(0), events) && SwiftRun(u, 0, events, gap, delay)
      && !AtMost(u, 0, events, DEVICE, from, Window(tokens, seconds, resolution), tokens)
  {
    hide LegalRun, Run, SwiftRun, InWindow, OfKey, Window, Worth, Capacity;
    if tokens > 1 {
      events := RushExceeds(tokens, seconds, resolution, gap, delay);
      from := 0;
    } else {
      var u := Configured(tokens, seconds, resolution);
      ConfiguredIs(tokens, seconds, resolution);
      WorthIs(u.rate, 1);
      events, from := TooClose(u, gap, delay);
    }
  }

  lemma {:induction false} SwiftLooser(
      u: Setup, start: int, events: seq<Event>, gap: int, delay: int, gap': int, delay': int)
    requires LegalRun(u, Initial(start), events) && SwiftRun(u, start, events, gap, delay)
    requires gap <= gap' && delay <= delay'
    ensures SwiftRun(u, start, events, gap', delay')
  {
    if events != [] {
      SwiftLooser(u, start, events[..|events| - 1], gap, delay, gap', delay');
    }
  }

  /** Without a bound on how long clients wait, no number bounds the grants of a window, whatever the parameters. */
  lemma LimitNeverKept(tokens: nat, seconds: nat, resolution: nat, n: nat) returns (events: seq<Event>, from: int)
    requires tokens > 0 && seconds > 0 && resolution > 0
    ensures
      var u := Configured(tokens, seconds, resolution);
      && LegalRun(u, Initial(0), events)
      && !AtMost(u, 0, events, DEVICE, from, Window(tokens, seconds, resolution), n)
  {
    var u, window := Configured(tokens, seconds, resolution), Window(tokens, seconds, resolution);
    hide Configured, BurstOf, LegalRun, Run, InWindow, OfKey, Window, Worth, Capacity, GrantedIn, Times, ValidRate,
      Quiet;
    ConfiguredIs(tokens, seconds, resolution);
    OneTokenFits(u.rate, tokens);
    from := Times(n + 1, u.ttl + 1);
    var s;
    events, s := Pile(u, n + 1, from, window);
    GrantsAreAnswers(u, 0, events, DEVICE, from, from + window);
  }

  lemma OneTokenFits(r: Rate, tokens: nat)
    requires tokens > 0
    ensures r.cost <= Worth(r, tokens)
  {
  }

  /** A limiter that never evicts would keep it, for every client, if and only if `tokens` is one. */
  lemma SingleBucketLimitIff(tokens: nat, seconds: nat, resolution: nat)
    requires tokens > 0 && seconds > 0 && resolution > 0
    ensures (forall start, events, key, from ::
               LegalRun(NeverEvicting(Configured(tokens, seconds, resolution)), Initial(start), events) ==>
                 AtMost(NeverEvicting(Configured(tokens, seconds, resolution)), start, events, key, from,
                        Window(tokens, seconds, resolution), tokens))
            <==> tokens == 1
  {
    var u := NeverEvicting(Configured(tokens, seconds, resolution));
    var window := Window(tokens, seconds, resolution);
    if tokens == 1 {
      forall start, events, key, from | LegalRun(u, Initial(start), events)
        ensures AtMost(u, start, events, key, from, window, tokens)
      {
        SingleBucketConfigured(tokens, seconds, resolution, start, events, key, from);
      }
    } else {
      var n := tokens + BurstOf(tokens) - 1;
      RushFits(tokens, seconds, resolution, false);
      assert !AtMost(u, 0, Steady(u.rate, 0, n), DEVICE, 0, window, tokens);
    }
  }

  // ---------- the limiter that runs, whether or not eviction shows ----------

  /** Each ttl that begins within the window may add a burst. */
  lemma ConfiguredEvictingBound(
      tokens: nat, seconds: nat, resolution: nat, start: int, events: seq<Event>, key: string, from: int)
    requires tokens > 0 && seconds > 0 && resolution > 0
    requires LegalRun(Configured(tokens, seconds, resolution), Initial(start), events)
    requires TimelyRun(Configured(tokens, seconds, resolution), start, events)
    ensures AtMost(Configured(tokens, seconds, resolution), start, events, key, from,
                   Window(tokens, seconds, resolution),
                   tokens + Min(tokens, 50) * ((seconds - 1) / 300 + 2) - 1)
  {
    var u := Configured(tokens, seconds, resolution);
    var window, b, q := Window(tokens, seconds, resolution), BurstOf(tokens), (seconds - 1) / TTL_SECONDS;
    ConfiguredIs(tokens, seconds, resolution);
    WorthIs(u.rate, tokens);
    EvictingBound(u, start, events, key, from, window);
    TtlsIn(seconds, Second(tokens, resolution));
    var n := InWindow(OfKey(Run(u, Initial(start), events).grants, key), from, from + window);
    Regroup(tokens, b, q, u.rate.cost);
    FewerTokens(n, tokens + b * (q + 2), u.rate.cost);
  }

  lemma TtlsIn(seconds: nat, second: nat)
    requires seconds > 0 && second > 0
    ensures TTL_SECONDS * second > 0
    ensures (seconds * second - 1) / (TTL_SECONDS * second) == (seconds - 1) / TTL_SECONDS
  {
    var q, rest, ttl := (seconds - 1) / TTL_SECONDS, (seconds - 1) % TTL_SECONDS, TTL_SECONDS * second;
    assert seconds * second - 1 == q * ttl + (rest * second + second - 1);
    MulMonotone(rest + 1, TTL_SECONDS, second);
    assert 0 <= rest * second + second - 1 < ttl;
    Quotient(seconds * second - 1, ttl, q, rest * second + second - 1);
  }

  lemma Quotient(n: nat, d: nat, q: nat, rest: nat)
    requires d > 0 && n == q * d + rest && rest < d
    ensures n / d == q
  {
    if n / d < q {
      MulMonotone(n / d + 1, q, d);
    } else if n / d > q {
      MulMonotone(q + 1, n / d, d);
    }
  }

  lemma Regroup(tokens: nat, b: nat, q: nat, cost: nat)
    ensures b * cost + tokens * cost + b * cost * (q + 1) == (tokens + b * (q + 2)) * cost
  {
  }

  lemma NoTtlIn(b: nat, seconds: nat)
    requires 0 < seconds <= TTL_SECONDS
    ensures b * ((seconds - 1) / TTL_SECONDS + 2) == b + b
  {
    assert (seconds - 1) / TTL_SECONDS == 0;
  }

  /** A burst reserved as late as the ttl allows, an eviction, and a rush on the fresh bucket. */
  lemma DoubleRush(tokens: nat, seconds: nat, resolution: nat) returns (events: seq<Event>, s: System)
    requires tokens > 0 && seconds > 0 && resolution > 0 && seconds * resolution > 1
    ensures
      var u, window := Configured(tokens, seconds, resolution), Window(tokens, seconds, resolution);
      && LeadsSwiftly(u, events, s, u.ttl, 0)
      && GrantedIn(s.answers, DEVICE, u.ttl, u.ttl + window) == tokens + BurstOf(tokens) + BurstOf(tokens) - 1
  {
    ConfiguredIs(tokens, seconds, resolution);
    RushEnds(tokens, seconds, resolution);
    hide BurstOf, Window, ValidRate, Due, Worth, Capacity, LeadsSwiftly, GrantedIn;
    events, s := DoubleBurst(Configured(tokens, seconds, resolution), tokens + BurstOf(tokens) - 1,
                             Window(tokens, seconds, resolution));
  }

  /** For up to five minutes that bound is reached, by calls that are granted within a ttl of their lookup. */
  lemma EvictingBoundReached(tokens: nat, seconds: nat, resolution: nat) returns (events: seq<Event>, from: int)
    requires tokens > 0 && 0 < seconds <= 300 && resolution > 0 && seconds * resolution > 1
    ensures
      var u := Configured(tokens, seconds, resolution);
      && LegalRun(u, Initial(0), events) && TimelyRun(u, 0, events)
      && InWindow(OfKey(Run(u, Initial(0), events).grants, DEVICE), from, from + Window(tokens, seconds, resolution))
         == tokens + Min(tokens, 50) * ((seconds - 1) / 300 + 2) - 1
  {
    var s;
    var u := Configured(tokens, seconds, resolution);
    hide BurstOf, Window, Configured, LegalRun, SwiftRun, TimelyRun, Run, GrantedIn, InWindow, OfKey;
    NoTtlIn(BurstOf(tokens), seconds);
    events, s := DoubleRush(tokens, seconds, resolution);
    from := u.ttl;
    GrantsAreAnswers(u, 0, events, DEVICE, from, from + Window(tokens, seconds, resolution));
    SwiftIsTimely(u, 0, events, u.ttl, 0);
  }

  // ---------- one such limiter ----------

  /** One call per ten minutes; the key idles past the ttl, is evicted, and called again. */
  const SLOW := Configured(1, 600, 1)

  const IDLE_THEN_CALL: seq<Event> := Call(0) + [Tick(301, 301)] + Call(301)

  const SLOW_RATE := Rate(600, 1)

  /** The first three events; the tick comes 301 seconds after the only call. */
  lemma IdleRun(u: Setup) returns (s: System)
    requires u.rate == SLOW_RATE && u.ttl == 300
    ensures Leads(u, Call(0) + [Tick(301, 301)], s) && Quiet(s) && s.clock == 301
    ensures s.answers == [Decision(0, DEVICE, Granted(0))]
    ensures Balance(u, s, 301) == if u.evicting then 600 else 301
  {
    WorthIs(SLOW_RATE, 1);
    assert Leads(u, [], Initial(0)) && Quiet(Initial(0)) && Balance(u, Initial(0), 0) == 600;
    var s1 := ThenCall(u, [], Initial(0), 0, false, 0, 0);
    assert [] + Call(0) == Call(0);
    Then(u, Call(0), s1, Tick(301, 301));
    s := Step(u, s1, Tick(301, 301));
  }

  /** There the fixed ttl is too short: the second call is granted at once instead of after ten minutes. */
  lemma ShortTtlVisible()
    ensures LegalRun(SLOW, Initial(0), IDLE_THEN_CALL)
    ensures LegalRun(NeverEvicting(SLOW), Initial(0), IDLE_THEN_CALL)
    ensures Run(SLOW, Initial(0), IDLE_THEN_CALL).answers
            == [Decision(0, DEVICE, Granted(0))] + [Decision(0, DEVICE, Granted(301))]
    ensures Run(NeverEvicting(SLOW), Initial(0), IDLE_THEN_CALL).answers
            == [Decision(0, DEVICE, Granted(0))] + [Decision(0, DEVICE, Granted(600))]
  {
    var s := IdleRun(SLOW);
    var f := IdleRun(NeverEvicting(SLOW));
    var s' := ThenCall(SLOW, Call(0) + [Tick(301, 301)], s, 301, false, 0, 0);
    var f' := ThenCall(NeverEvicting(SLOW), Call(0) + [Tick(301, 301)], f, 301, false, 0, 0);
  }
}
