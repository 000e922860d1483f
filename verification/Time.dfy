/** Instants as nanoseconds since the Unix epoch, and their truncation to whole seconds. */
module Time {
  import opened Wrappers
  import Query

  type Instant = int

  const SECOND: int := 1_000_000_000

  /** Seconds since the epoch, rounded towards the past (also before 1970). */
  function Unix(t: Instant): int {
    t / SECOND
  }

  function FromUnix(sec: int): Instant {
    sec * SECOND
  }

  function UnixOption(t: Option<Instant>): Option<int> {
    match t
    case None => None
    case Some(v) => Some(Unix(v))
  }

  lemma UnixFromUnix(sec: int)
    ensures Unix(FromUnix(sec)) == sec
  {
  }

  /** Cutting to the second goes back in time by less than the billion nanoseconds a second has. */
  lemma WholeSeconds(t: Instant)
    ensures FromUnix(Unix(t)) == t - t % 1_000_000_000
    ensures Unix(t) * 1_000_000_000 <= t < (Unix(t) + 1) * 1_000_000_000
  {
  }

  /** An exact time inside the exact window, where an absent end is open. */
  predicate Within(t: Instant, start: Option<Instant>, end: Option<Instant>) {
    && (start.Some? ==> start.value <= t)
    && (end.Some? ==> t <= end.value)
  }

  /** Inside the window once both ends are moved out by strictly less than a second. */
  predicate NearlyWithin(t: Instant, start: Option<Instant>, end: Option<Instant>) {
    && (start.Some? ==> start.value - 1_000_000_000 < t)
    && (end.Some? ==> t < end.value + 1_000_000_000)
  }

  /** Comparing whole seconds loses nothing inside the window and admits less than a second around it. */
  lemma TruncatedWindow(t: Instant, start: Option<Instant>, end: Option<Instant>)
    ensures Within(t, start, end) ==> Query.InWindow(Unix(t), UnixOption(start), UnixOption(end))
    ensures Query.InWindow(Unix(t), UnixOption(start), UnixOption(end)) ==> NearlyWithin(t, start, end)
  {
  }

  /** Neither bound can be tightened: one nanosecond less than a second outside is still admitted. */
  lemma TruncationIsTight(sec: int)
    ensures
      var inside, edge := FromUnix(sec), FromUnix(sec) + SECOND - 1;
      && Query.InWindow(Unix(inside), UnixOption(Some(edge)), None)
      && Query.InWindow(Unix(edge), None, UnixOption(Some(inside)))
      && edge - inside == SECOND - 1
  {
  }
}
