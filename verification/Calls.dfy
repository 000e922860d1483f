/**
 The two writing calls of the service as sequences of repository calls. Each repository call is
 one atomic step (the database has a single connection); between two of them other clients may run.
 */
module Calls {
  import opened Wrappers
  import opened Time
  import opened Repository

  datatype Call =
    | Record(deviceId: string, temperature: real, battery: int, time: Instant)
    | Configure(deviceId: string, config: Config)

  /** Which of a call's repository calls fail: its first write, its config read, its alert writes. */
  datatype Faults = Faults(write: bool, read: bool, temperatureAlert: bool, batteryAlert: bool)

  const NO_FAULTS := Faults(false, false, false, false)

  datatype Reply = Success | Invalid | WriteFailed | TemperatureAlertFailed | BatteryAlertFailed

  /** Where a call stands. A finished call remembers the thresholds it compared with, if any. */
  datatype Pc =
    | Ready
    | Saved
    | RaiseTemperature(config: Config)
    | RaiseBattery(config: Config)
    | Done(reply: Reply, used: Option<Config>)

  datatype Client = Client(call: Call, faults: Faults, pc: Pc)

  // ---------- request validation ----------

  const ZERO_TIME: Instant := FromUnix(-62_135_596_800)
  const MIN_TEMPERATURE := -10_000.0
  const MAX_TEMPERATURE := 10_000.0
  const MIN_BATTERY := 0
  const MAX_BATTERY := 100

  /** Unicode white space, as trimming sees it. */
  predicate IsSpace(c: char) {
    var n := c as int;
    || 9 <= n <= 13
    || n == 32 || n == 0x85 || n == 0xA0 || n == 0x1680
    || 0x2000 <= n <= 0x200A
    || n == 0x2028 || n == 0x2029 || n == 0x202F || n == 0x205F || n == 0x3000
  }

  predicate IsBlank(s: string) {
    forall i :: 0 <= i < |s| ==> IsSpace(s[i])
  }

  /** The string without its leading white space, and without its trailing white space. */
  function TrimmedLeft(s: string): string {
    if s != "" && IsSpace(s[0]) then TrimmedLeft(s[1..]) else s
  }

  function TrimmedRight(s: string): string {
    if s != "" && IsSpace(s[|s| - 1]) then TrimmedRight(s[..|s| - 1]) else s
  }

  /** An id is blank exactly when trimming leaves nothing of it. */
  lemma {:induction false} BlankIff(s: string)
    ensures IsBlank(s) <==> TrimmedRight(TrimmedLeft(s)) == ""
  {
    if s != "" && IsSpace(s[0]) {
      BlankIff(s[1..]);
      assert IsBlank(s) <==> IsBlank(s[1..]);
    } else {
      SomethingLeft(s);
    }
  }

  lemma {:induction false} SomethingLeft(s: string)
    requires s != "" ==> !IsSpace(s[0])
    ensures TrimmedRight(s) == "" <==> s == ""
  {
    if |s| > 1 {
      SomethingLeft(s[..|s| - 1]);
    }
  }

  /** The white space characters, one by one. */
  lemma SpaceIs(c: char)
    ensures IsSpace(c) <==> c as int in [
              0x09, 0x0A, 0x0B, 0x0C, 0x0D, 0x20, 0x85, 0xA0, 0x1680, 0x2000, 0x2001, 0x2002, 0x2003, 0x2004, 0x2005,
              0x2006, 0x2007, 0x2008, 0x2009, 0x200A, 0x2028, 0x2029, 0x202F, 0x205F, 0x3000]
  {
  }

  predicate Valid(call: Call) {
    && !IsBlank(call.deviceId)
    && match call
       case Record(_, temperature, battery, time) =>
         && time != ZERO_TIME
         && MIN_TEMPERATURE <= temperature <= MAX_TEMPERATURE
         && MIN_BATTERY <= battery <= MAX_BATTERY
       case Configure(_, config) =>
         && MIN_TEMPERATURE <= config.temperatureThreshold <= MAX_TEMPERATURE
         && MIN_BATTERY <= config.batteryThreshold <= MAX_BATTERY
  }

  // ---------- what a call writes ----------

  function MetricOf(call: Call): Metric
    requires call.Record?
  {
    Item(Reading(call.temperature, call.battery), call.time)
  }

  function AlertOf(call: Call, config: Config, reason: Reason): Alert
    requires call.Record?
  {
    match reason
    case TemperatureHigh =>
      Item(Notice(TemperatureHigh, Exceeded(call.temperature, config.temperatureThreshold)), call.time)
    case BatteryLow =>
      Item(Notice(BatteryLow, Dropped(call.battery, config.batteryThreshold)), call.time)
  }

  /** The value strictly breaches the threshold. */
  predicate Breaches(call: Call, config: Config, reason: Reason)
    requires call.Record?
  {
    match reason
    case TemperatureHigh => call.temperature > config.temperatureThreshold
    case BatteryLow => call.battery < config.batteryThreshold
  }

  // ---------- the steps ----------

  /** A config read that fails with anything but not-found leaves the zero configuration in place. */
  const ZERO_CONFIG := Config(0.0, 0)

  function AfterTemperature(call: Call, config: Config): Pc
    requires call.Record?
  {
    if call.battery < config.batteryThreshold then RaiseBattery(config) else Done(Success, Some(config))
  }

  function AfterRead(call: Call, config: Config): Pc
    requires call.Record?
  {
    if call.temperature > config.temperatureThreshold then RaiseTemperature(config)
    else AfterTemperature(call, config)
  }

  predicate WellFormed(c: Client) {
    c.pc.Saved? || c.pc.RaiseTemperature? || c.pc.RaiseBattery? ==> c.call.Record?
  }

  /** One repository call of a client, and the client's own work up to its next one. */
  function StepCall(db: Db, c: Client): (r: (Db, Client))
    requires WellFormed(c)
    ensures WellFormed(r.1)
  {
    match c.pc
    case Ready =>
      if !Valid(c.call) then (db, c.(pc := Done(Invalid, None)))
      else if c.faults.write then (db, c.(pc := Done(WriteFailed, None)))
      else (
        match c.call
        case Configure(deviceId, config) =>
          (db.(configs := db.configs[deviceId := config]), c.(pc := Done(Success, None)))
        case Record(deviceId, _, _, _) =>
          (db.(metrics := Append(db.metrics, deviceId, MetricOf(c.call))), c.(pc := Saved))
      )
    case Saved => (
      match ReadConfig(db.configs, c.call.deviceId, c.faults.read)
      case Err(NotFound) => (db, c.(pc := Done(Success, None)))
      case Err(Failed) => (db, c.(pc := AfterRead(c.call, ZERO_CONFIG)))
      case Ok(config) => (db, c.(pc := AfterRead(c.call, config)))
    )
    case RaiseTemperature(config) =>
      if c.faults.temperatureAlert then (db, c.(pc := Done(TemperatureAlertFailed, Some(config))))
      else (db.(alerts := Append(db.alerts, c.call.deviceId, AlertOf(c.call, config, TemperatureHigh))),
            c.(pc := AfterTemperature(c.call, config)))
    case RaiseBattery(config) =>
      if c.faults.batteryAlert then (db, c.(pc := Done(BatteryAlertFailed, Some(config))))
      else (db.(alerts := Append(db.alerts, c.call.deviceId, AlertOf(c.call, config, BatteryLow))),
            c.(pc := Done(Success, Some(config))))
    case Done(_, _) => (db, c)
  }

  /** How many steps a call can still take. */
  function StepsLeft(pc: Pc): nat {
    match pc
    case Ready => 4
    case Saved => 3
    case RaiseTemperature(_) => 2
    case RaiseBattery(_) => 1
    case Done(_, _) => 0
  }

  /** The call run on its own, with nobody in between. */
  function Finish(db: Db, c: Client): (r: (Db, Client))
    requires WellFormed(c)
    ensures r.1.pc.Done? && r.1.call == c.call && r.1.faults == c.faults
    decreases StepsLeft(c.pc)
  {
    if c.pc.Done? then (db, c)
    else
      var (db', c') := StepCall(db, c);
      Finish(db', c')
  }
}
