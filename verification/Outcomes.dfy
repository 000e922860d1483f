/**
 What the two writing calls reply and write, in closed form: run on their own, and as they end in any
 interleaving with others.
 */
module Outcomes {
  import opened Wrappers
  import opened Repository
  import opened Calls
  import opened Interleaving
  import opened Justification

  // ---------- configuring ----------

  /** A configuring call on its own: one write, made exactly when the reply is success. */
  lemma ConfigureAlone(db: Db, deviceId: string, config: Config, faults: Faults)
    ensures
      var (db', c) := Finish(db, Client(Configure(deviceId, config), faults, Ready));
      var inRange := && !IsBlank(deviceId)
                     && -10_000.0 <= config.temperatureThreshold <= 10_000.0
                     && 0 <= config.batteryThreshold <= 100;
      && c.pc.reply == (if !inRange then Invalid else if faults.write then WriteFailed else Success)
      && db' == if c.pc.reply == Success then db.(configs := db.configs[deviceId := config]) else db
  {
  }

  /** The one step of a configuring call. */
  lemma ConfigureStep(db: Db, c: Client)
    requires c.call.Configure? && c.pc.Ready?
    ensures
      var (db', c') := StepCall(db, c);
      var inRange := && !IsBlank(c.call.deviceId)
                     && -10_000.0 <= c.call.config.temperatureThreshold <= 10_000.0
                     && 0 <= c.call.config.batteryThreshold <= 100;
      && c'.pc.Done?
      && c'.pc.reply == (if !inRange then Invalid else if c.faults.write then WriteFailed else Success)
      && db' == if c'.pc.reply == Success then db.(configs := db.configs[c.call.deviceId := c.call.config]) else db
  {
  }

  /** The database just before and just after turn `j`. */
  ghost function Before(sys: System, schedule: seq<nat>, j: nat): Db
    requires IsSchedule(sys, schedule) && AllWellFormed(sys) && j <= |schedule|
  {
    Execute(sys, schedule[..j]).db
  }

  /** Turn `k` is where a configuring call is answered and makes its write; none of its other turns changes anything. */
  ghost predicate AnsweredAt(sys: System, schedule: seq<nat>, i: nat, reply: Reply, k: nat)
    requires IsSchedule(sys, schedule) && AllWellFormed(sys) && i < |sys.clients| && sys.clients[i].call.Configure?
  {
    && k < |schedule| && schedule[k] == i
    && Before(sys, schedule, k + 1) ==
       (var db, call := Before(sys, schedule, k), sys.clients[i].call;
        if reply == Success then db.(configs := db.configs[call.deviceId := call.config]) else db)
    && forall j :: 0 <= j < |schedule| && schedule[j] == i && j != k ==>
         Before(sys, schedule, j + 1) == Before(sys, schedule, j)
  }

  lemma BeforeInit(sys: System, schedule: seq<nat>, j: nat)
    requires IsSchedule(sys, schedule) && AllWellFormed(sys) && j < |schedule|
    ensures Before(sys, schedule[..|schedule| - 1], j) == Before(sys, schedule, j)
  {
    assert schedule[..|schedule| - 1][..j] == schedule[..j];
  }

  /** The last turn: the database before and after it. */
  lemma LastTurn(sys: System, schedule: seq<nat>)
    requires IsSchedule(sys, schedule) && AllWellFormed(sys) && schedule != []
    ensures
      var n := |schedule| - 1;
      var was := Execute(sys, schedule[..n]);
      && Before(sys, schedule, n) == was.db
      && Before(sys, schedule, n + 1) == Turn(was, schedule[n]).db
      && Execute(sys, schedule) == Turn(was, schedule[n])
  {
    assert schedule[..|schedule|] == schedule;
  }

  lemma AnsweredEarlier(sys: System, schedule: seq<nat>, i: nat, reply: Reply, k: nat)
    requires IsSchedule(sys, schedule) && AllWellFormed(sys) && i < |sys.clients| && sys.clients[i].call.Configure?
    requires schedule != [] && AnsweredAt(sys, schedule[..|schedule| - 1], i, reply, k)
    requires schedule[|schedule| - 1] == i ==>
               Before(sys, schedule, |schedule|) == Before(sys, schedule, |schedule| - 1)
    ensures AnsweredAt(sys, schedule, i, reply, k)
  {
    var n := |schedule| - 1;
    var init := schedule[..n];
    forall j | 0 <= j <= n ensures Before(sys, init, j) == Before(sys, schedule, j) {
      BeforeInit(sys, schedule, j);
    }
    hide Before;
    forall j | 0 <= j < |schedule| && schedule[j] == i && j != k
      ensures Before(sys, schedule, j + 1) == Before(sys, schedule, j)
    {
      if j < n {
        assert init[j] == i;
      }
    }
  }

  lemma DoneTurn(sys: System, i: nat)
    requires i < |sys.clients| && sys.clients[i].pc.Done?
    ensures Turn(sys, i) == sys
  {
  }

  /** A configuring client has had no turn, or was answered at one. */
  lemma {:induction false} ConfigureTurns(sys: System, schedule: seq<nat>, i: nat) returns (k: nat)
    requires Fresh(sys) && IsSchedule(sys, schedule) && AllWellFormed(sys)
    requires i < |sys.clients| && sys.clients[i].call.Configure?
    ensures
      var c := Execute(sys, schedule).clients[i];
      && c == sys.clients[i].(pc := c.pc)
      && (c.pc.Ready? ==> i !in schedule)
      && (!c.pc.Ready? ==>
            && c.pc == StepCall(sys.db, sys.clients[i]).1.pc
            && c.pc.Done?
            && AnsweredAt(sys, schedule, i, c.pc.reply, k))
  {
    k := 0;
    if schedule != [] {
      var n := |schedule| - 1;
      var init, x := schedule[..n], schedule[n];
      k := ConfigureTurns(sys, init, i);
      var was := Execute(sys, init);
      assert schedule == init + [x];
      LastTurn(sys, schedule);
      ConfigureStep(sys.db, sys.clients[i]);
      if was.clients[i].pc.Ready? {
        if x == i {
          ConfigureStep(was.db, was.clients[i]);
          k := n;
        }
      } else {
        if x == i {
          DoneTurn(was, i);
        }
        hide StepCall, Execute, Before, AnsweredAt;
        AnsweredEarlier(sys, schedule, i, was.clients[i].pc.reply, k);
      }
    }
  }

  /**
   A configuring call that has ended in an interleaving was answered at one of its turns: with success
   exactly when the request is in range and its write did not fail, and then that turn, and no other of
   its turns, wrote its configuration for its device and nothing else.
   */
  lemma ConfigureOutcome(sys: System, schedule: seq<nat>, i: nat) returns (k: nat)
    requires Fresh(sys) && IsSchedule(sys, schedule) && AllWellFormed(sys)
    requires i < |sys.clients| && sys.clients[i].call.Configure? && Execute(sys, schedule).clients[i].pc.Done?
    ensures
      var call, reply := sys.clients[i].call, Execute(sys, schedule).clients[i].pc.reply;
      var inRange := && !IsBlank(call.deviceId)
                     && -10_000.0 <= call.config.temperatureThreshold <= 10_000.0
                     && 0 <= call.config.batteryThreshold <= 100;
      && reply == (if !inRange then Invalid else if sys.clients[i].faults.write then WriteFailed else Success)
      && AnsweredAt(sys, schedule, i, reply, k)
  {
    k := ConfigureTurns(sys, schedule, i);
    ConfigureStep(sys.db, sys.clients[i]);
  }

  // ---------- recording ----------

  /** What validation asks of a metric; the time is not the first second of year one. */
  predicate Acceptable(call: Call)
    requires call.Record?
  {
    && !IsBlank(call.deviceId)
    && call.time != -62_135_596_800_000_000_000
    && -10_000.0 <= call.temperature <= 10_000.0
    && 0 <= call.battery <= 100
  }

  /** The thresholds that are compared with: zeros after a failed read, none if none are configured. */
  function ComparedWith(configs: map<string, Config>, deviceId: string, readFails: bool): Option<Config> {
    if readFails then Some(Config(0.0, 0))
    else if deviceId in configs then Some(configs[deviceId])
    else None
  }

  predicate TooHot(call: Call, used: Option<Config>)
    requires call.Record?
  {
    used.Some? && call.temperature > used.value.temperatureThreshold
  }

  predicate TooLow(call: Call, used: Option<Config>)
    requires call.Record?
  {
    used.Some? && call.battery < used.value.batteryThreshold
  }

  /** The first thing that goes wrong, in the order of the checks and writes. */
  function ReplyTo(call: Call, faults: Faults, used: Option<Config>): Reply
    requires call.Record?
  {
    if !Acceptable(call) then Invalid
    else if faults.write then WriteFailed
    else if TooHot(call, used) && faults.temperatureAlert then TemperatureAlertFailed
    else if TooLow(call, used) && faults.batteryAlert then BatteryAlertFailed
    else Success
  }

  function MetricsAfter(t: Table<Reading>, call: Call, reply: Reply): Table<Reading>
    requires call.Record?
  {
    if reply == Invalid || reply == WriteFailed then t
    else Append(t, call.deviceId, Item(Reading(call.temperature, call.battery), call.time))
  }

  /** The temperature alert is stored unless its own write fails, the battery alert only if no write fails. */
  function AlertsAfter(t: Table<Notice>, call: Call, reply: Reply, used: Option<Config>): Table<Notice>
    requires call.Record?
  {
    var hot :=
      if TooHot(call, used) && (reply == BatteryAlertFailed || reply == Success)
      then Append(t, call.deviceId,
                  Item(Notice(TemperatureHigh, Exceeded(call.temperature, used.value.temperatureThreshold)), call.time))
      else t;
    if TooLow(call, used) && reply == Success
    then Append(hot, call.deviceId,
                Item(Notice(BatteryLow, Dropped(call.battery, used.value.batteryThreshold)), call.time))
    else hot
  }

  lemma AcceptableIffValid(call: Call)
    requires call.Record?
    ensures Valid(call) <==> Acceptable(call)
  {
  }

  lemma BatteryPart(db: Db, c: Client, config: Config)
    requires c.call.Record? && c.pc == AfterTemperature(c.call, config)
    ensures
      var (db', end) := Finish(db, c);
      var low := c.call.battery < config.batteryThreshold;
      && end.pc == Done(if low && c.faults.batteryAlert then BatteryAlertFailed else Success, Some(config))
      && db' == if low && !c.faults.batteryAlert
                then db.(alerts := Append(db.alerts, c.call.deviceId,
                                          Item(Notice(BatteryLow, Dropped(c.call.battery, config.batteryThreshold)),
                                               c.call.time)))
                else db
  {
  }

  lemma TemperaturePart(db: Db, c: Client, config: Config)
    requires c.call.Record? && c.pc == AfterRead(c.call, config)
    requires Acceptable(c.call) && !c.faults.write
    ensures
      var (db', end) := Finish(db, c);
      var reply := ReplyTo(c.call, c.faults, Some(config));
      && end.pc == Done(reply, Some(config))
      && db' == db.(alerts := AlertsAfter(db.alerts, c.call, reply, Some(config)))
  {
    if c.pc.RaiseTemperature? {
      var (db1, c1) := StepCall(db, c);
      FinishStep(db, c);
      hide Finish;
      if !c.faults.temperatureAlert {
        BatteryPart(db1, c1, config);
      } else {
        assert Finish(db1, c1) == (db1, c1) by { FinishedStays(db1, c1); }
      }
    } else {
      BatteryPart(db, c, config);
    }
  }

  lemma FinishedStays(db: Db, c: Client)
    requires c.pc.Done?
    ensures Finish(db, c) == (db, c)
  {
  }

  lemma ReadPart(db: Db, c: Client)
    requires c.call.Record? && c.pc.Saved? && Acceptable(c.call) && !c.faults.write
    ensures
      var (db', end) := Finish(db, c);
      var used := ComparedWith(db.configs, c.call.deviceId, c.faults.read);
      var reply := ReplyTo(c.call, c.faults, used);
      && end.pc == Done(reply, used)
      && db' == db.(alerts := AlertsAfter(db.alerts, c.call, reply, used))
  {
    var (db1, c1) := StepCall(db, c);
    var used := ComparedWith(db.configs, c.call.deviceId, c.faults.read);
    FinishStep(db, c);
    hide Finish, ReplyTo, AlertsAfter, Acceptable;
    if used.Some? {
      TemperaturePart(db1, c1, used.value);
    } else {
      FinishedStays(db1, c1);
      NoThresholds(db.alerts, c);
    }
  }

  lemma NoThresholds(t: Table<Notice>, c: Client)
    requires c.call.Record? && Acceptable(c.call) && !c.faults.write
    ensures ReplyTo(c.call, c.faults, None) == Success && AlertsAfter(t, c.call, Success, None) == t
  {
  }

  /**
   A recording call on its own: the reply is the first thing that goes wrong, the metric is stored unless the
   request is refused or its write fails, and an alert for each threshold breached, up to the first alert
   write that fails.
   */
  lemma RecordAlone(db: Db, call: Call, faults: Faults)
    requires call.Record?
    ensures
      var (db', c) := Finish(db, Client(call, faults, Ready));
      var used := ComparedWith(db.configs, call.deviceId, faults.read);
      var reply := ReplyTo(call, faults, used);
      && c.pc == Done(reply, if reply == Invalid || reply == WriteFailed then None else used)
      && db' == db.(metrics := MetricsAfter(db.metrics, call, reply),
                    alerts := AlertsAfter(db.alerts, call, reply, used))
  {
    var c := Client(call, faults, Ready);
    var (db1, c1) := StepCall(db, c);
    AcceptableIffValid(call);
    FinishStep(db, c);
    hide Finish, Acceptable, Valid;
    if c1.pc.Saved? {
      ReadPart(db1, c1);
    } else {
      FinishedStays(db1, c1);
    }
  }

  /** What a call that ended like this has written. */
  lemma EndWrote(c: Client, end: Client, used: Option<Config>)
    requires c.call.Record? && end == c.(pc := end.pc) && end.pc.Done?
    requires end.pc.reply == ReplyTo(c.call, c.faults, used)
    requires end.pc.used == if end.pc.reply == Invalid || end.pc.reply == WriteFailed then None else used
    ensures HasSaved(end) <==> end.pc.reply !in {Invalid, WriteFailed}
    ensures HasStored(end, TemperatureHigh) <==>
              end.pc.reply in {BatteryAlertFailed, Success} && TooHot(c.call, used)
    ensures HasStored(end, BatteryLow) <==> end.pc.reply == Success && TooLow(c.call, used)
  {
  }

  /** It ends as it does when run at its place in the serial order. */
  lemma EndsSerially(sys: System, schedule: seq<nat>, k: nat, i: nat)
    requires Fresh(sys) && IsSchedule(sys, schedule) && AllWellFormed(sys) && i < |sys.clients|
    requires Execute(sys, schedule).clients[i].pc.Done?
    requires k < |Order(sys, schedule)| && Order(sys, schedule)[k] == i
    ensures
      var c, end := sys.clients[i], Execute(sys, schedule).clients[i];
      && end == c.(pc := end.pc) && c.pc.Ready?
      && end.pc == Finish(Serial(sys, Order(sys, schedule)[..k]), c).1.pc
  {
    RunSimulates(sys, schedule);
    SerialEndAt(sys, Order(sys, schedule), k);
  }

  lemma MetricLogged(sys: System, schedule: seq<nat>, i: nat)
    requires Fresh(sys) && IsSchedule(sys, schedule) && AllWellFormed(sys) && i < |sys.clients|
    ensures WroteMetric(i) in Log(sys, schedule) <==> HasSaved(Execute(sys, schedule).clients[i])
  {
    RunExplains(sys, schedule);
    hide Execute, Log, HasSaved;
    assert WroteMetric(i) in Log(sys, schedule) <==> HasWritten(Execute(sys, schedule).clients, WroteMetric(i));
  }

  /**
   A recording call that has ended in an interleaving replies, and has written, what it would on its own with the
   configuration in force at its place in the serial order.
   */
  lemma RecordOutcome(sys: System, schedule: seq<nat>, k: nat, i: nat)
    requires Fresh(sys) && IsSchedule(sys, schedule) && AllWellFormed(sys) && i < |sys.clients|
    requires sys.clients[i].call.Record? && Execute(sys, schedule).clients[i].pc.Done?
    requires k < |Order(sys, schedule)| && Order(sys, schedule)[k] == i
    ensures
      var c, end := sys.clients[i], Execute(sys, schedule).clients[i];
      var configs := Upserted(sys.db.configs, Upserts(sys.clients, Order(sys, schedule)[..k]));
      var used := ComparedWith(configs, c.call.deviceId, c.faults.read);
      && end.pc.reply == ReplyTo(c.call, c.faults, used)
      && (WroteMetric(i) in Log(sys, schedule) <==> end.pc.reply !in {Invalid, WriteFailed})
      && (WroteAlert(i, TemperatureHigh) in Log(sys, schedule) <==>
            end.pc.reply in {BatteryAlertFailed, Success} && TooHot(c.call, used))
      && (WroteAlert(i, BatteryLow) in Log(sys, schedule) <==> end.pc.reply == Success && TooLow(c.call, used))
  {
    var c, end := sys.clients[i], Execute(sys, schedule).clients[i];
    var order := Order(sys, schedule);
    hide Execute, Order, Log, Serial, Upserts, Finish, ReplyTo, HasStored, HasSaved, TooHot, TooLow;
    EndsSerially(sys, schedule, k, i);
    SerialConfigs(sys, order[..k]);
    RecordAlone(Serial(sys, order[..k]), c.call, c.faults);
    LoggedIs(sys, schedule, i, TemperatureHigh);
    LoggedIs(sys, schedule, i, BatteryLow);
    MetricLogged(sys, schedule, i);
    var configs := Upserted(sys.db.configs, Upserts(sys.clients, order[..k]));
    hide Fresh, AllWellFormed, IsSchedule, Upserted;
    EndWrote(c, end, ComparedWith(configs, c.call.deviceId, c.faults.read));
  }
}
