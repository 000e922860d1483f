/**
 Many clients, each in the middle of a call, take turns at the database one repository call at a
 time. Every interleaving has the effect of running the calls one after another, in the order in
 which they read or wrote their configuration.
 */
module Interleaving {
  import opened Wrappers
  import opened Query
  import opened Repository
  import opened Calls
  import opened Sums

  datatype System = System(db: Db, clients: seq<Client>)

  /** Every client is about to start its call. */
  ghost predicate Fresh(sys: System) {
    forall i :: 0 <= i < |sys.clients| ==> sys.clients[i].pc == Ready
  }

  ghost predicate Complete(sys: System) {
    forall i :: 0 <= i < |sys.clients| ==> sys.clients[i].pc.Done?
  }

  ghost predicate AllWellFormed(sys: System) {
    forall i :: 0 <= i < |sys.clients| ==> WellFormed(sys.clients[i])
  }

  /** Who takes each turn; clients may take turns in any order and any number of times. */
  ghost predicate IsSchedule(sys: System, schedule: seq<nat>) {
    forall k :: 0 <= k < |schedule| ==> schedule[k] < |sys.clients|
  }

  function Turn(sys: System, i: nat): (sys': System)
    requires i < |sys.clients| && WellFormed(sys.clients[i])
    ensures |sys'.clients| == |sys.clients|
  {
    var (db, c) := StepCall(sys.db, sys.clients[i]);
    System(db, sys.clients[i := c])
  }

  ghost function Execute(sys: System, schedule: seq<nat>): (sys': System)
    requires IsSchedule(sys, schedule) && AllWellFormed(sys)
    ensures |sys'.clients| == |sys.clients| && AllWellFormed(sys')
  {
    if schedule == [] then sys
    else Turn(Execute(sys, schedule[..|schedule| - 1]), schedule[|schedule| - 1])
  }

  // ---------- the serial order ----------

  /** The next step decides the call's effect: it is a configuration read or write, or ends the call outright. */
  predicate Commits(c: Client) {
    c.pc.Saved? || (c.pc.Ready? && (!Valid(c.call) || c.faults.write || c.call.Configure?))
  }

  predicate Committed(c: Client) {
    !c.pc.Ready? && !c.pc.Saved?
  }

  /** The clients in the order of their committing steps. */
  ghost function Order(sys: System, schedule: seq<nat>): (order: seq<nat>)
    requires IsSchedule(sys, schedule) && AllWellFormed(sys)
    ensures forall k :: 0 <= k < |order| ==> order[k] < |sys.clients|
  {
    if schedule == [] then []
    else
      var init, i := schedule[..|schedule| - 1], schedule[|schedule| - 1];
      Order(sys, init) + if Commits(Execute(sys, init).clients[i]) then [i] else []
  }

  /** The database after running whole calls one after another. */
  ghost function Serial(sys: System, order: seq<nat>): Db
    requires IsSchedule(sys, order) && AllWellFormed(sys)
  {
    if order == [] then sys.db
    else Finish(Serial(sys, order[..|order| - 1]), sys.clients[order[|order| - 1]]).0
  }

  /** How call `i` ends in the serial run. */
  ghost function SerialEnd(sys: System, order: seq<nat>, i: nat): Pc
    requires IsSchedule(sys, order) && AllWellFormed(sys)
    requires i in order
  {
    var init, last := order[..|order| - 1], order[|order| - 1];
    if last == i then Finish(Serial(sys, init), sys.clients[i]).1.pc
    else
      assert order == init + [last];
      SerialEnd(sys, init, i)
  }

  // ---------- contents of a table, ignoring ids ----------

  datatype Entry<T> = Entry(deviceId: string, timestamp: int, body: T)

  function EntryOf<T>(r: Row<T>): Entry<T> {
    Entry(r.deviceId, r.timestamp, r.body)
  }

  function Entries<T(==)>(rows: seq<Row<T>>): multiset<Entry<T>> {
    if rows == [] then multiset{}
    else Entries(rows[..|rows| - 1]) + multiset{EntryOf(rows[|rows| - 1])}
  }

  function NewEntry<T>(deviceId: string, item: Item<T>): Entry<T> {
    EntryOf(Append(Table([], 0), deviceId, item).rows[0])
  }

  lemma AppendEntries<T>(t: Table<T>, deviceId: string, item: Item<T>)
    ensures Entries(Append(t, deviceId, item).rows) == Entries(t.rows) + multiset{NewEntry(deviceId, item)}
  {
  }

  // ---------- what a call still owes ----------

  /** The metric of a call that has saved it but not yet committed. */
  function EarlyMetric(c: Client): multiset<Entry<Reading>> {
    if c.pc.Saved? && c.call.Record? then multiset{NewEntry(c.call.deviceId, MetricOf(c.call))} else multiset{}
  }

  /** What storing one alert adds, unless the write fails. */
  function Stores(c: Client, config: Config, reason: Reason): multiset<Entry<Notice>>
    requires c.call.Record?
  {
    if (if reason.TemperatureHigh? then c.faults.temperatureAlert else c.faults.batteryAlert) then multiset{}
    else multiset{NewEntry(c.call.deviceId, AlertOf(c.call, config, reason))}
  }

  /** The alerts a committed call has yet to store; a failed write ends the call. */
  function OwedAlerts(c: Client): multiset<Entry<Notice>> {
    if !c.call.Record? then multiset{}
    else
      match c.pc
      case RaiseTemperature(config) =>
        if c.call.battery < config.batteryThreshold && !c.faults.temperatureAlert
        then Stores(c, config, TemperatureHigh) + Stores(c, config, BatteryLow)
        else Stores(c, config, TemperatureHigh)
      case RaiseBattery(config) => Stores(c, config, BatteryLow)
      case _ => multiset{}
  }

  /** How a committed call will end; the database no longer matters. */
  function EndOf(c: Client): Pc
    requires WellFormed(c) && Committed(c)
    decreases StepsLeft(c.pc)
  {
    match c.pc
    case RaiseTemperature(config) =>
      if c.faults.temperatureAlert then Done(TemperatureAlertFailed, Some(config))
      else EndOf(c.(pc := AfterTemperature(c.call, config)))
    case RaiseBattery(config) =>
      Done(if c.faults.batteryAlert then BatteryAlertFailed else Success, Some(config))
    case Done(_, _) => c.pc
  }

  /** One alert write: afterwards the table holds what the write stores, none if it failed. */
  lemma StoredEntries(db: Db, c: Client, config: Config, reason: Reason)
    requires c.call.Record?
    requires c.pc == match reason
                     case TemperatureHigh => RaiseTemperature(config)
                     case BatteryLow => RaiseBattery(config)
    ensures
      var db' := StepCall(db, c).0;
      && db' == db.(alerts := db'.alerts)
      && Entries(db'.alerts.rows) == Entries(db.alerts.rows) + Stores(c, config, reason)
  {
    AppendEntries(db.alerts, c.call.deviceId, AlertOf(c.call, config, reason));
  }

  /** What a call owes is what its next write stores and what it owes after that. */
  lemma OwedStep(db: Db, c: Client, config: Config, reason: Reason)
    requires c.call.Record?
    requires c.pc == match reason
                     case TemperatureHigh => RaiseTemperature(config)
                     case BatteryLow => RaiseBattery(config)
    ensures OwedAlerts(c) == Stores(c, config, reason) + OwedAlerts(StepCall(db, c).1)
  {
  }

  lemma ShiftBag<A>(e: multiset<A>, e': multiset<A>, stored: multiset<A>, owed: multiset<A>, owed': multiset<A>)
    requires e' == e + stored && owed == stored + owed'
    ensures e' + owed' == e + owed
  {
  }

  /** A step of a committed call moves an alert from what the call owes to what the table holds. */
  lemma StepCommitted(db: Db, c: Client)
    requires WellFormed(c) && Committed(c)
    ensures
      var (db', c') := StepCall(db, c);
      && Committed(c')
      && db'.configs == db.configs
      && db'.metrics == db.metrics
      && Entries(db'.alerts.rows) + OwedAlerts(c') == Entries(db.alerts.rows) + OwedAlerts(c)
      && EndOf(c') == EndOf(c)
  {
    if !c.pc.Done? {
      var reason := if c.pc.RaiseTemperature? then TemperatureHigh else BatteryLow;
      var (db', c') := StepCall(db, c);
      StoredEntries(db, c, c.pc.config, reason);
      OwedStep(db, c, c.pc.config, reason);
      ShiftBag(Entries(db.alerts.rows), Entries(db'.alerts.rows), Stores(c, c.pc.config, reason),
               OwedAlerts(c), OwedAlerts(c'));
    }
  }

  lemma StepsDecrease(db: Db, c: Client)
    requires WellFormed(c) && !c.pc.Done?
    ensures StepsLeft(StepCall(db, c).1.pc) < StepsLeft(c.pc)
  {
  }

  /** The rest of a committed call adds exactly the alerts it owes. */
  lemma {:induction false} FinishCommitted(db: Db, c: Client)
    requires WellFormed(c) && Committed(c)
    ensures
      var (db', c') := Finish(db, c);
      && db'.configs == db.configs
      && db'.metrics == db.metrics
      && Entries(db'.alerts.rows) == Entries(db.alerts.rows) + OwedAlerts(c)
      && c'.pc == EndOf(c)
    decreases StepsLeft(c.pc)
  {
    if c.pc.Done? {
      FinishedOwesNothing(c);
    } else {
      StepCommitted(db, c);
      var (db', c') := StepCall(db, c);
      StepsDecrease(db, c);
      FinishCommitted(db', c');
    }
  }

  lemma FinishedOwesNothing(c: Client)
    requires c.pc.Done?
    ensures OwedAlerts(c) == multiset{} && EarlyMetric(c) == multiset{}
  {
  }

  // ---------- the simulation ----------

  /** `s` is the database of the serial run of the calls that have committed so far. */
  ghost predicate Agrees(db: Db, clients: seq<Client>, s: Db) {
    && db.configs == s.configs
    && Entries(db.metrics.rows) == Entries(s.metrics.rows) + Bag(clients, EarlyMetric)
    && Entries(db.alerts.rows) + Bag(clients, OwedAlerts) == Entries(s.alerts.rows)
  }

  /** The client's own table changed, the serial run did not. */
  lemma BagSilent<A>(x: multiset<A>, x': multiset<A>, y: multiset<A>,
                     b: multiset<A>, b': multiset<A>, d: multiset<A>, d': multiset<A>)
    requires x == y + b && b' + d == b + d' && x' + d == x + d'
    ensures x' == y + b'
  {
    forall e ensures x'[e] == (y + b')[e] {
      assert (x' + d)[e] == (x + d')[e];
      assert (b' + d)[e] == (b + d')[e];
    }
  }

  /** The serial run took over what the client contributed. */
  lemma BagCommitted<A>(x: multiset<A>, y: multiset<A>, y': multiset<A>,
                        b: multiset<A>, b': multiset<A>, d: multiset<A>)
    requires x == y + b && b' + d == b && y' == y + d
    ensures x == y' + b'
  {
  }

  lemma AgreesSilent(db: Db, clients: seq<Client>, s: Db, i: nat, db': Db, c': Client)
    requires i < |clients| && Agrees(db, clients, s)
    requires db'.configs == db.configs
    requires Entries(db'.metrics.rows) + EarlyMetric(clients[i]) == Entries(db.metrics.rows) + EarlyMetric(c')
    requires Entries(db'.alerts.rows) + OwedAlerts(c') == Entries(db.alerts.rows) + OwedAlerts(clients[i])
    ensures Agrees(db', clients[i := c'], s)
  {
    BagUpdate(clients, i, c', EarlyMetric);
    BagSilent(Entries(db.metrics.rows), Entries(db'.metrics.rows), Entries(s.metrics.rows),
              Bag(clients, EarlyMetric), Bag(clients[i := c'], EarlyMetric), EarlyMetric(clients[i]), EarlyMetric(c'));
    BagUpdate(clients, i, c', OwedAlerts);
    BagOwed(Entries(db.alerts.rows), Entries(db'.alerts.rows),
            Bag(clients, OwedAlerts), Bag(clients[i := c'], OwedAlerts), OwedAlerts(clients[i]), OwedAlerts(c'));
  }

  /** What was owed and what is stored add up to the same. */
  lemma BagOwed<A>(x: multiset<A>, x': multiset<A>, b: multiset<A>, b': multiset<A>, d: multiset<A>, d': multiset<A>)
    requires b' + d == b + d' && x' + d' == x + d
    ensures x' + b' == x + b
  {
    forall e ensures (x' + b')[e] == (x + b)[e] {
      assert (x' + d')[e] == (x + d)[e];
      assert (b' + d)[e] == (b + d')[e];
    }
  }

  lemma AgreesCommitted(db: Db, clients: seq<Client>, s: Db, i: nat, db': Db, c': Client, s': Db)
    requires i < |clients| && Agrees(db, clients, s)
    requires db' == db.(configs := s'.configs)
    requires EarlyMetric(c') == multiset{} && OwedAlerts(clients[i]) == multiset{}
    requires Entries(s'.metrics.rows) == Entries(s.metrics.rows) + EarlyMetric(clients[i])
    requires Entries(s'.alerts.rows) == Entries(s.alerts.rows) + OwedAlerts(c')
    ensures Agrees(db', clients[i := c'], s')
  {
    BagUpdate(clients, i, c', EarlyMetric);
    BagCommitted(Entries(db.metrics.rows), Entries(s.metrics.rows), Entries(s'.metrics.rows),
                 Bag(clients, EarlyMetric), Bag(clients[i := c'], EarlyMetric), EarlyMetric(clients[i]));
    BagUpdate(clients, i, c', OwedAlerts);
    BagOwedCommitted(Entries(db.alerts.rows), Entries(s.alerts.rows), Entries(s'.alerts.rows),
                     Bag(clients, OwedAlerts), Bag(clients[i := c'], OwedAlerts), OwedAlerts(c'));
  }

  lemma BagOwedCommitted<A>(x: multiset<A>, y: multiset<A>, y': multiset<A>,
                            b: multiset<A>, b': multiset<A>, d': multiset<A>)
    requires x + b == y && b' == b + d' && y' == y + d'
    ensures x + b' == y'
  {
  }

  /** A step that does not commit leaves the serial run where it is. */
  lemma SilentTurn(sys: System, i: nat, s: Db)
    requires i < |sys.clients| && WellFormed(sys.clients[i]) && !Commits(sys.clients[i])
    requires Agrees(sys.db, sys.clients, s)
    ensures Agrees(Turn(sys, i).db, Turn(sys, i).clients, s)
    ensures Committed(Turn(sys, i).clients[i]) <==> Committed(sys.clients[i])
    ensures Committed(sys.clients[i]) ==> EndOf(Turn(sys, i).clients[i]) == EndOf(sys.clients[i])
  {
    var c := sys.clients[i];
    var (db, c') := StepCall(sys.db, c);
    if Committed(c) {
      StepCommitted(sys.db, c);
    } else {
      AppendEntries(sys.db.metrics, c.call.deviceId, MetricOf(c.call));
    }
    AgreesSilent(sys.db, sys.clients, s, i, db, c');
  }

  /** A config read looks at the configurations only. */
  lemma SavedStep(db: Db, s: Db, c: Client)
    requires WellFormed(c) && c.pc.Saved? && db.configs == s.configs
    ensures StepCall(db, c) == (db, StepCall(s, c).1)
    ensures EarlyMetric(StepCall(db, c).1) == multiset{} && OwedAlerts(c) == multiset{}
  {
  }

  /** The first step of a recording call. */
  lemma RecordSaves(s: Db, c: Client)
    requires WellFormed(c) && c.pc.Saved? && Valid(c.call) && !c.faults.write
    ensures StepCall(s, c.(pc := Ready)) == (s.(metrics := Append(s.metrics, c.call.deviceId, MetricOf(c.call))), c)
  {
  }

  lemma FinishStep(s: Db, c: Client)
    requires WellFormed(c) && !c.pc.Done?
    ensures Finish(s, c) == Finish(StepCall(s, c).0, StepCall(s, c).1)
  {
  }

  /** The whole of a call, run where it commits: its metric, then what it does once it knows its thresholds. */
  lemma FinishRecord(s: Db, c: Client)
    requires WellFormed(c) && c.pc.Saved? && Valid(c.call) && !c.faults.write
    ensures
      var c' := StepCall(s, c).1;
      var (s', end) := Finish(s, c.(pc := Ready));
      && Committed(c')
      && s'.configs == s.configs
      && Entries(s'.metrics.rows) == Entries(s.metrics.rows) + EarlyMetric(c)
      && Entries(s'.alerts.rows) == Entries(s.alerts.rows) + OwedAlerts(c')
      && end.pc == EndOf(c')
  {
    var s1 := StepCall(s, c.(pc := Ready)).0;
    RecordSaves(s, c);
    FinishStep(s, c.(pc := Ready));
    AppendEntries(s.metrics, c.call.deviceId, MetricOf(c.call));
    SavedStep(s1, s, c);
    FinishStep(s1, c);
    FinishCommitted(s1, StepCall(s, c).1);
  }

  /** A call that commits with its first step has no others. */
  lemma FinishAtOnce(db: Db, s: Db, c: Client)
    requires WellFormed(c) && c.pc.Ready? && Commits(c) && db.configs == s.configs
    ensures Finish(s, c) == StepCall(s, c)
    ensures StepCall(db, c) == (db.(configs := StepCall(s, c).0.configs), StepCall(s, c).1)
    ensures StepCall(s, c).0 == s.(configs := StepCall(s, c).0.configs)
    ensures StepCall(s, c).1.pc.Done?
    ensures EarlyMetric(c) == multiset{} && OwedAlerts(c) == multiset{}
  {
  }

  /** A committing step runs the whole call in the serial run. */
  lemma CommittingTurn(sys: System, i: nat, s: Db)
    requires i < |sys.clients| && WellFormed(sys.clients[i]) && Commits(sys.clients[i])
    requires sys.clients[i].pc.Saved? ==> Valid(sys.clients[i].call) && !sys.clients[i].faults.write
    requires Agrees(sys.db, sys.clients, s)
    ensures
      var (s', end) := Finish(s, sys.clients[i].(pc := Ready));
      && Agrees(Turn(sys, i).db, Turn(sys, i).clients, s')
      && Committed(Turn(sys, i).clients[i])
      && EndOf(Turn(sys, i).clients[i]) == end.pc
  {
    var c := sys.clients[i];
    var (s', end) := Finish(s, c.(pc := Ready));
    var c' := StepCall(sys.db, c).1;
    if c.pc.Saved? {
      SavedStep(sys.db, s, c);
      FinishRecord(s, c);
    } else {
      assert c.(pc := Ready) == c;
      FinishAtOnce(sys.db, s, c);
      FinishedOwesNothing(c');
    }
    AgreesCommitted(sys.db, sys.clients, s, i, StepCall(sys.db, c).0, c', s');
  }

  /** The database agrees, the order lists exactly the committed clients, and each ends as it does serially. */
  ghost predicate Simulates(sys: System, sys': System, order: seq<nat>)
    requires AllWellFormed(sys) && AllWellFormed(sys') && IsSchedule(sys, order)
  {
    && |sys'.clients| == |sys.clients|
    && Agrees(sys'.db, sys'.clients, Serial(sys, order))
    && (forall i :: 0 <= i < |sys.clients| ==> SameCall(sys.clients[i], sys'.clients[i]))
    && (forall i :: 0 <= i < |sys.clients| ==> (i in order <==> Committed(sys'.clients[i])))
    && (forall i :: 0 <= i < |sys.clients| && i in order ==> SerialEnd(sys, order, i) == EndOf(sys'.clients[i]))
    && (forall j, k :: 0 <= j < k < |order| ==> order[j] != order[k])
  }

  predicate SameCall(c: Client, c': Client) {
    && c == c'.(pc := Ready)
    && (c'.pc.Saved? ==> Valid(c.call) && !c.faults.write)
  }

  lemma SameCallStep(c: Client, db: Db, c': Client)
    requires WellFormed(c') && SameCall(c, c')
    ensures SameCall(c, StepCall(db, c').1)
  {
  }

  lemma SimulatesSilent(sys: System, sys': System, order: seq<nat>, i: nat)
    requires AllWellFormed(sys) && AllWellFormed(sys') && IsSchedule(sys, order)
    requires Simulates(sys, sys', order)
    requires i < |sys.clients| && !Commits(sys'.clients[i])
    ensures Simulates(sys, Turn(sys', i), order)
  {
    SilentTurn(sys', i, Serial(sys, order));
    SameCallStep(sys.clients[i], sys'.db, sys'.clients[i]);
    hide Finish, StepCall, EndOf, Agrees, SerialEnd, Serial, Valid, Committed, Commits, SameCall;
    forall j | 0 <= j < |sys.clients| && j != i ensures Turn(sys', i).clients[j] == sys'.clients[j] {
    }
  }

  lemma SerialGrows(sys: System, order: seq<nat>, i: nat)
    requires AllWellFormed(sys) && IsSchedule(sys, order) && i < |sys.clients|
    ensures IsSchedule(sys, order + [i])
    ensures (Serial(sys, order + [i]), SerialEnd(sys, order + [i], i))
            == (Finish(Serial(sys, order), sys.clients[i]).0, Finish(Serial(sys, order), sys.clients[i]).1.pc)
    ensures forall j :: j in order && j != i ==> SerialEnd(sys, order + [i], j) == SerialEnd(sys, order, j)
  {
  }

  /** The other clients stand where they stood, in the run and in the order. */
  lemma OthersStay(sys: System, sys': System, order: seq<nat>, i: nat, j: nat)
    requires AllWellFormed(sys) && AllWellFormed(sys') && IsSchedule(sys, order)
    requires Simulates(sys, sys', order) && i < |sys.clients| && j < |sys.clients| && j != i
    ensures IsSchedule(sys, order + [i])
    ensures Turn(sys', i).clients[j] == sys'.clients[j] && SameCall(sys.clients[j], sys'.clients[j])
    ensures j in order + [i] <==> Committed(sys'.clients[j])
    ensures j in order + [i] ==> SerialEnd(sys, order + [i], j) == EndOf(sys'.clients[j])
  {
    assert j in order + [i] <==> j in order;
    SerialGrows(sys, order, i);
  }

  /** The committing client itself: new in the order, and ending as it does serially. */
  lemma OwnCommit(sys: System, sys': System, order: seq<nat>, i: nat)
    requires AllWellFormed(sys) && AllWellFormed(sys') && IsSchedule(sys, order)
    requires Simulates(sys, sys', order)
    requires i < |sys.clients| && Commits(sys'.clients[i])
    ensures i !in order && IsSchedule(sys, order + [i])
    ensures
      var t := Turn(sys', i);
      && AllWellFormed(t)
      && Agrees(t.db, t.clients, Serial(sys, order + [i]))
      && SameCall(sys.clients[i], t.clients[i])
      && Committed(t.clients[i])
      && SerialEnd(sys, order + [i], i) == EndOf(t.clients[i])
  {
    assert i !in order && !Committed(sys'.clients[i]);
    SerialGrows(sys, order, i);
    CommittingTurn(sys', i, Serial(sys, order));
    SameCallStep(sys.clients[i], sys'.db, sys'.clients[i]);
  }

  lemma SimulatesCommit(sys: System, sys': System, order: seq<nat>, i: nat)
    requires AllWellFormed(sys) && AllWellFormed(sys') && IsSchedule(sys, order)
    requires Simulates(sys, sys', order)
    requires i < |sys.clients| && Commits(sys'.clients[i])
    ensures IsSchedule(sys, order + [i]) && Simulates(sys, Turn(sys', i), order + [i])
  {
    hide Finish, StepCall, EndOf, Agrees, SerialEnd, Serial, Valid, Committed, Commits, SameCall, Turn;
    OwnCommit(sys, sys', order, i);
    var order', t := order + [i], Turn(sys', i);
    forall j | 0 <= j < |sys.clients|
      ensures SameCall(sys.clients[j], t.clients[j])
      ensures j in order' <==> Committed(t.clients[j])
      ensures j in order' ==> SerialEnd(sys, order', j) == EndOf(t.clients[j])
    {
      if j != i {
        OthersStay(sys, sys', order, i, j);
      }
    }
  }

  lemma NothingYet(sys: System)
    requires Fresh(sys)
    ensures AllWellFormed(sys) && Simulates(sys, sys, [])
  {
    BagEmpty(sys.clients, EarlyMetric);
    BagEmpty(sys.clients, OwedAlerts);
  }

  lemma {:induction false} RunSimulates(sys: System, schedule: seq<nat>)
    requires Fresh(sys) && IsSchedule(sys, schedule)
    ensures AllWellFormed(sys)
    ensures Simulates(sys, Execute(sys, schedule), Order(sys, schedule))
  {
    NothingYet(sys);
    hide Simulates, Turn, Commits, Fresh, AllWellFormed;
    if schedule != [] {
      var init, i := schedule[..|schedule| - 1], schedule[|schedule| - 1];
      RunSimulates(sys, init);
      if Commits(Execute(sys, init).clients[i]) {
        SimulatesCommit(sys, Execute(sys, init), Order(sys, init), i);
      } else {
        assert Order(sys, init) + [] == Order(sys, init);
        SimulatesSilent(sys, Execute(sys, init), Order(sys, init), i);
      }
    }
  }

  // ---------- the theorem ----------

  /** Each client exactly once. */
  ghost predicate IsPermutation(order: seq<nat>, n: nat) {
    && (forall i :: 0 <= i < n ==> i in order)
    && (forall k :: 0 <= k < |order| ==> order[k] < n)
    && (forall j, k :: 0 <= j < k < |order| ==> order[j] != order[k])
  }

  /** Once every call has ended, nothing is early and nothing is owed. */
  lemma DoneAgrees(db: Db, clients: seq<Client>, s: Db)
    requires Agrees(db, clients, s) && forall i :: 0 <= i < |clients| ==> clients[i].pc.Done?
    ensures db.configs == s.configs
    ensures Entries(db.metrics.rows) == Entries(s.metrics.rows)
    ensures Entries(db.alerts.rows) == Entries(s.alerts.rows)
  {
    forall i | 0 <= i < |clients|
      ensures EarlyMetric(clients[i]) == multiset{} && OwedAlerts(clients[i]) == multiset{}
    {
      FinishedOwesNothing(clients[i]);
    }
    BagEmpty(clients, EarlyMetric);
    BagEmpty(clients, OwedAlerts);
  }

  lemma SimulatesEnd(sys: System, end: System, order: seq<nat>)
    requires AllWellFormed(sys) && AllWellFormed(end) && IsSchedule(sys, order)
    requires Simulates(sys, end, order) && Complete(end)
    ensures IsPermutation(order, |sys.clients|)
    ensures end.db.configs == Serial(sys, order).configs
    ensures Entries(end.db.metrics.rows) == Entries(Serial(sys, order).metrics.rows)
    ensures Entries(end.db.alerts.rows) == Entries(Serial(sys, order).alerts.rows)
    ensures forall i :: 0 <= i < |sys.clients| ==> i in order && end.clients[i].pc == SerialEnd(sys, order, i)
  {
    hide Serial, SerialEnd, Agrees, SameCall;
    DoneAgrees(end.db, end.clients, Serial(sys, order));
  }

  /**
   Reduction. However the repository calls of any number of clients interleave, and whichever of
   them fail: once every call has ended, the configurations are those of the serial run in commit
   order, the tables hold the same metrics and alerts up to ids and order, and every call gave the
   reply it gives serially.
   */
  lemma Reduction(sys: System, schedule: seq<nat>)
    requires Fresh(sys) && IsSchedule(sys, schedule)
    requires AllWellFormed(sys) && Complete(Execute(sys, schedule))
    ensures
      var end := Execute(sys, schedule);
      var order := Order(sys, schedule);
      var serial := Serial(sys, order);
      && IsPermutation(order, |sys.clients|)
      && end.db.configs == serial.configs
      && Entries(end.db.metrics.rows) == Entries(serial.metrics.rows)
      && Entries(end.db.alerts.rows) == Entries(serial.alerts.rows)
      && forall i :: 0 <= i < |sys.clients| ==> end.clients[i].pc == SerialEnd(sys, order, i)
  {
    hide Execute, Order, Serial, SerialEnd, Simulates, AllWellFormed, Complete;
    RunSimulates(sys, schedule);
    SimulatesEnd(sys, Execute(sys, schedule), Order(sys, schedule));
  }

  /**
   The serial order respects real time: a call that had ended before another began comes before it.
   */
  lemma RealTimeOrder(sys: System, schedule: seq<nat>, cut: nat, i: nat, j: nat)
    requires Fresh(sys) && IsSchedule(sys, schedule) && AllWellFormed(sys)
    requires cut <= |schedule| && i < |sys.clients| && j < |sys.clients|
    requires Execute(sys, schedule[..cut]).clients[i].pc.Done?
    requires Execute(sys, schedule[..cut]).clients[j].pc.Ready?
    requires j in Order(sys, schedule)
    ensures exists a, b :: 0 <= a < b < |Order(sys, schedule)|
                           && Order(sys, schedule)[a] == i && Order(sys, schedule)[b] == j
  {
    hide Turn, Serial, SerialEnd, EndOf, Agrees, Finish, StepCall, SameCall, Order;
    RunSimulates(sys, schedule[..cut]);
    OrderGrows(sys, schedule, cut);
    var early, order := Order(sys, schedule[..cut]), Order(sys, schedule);
    assert i in early && j !in early;
    var a :| 0 <= a < |early| && early[a] == i;
    var late := order[|early|..];
    assert order == early + late && j in late;
    var b :| 0 <= b < |late| && late[b] == j;
    assert order[a] == i && order[|early| + b] == j;
  }

  lemma {:induction false} OrderGrows(sys: System, schedule: seq<nat>, cut: nat)
    requires IsSchedule(sys, schedule) && AllWellFormed(sys) && cut <= |schedule|
    ensures Order(sys, schedule[..cut]) <= Order(sys, schedule)
  {
    if cut == |schedule| {
      assert schedule[..cut] == schedule;
    } else {
      OrderGrows(sys, schedule[..|schedule| - 1], cut);
      assert schedule[..|schedule| - 1][..cut] == schedule[..cut];
    }
  }

  // ---------- the configuration in force ----------

  /** A configuring call that takes effect. */
  predicate Configures(c: Client) {
    c.call.Configure? && Valid(c.call) && !c.faults.write
  }

  /** What the calls of the serial order write to the configurations, in this order. */
  function Upserts(clients: seq<Client>, order: seq<nat>): seq<Upsert>
    requires forall k :: 0 <= k < |order| ==> order[k] < |clients|
  {
    if order == [] then []
    else
      var c := clients[order[|order| - 1]];
      Upserts(clients, order[..|order| - 1])
      + if Configures(c) then [Upsert(c.call.deviceId, c.call.config)] else []
  }

  lemma FinishConfigs(db: Db, c: Client)
    requires c.pc.Ready?
    ensures Finish(db, c).0.configs ==
            if Configures(c) then db.configs[c.call.deviceId := c.call.config] else db.configs
  {
    if !Commits(c) {
      var saved := StepCall(db, c).1;
      assert saved.(pc := Ready) == c;
      FinishRecord(db, saved);
    }
  }

  lemma {:induction false} SerialConfigs(sys: System, order: seq<nat>)
    requires Fresh(sys) && IsSchedule(sys, order) && AllWellFormed(sys)
    ensures Serial(sys, order).configs == Upserted(sys.db.configs, Upserts(sys.clients, order))
  {
    if order != [] {
      var init, c := order[..|order| - 1], sys.clients[order[|order| - 1]];
      SerialConfigs(sys, init);
      FinishConfigs(Serial(sys, init), c);
      var writes := Upserts(sys.clients, init);
      assert writes + [] == writes;
      if Configures(c) {
        var more := writes + [Upsert(c.call.deviceId, c.call.config)];
        assert more[..|more| - 1] == writes;
      }
    }
  }

  /** A call ends as it does when run at its place in the serial order. */
  lemma {:induction false} SerialEndAt(sys: System, order: seq<nat>, k: nat)
    requires IsSchedule(sys, order) && AllWellFormed(sys) && k < |order|
    requires forall j :: 0 <= j < |order| && order[j] == order[k] ==> j == k
    ensures SerialEnd(sys, order, order[k]) == Finish(Serial(sys, order[..k]), sys.clients[order[k]]).1.pc
  {
    var init := order[..|order| - 1];
    if k < |init| {
      SerialEndAt(sys, init, k);
      assert init[..k] == order[..k];
    }
  }
}
