/**
 Why each alert is in the database, over every run of interleaved calls: a log of the rows the
 calls wrote explains both tables row by row.
 */
module Justification {
  import opened Wrappers
  import opened Time
  import opened Query
  import opened Repository
  import opened Calls
  import opened Interleaving
  import opened Sums

  datatype Write = WroteMetric(client: nat) | WroteAlert(client: nat, reason: Reason)

  /** The row, if any, that the next turn of client `i` writes. */
  function WriteOf(c: Client, i: nat): seq<Write> {
    match c.pc
    case Ready => if Valid(c.call) && !c.faults.write && c.call.Record? then [WroteMetric(i)] else []
    case RaiseTemperature(_) => if c.faults.temperatureAlert then [] else [WroteAlert(i, TemperatureHigh)]
    case RaiseBattery(_) => if c.faults.batteryAlert then [] else [WroteAlert(i, BatteryLow)]
    case _ => []
  }

  ghost function Log(sys: System, schedule: seq<nat>): seq<Write>
    requires IsSchedule(sys, schedule) && AllWellFormed(sys)
  {
    if schedule == [] then []
    else
      var init, i := schedule[..|schedule| - 1], schedule[|schedule| - 1];
      Log(sys, init) + WriteOf(Execute(sys, init).clients[i], i)
  }

  // ---------- what a call has done so far ----------

  /** The thresholds a call compares with, once it has them. */
  function Used(c: Client): Option<Config> {
    match c.pc
    case RaiseTemperature(config) => Some(config)
    case RaiseBattery(config) => Some(config)
    case Done(_, used) => used
    case _ => None
  }

  predicate HasSaved(c: Client) {
    c.call.Record? && !c.pc.Ready? && !(c.pc.Done? && c.pc.reply in {Invalid, WriteFailed})
  }

  predicate HasStored(c: Client, reason: Reason) {
    && c.call.Record?
    && Used(c).Some?
    && Breaches(c.call, Used(c).value, reason)
    && match reason
       case TemperatureHigh => !c.faults.temperatureAlert && !c.pc.RaiseTemperature?
       case BatteryLow => c.pc.Done? && c.pc.reply == Success
  }

  predicate HasWritten(clients: seq<Client>, w: Write) {
    && w.client < |clients|
    && match w
       case WroteMetric(i) => HasSaved(clients[i])
       case WroteAlert(i, reason) => HasStored(clients[i], reason)
  }

  // ---------- the tables, replayed from the log ----------

  /** Every entry names a recording client, and every alert one that knows its thresholds. */
  ghost predicate Replayable(clients: seq<Client>, log: seq<Write>) {
    forall k :: 0 <= k < |log| ==> HasWritten(clients, log[k])
  }

  ghost function ReplayMetrics(t: Table<Reading>, clients: seq<Client>, log: seq<Write>): Table<Reading>
    requires Replayable(clients, log)
  {
    if log == [] then t
    else
      var before, w := ReplayMetrics(t, clients, log[..|log| - 1]), log[|log| - 1];
      if w.WroteMetric? then
        var call := clients[w.client].call;
        Append(before, call.deviceId, MetricOf(call))
      else before
  }

  ghost function ReplayAlerts(t: Table<Notice>, clients: seq<Client>, log: seq<Write>): Table<Notice>
    requires Replayable(clients, log)
  {
    if log == [] then t
    else
      var before, w := ReplayAlerts(t, clients, log[..|log| - 1]), log[|log| - 1];
      if w.WroteAlert? then
        var c := clients[w.client];
        Append(before, c.call.deviceId, AlertOf(c.call, Used(c).value, w.reason))
      else before
  }

  // ---------- the invariant ----------

  /** The log lists what the clients have written, each row once and in the order of the call. */
  ghost predicate Logged(clients: seq<Client>, log: seq<Write>) {
    && (forall w: Write :: w in log <==> HasWritten(clients, w))
    && (forall j, k :: 0 <= j < k < |log| ==> log[j] != log[k])
    && InOrder(log)
  }

  ghost predicate Explains(start: System, sys: System, log: seq<Write>) {
    && |sys.clients| == |start.clients|
    && (forall i :: 0 <= i < |sys.clients| ==> sys.clients[i].(pc := Ready) == start.clients[i])
    && Logged(sys.clients, log)
    && Replayable(sys.clients, log)
    && sys.db.metrics == ReplayMetrics(start.db.metrics, sys.clients, log)
    && sys.db.alerts == ReplayAlerts(start.db.alerts, sys.clients, log)
  }

  /** A call writes its metric first and its temperature alert before its battery alert. */
  ghost predicate InOrder(log: seq<Write>) {
    forall j, k :: 0 <= j < |log| && 0 <= k < |log| && log[j].client == log[k].client && Rank(log[j]) < Rank(log[k])
                   ==> j < k
  }

  function Rank(w: Write): nat {
    match w
    case WroteMetric(_) => 0
    case WroteAlert(_, TemperatureHigh) => 1
    case WroteAlert(_, BatteryLow) => 2
  }

  /** A client about to write an alert has a breach to report, and one past its temperature alert wrote it. */
  predicate Consistent(c: Client) {
    && WellFormed(c)
    && (c.pc.RaiseBattery? || (c.pc.Done? && c.pc.reply == Success && c.pc.used.Some?) ==>
          c.call.Record? && (Breaches(c.call, Used(c).value, TemperatureHigh) ==> !c.faults.temperatureAlert))
    && (c.pc.Done? && c.pc.reply in {Invalid, WriteFailed} ==> c.pc.used.None?)
    && (c.pc.RaiseTemperature? ==> Breaches(c.call, c.pc.config, TemperatureHigh))
    && (c.pc.RaiseBattery? ==> Breaches(c.call, c.pc.config, BatteryLow))
  }

  /** One turn changes what its client has written by exactly the row it writes. */
  lemma StepWrites(db: Db, c: Client, i: nat, reason: Reason)
    requires Consistent(c)
    ensures
      var c' := StepCall(db, c).1;
      && Consistent(c')
      && (HasStored(c', reason) <==> HasStored(c, reason) || WroteAlert(i, reason) in WriteOf(c, i))
      && (HasSaved(c') <==> HasSaved(c) || WroteMetric(i) in WriteOf(c, i))
      && (WroteAlert(i, reason) in WriteOf(c, i) ==> !HasStored(c, reason) && HasSaved(c) && Used(c').Some?)
      && (WroteMetric(i) in WriteOf(c, i) ==> !HasSaved(c) && !HasStored(c, reason))
      && (WroteAlert(i, TemperatureHigh) in WriteOf(c, i) ==> !HasStored(c, BatteryLow))
      && (Used(c).Some? ==> Used(c') == Used(c))
  {
  }

  lemma TurnWrites(sys: System, i: nat)
    requires i < |sys.clients| && Consistent(sys.clients[i])
    ensures
      var sys' := Turn(sys, i);
      && (forall w: Write :: HasWritten(sys'.clients, w) <==>
            HasWritten(sys.clients, w) || w in WriteOf(sys.clients[i], i))
      && (forall w :: w in WriteOf(sys.clients[i], i) ==> !HasWritten(sys.clients, w))
  {
    var c, c' := sys.clients[i], StepCall(sys.db, sys.clients[i]).1;
    var sys' := Turn(sys, i);
    forall w: Write
      ensures HasWritten(sys'.clients, w) <==> HasWritten(sys.clients, w) || w in WriteOf(c, i)
      ensures w in WriteOf(c, i) ==> !HasWritten(sys.clients, w)
    {
      StepWrites(sys.db, c, i, if w.WroteAlert? then w.reason else BatteryLow);
      assert w in WriteOf(c, i) ==> w.client == i;
    }
  }

  /** Replaying depends on the clients' calls and on thresholds already known, which no turn changes. */
  lemma {:induction false} ReplayStable(sys: System, i: nat, log: seq<Write>, m: Table<Reading>, a: Table<Notice>)
    requires i < |sys.clients| && Consistent(sys.clients[i]) && Replayable(sys.clients, log)
    ensures Replayable(Turn(sys, i).clients, log)
    ensures ReplayMetrics(m, Turn(sys, i).clients, log) == ReplayMetrics(m, sys.clients, log)
    ensures ReplayAlerts(a, Turn(sys, i).clients, log) == ReplayAlerts(a, sys.clients, log)
  {
    TurnWrites(sys, i);
    if log != [] {
      var init, w := log[..|log| - 1], log[|log| - 1];
      assert Replayable(sys.clients, init);
      ReplayStable(sys, i, init, m, a);
      assert HasWritten(sys.clients, w);
      StepWrites(sys.db, sys.clients[i], i, BatteryLow);
    }
  }

  lemma {:induction false} RunExplains(sys: System, schedule: seq<nat>)
    requires Fresh(sys) && IsSchedule(sys, schedule)
    ensures AllWellFormed(sys)
    ensures forall i :: 0 <= i < |sys.clients| ==> Consistent(Execute(sys, schedule).clients[i])
    ensures Explains(sys, Execute(sys, schedule), Log(sys, schedule))
  {
    if schedule != [] {
      var init, i := schedule[..|schedule| - 1], schedule[|schedule| - 1];
      RunExplains(sys, init);
      ExplainsTurn(sys, Execute(sys, init), Log(sys, init), i);
    }
  }

  /** What client `i` writes next comes after everything it has written. */
  lemma LoggedTurn(sys: System, log: seq<Write>, i: nat)
    requires i < |sys.clients| && Consistent(sys.clients[i]) && Logged(sys.clients, log)
    ensures Logged(Turn(sys, i).clients, log + WriteOf(sys.clients[i], i))
  {
    var c := sys.clients[i];
    var more := WriteOf(c, i);
    var log' := log + more;
    TurnWrites(sys, i);
    forall j, k | 0 <= j < |log'| && 0 <= k < |log'| && log'[j].client == log'[k].client
                  && Rank(log'[j]) < Rank(log'[k])
      ensures j < k
    {
      if j >= |log| && k < |log| {
        assert log'[j] == more[0] && log[k] in log && HasWritten(sys.clients, log[k]);
        StepWrites(sys.db, c, i, BatteryLow);
        StepWrites(sys.db, c, i, TemperatureHigh);
        assert false;
      }
    }
    forall j, k | 0 <= j < k < |log'| ensures log'[j] != log'[k] {
      if k >= |log| > j {
        assert log'[k] in more && log[j] in log;
      }
    }
  }

  /** The database changes by exactly the row the step writes. */
  lemma StepDb(db: Db, c: Client, i: nat)
    requires Consistent(c)
    ensures
      var (db', c') := StepCall(db, c);
      var more := WriteOf(c, i);
      && |more| <= 1
      && (more == [] ==> db'.metrics == db.metrics && db'.alerts == db.alerts)
      && (more == [WroteMetric(i)] ==>
            c.call.Record? && db'.alerts == db.alerts
            && db'.metrics == Append(db.metrics, c.call.deviceId, MetricOf(c.call)))
      && (forall reason :: more == [WroteAlert(i, reason)] ==>
            c.call.Record? && Used(c).Some? && db'.metrics == db.metrics
            && db'.alerts == Append(db.alerts, c.call.deviceId, AlertOf(c.call, Used(c).value, reason)))
      && (more != [] ==> more == [WroteMetric(i)] || more == [WroteAlert(i, TemperatureHigh)]
                         || more == [WroteAlert(i, BatteryLow)])
  {
  }

  lemma ReplayAppend(m: Table<Reading>, a: Table<Notice>, clients: seq<Client>, log: seq<Write>, w: Write)
    requires Replayable(clients, log) && HasWritten(clients, w)
    ensures Replayable(clients, log + [w])
    ensures ReplayMetrics(m, clients, log + [w]) ==
            var before := ReplayMetrics(m, clients, log);
            if w.WroteMetric? then Append(before, clients[w.client].call.deviceId, MetricOf(clients[w.client].call))
            else before
    ensures ReplayAlerts(a, clients, log + [w]) ==
            var before, c := ReplayAlerts(a, clients, log), clients[w.client];
            if w.WroteAlert? then Append(before, c.call.deviceId, AlertOf(c.call, Used(c).value, w.reason))
            else before
  {
  }

  lemma ReplayTurn(start: System, sys: System, log: seq<Write>, i: nat)
    requires i < |sys.clients| && Consistent(sys.clients[i]) && Replayable(sys.clients, log)
    requires sys.db.metrics == ReplayMetrics(start.db.metrics, sys.clients, log)
    requires sys.db.alerts == ReplayAlerts(start.db.alerts, sys.clients, log)
    ensures
      var log', sys' := log + WriteOf(sys.clients[i], i), Turn(sys, i);
      && Replayable(sys'.clients, log')
      && sys'.db.metrics == ReplayMetrics(start.db.metrics, sys'.clients, log')
      && sys'.db.alerts == ReplayAlerts(start.db.alerts, sys'.clients, log')
  {
    var c, more := sys.clients[i], WriteOf(sys.clients[i], i);
    ReplayStable(sys, i, log, start.db.metrics, start.db.alerts);
    StepDb(sys.db, c, i);
    if more == [] {
      assert log + more == log;
    } else {
      var w := more[0];
      assert more == [w] && w in more;
      assert HasWritten(Turn(sys, i).clients, w) by { TurnWrites(sys, i); }
      StepWrites(sys.db, c, i, BatteryLow);
      ReplayAppend(start.db.metrics, start.db.alerts, Turn(sys, i).clients, log, w);
    }
  }

  lemma ExplainsTurn(start: System, sys: System, log: seq<Write>, i: nat)
    requires forall j :: 0 <= j < |sys.clients| ==> Consistent(sys.clients[j])
    requires Explains(start, sys, log) && i < |sys.clients| && Consistent(sys.clients[i])
    ensures forall j :: 0 <= j < |sys.clients| ==> Consistent(Turn(sys, i).clients[j])
    ensures Explains(start, Turn(sys, i), log + WriteOf(sys.clients[i], i))
  {
    StepWrites(sys.db, sys.clients[i], i, BatteryLow);
    LoggedTurn(sys, log, i);
    ReplayTurn(start, sys, log, i);
  }

  // ---------- the rows behind the log ----------

  function AlertsIn(log: seq<Write>): nat {
    if log == [] then 0
    else AlertsIn(log[..|log| - 1]) + if log[|log| - 1].WroteAlert? then 1 else 0
  }

  /** The row a log entry stands for, when `before` alerts were written in the run before it. */
  function AlertRow(t: Table<Notice>, c: Client, reason: Reason, before: nat): Row<Notice>
    requires c.call.Record? && Used(c).Some?
  {
    var alert := AlertOf(c.call, Used(c).value, reason);
    Row(t.last + before + 1, c.call.deviceId, Unix(c.call.time), alert.body)
  }

  /** The alert of entry `k` is the row that follows the initial rows and the alerts logged before `k`. */
  lemma {:induction false} ReplayedRow(t: Table<Notice>, clients: seq<Client>, log: seq<Write>, k: nat)
    requires Replayable(clients, log)
    ensures |ReplayAlerts(t, clients, log).rows| == |t.rows| + AlertsIn(log)
    ensures ReplayAlerts(t, clients, log).last == t.last + AlertsIn(log)
    ensures t.rows <= ReplayAlerts(t, clients, log).rows
    ensures k < |log| && log[k].WroteAlert? ==>
              && AlertsIn(log[..k]) < AlertsIn(log)
              && ReplayAlerts(t, clients, log).rows[|t.rows| + AlertsIn(log[..k])]
                 == AlertRow(t, clients[log[k].client], log[k].reason, AlertsIn(log[..k]))
  {
    if log != [] {
      var init := log[..|log| - 1];
      assert Replayable(clients, init);
      ReplayedRow(t, clients, init, k);
      if k < |init| {
        assert init[..k] == log[..k];
      }
    }
  }

  /** Every alert row of the run is the row of some log entry. */
  lemma {:induction false} RowLogged(log: seq<Write>, n: nat) returns (k: nat)
    requires n < AlertsIn(log)
    ensures k < |log| && log[k].WroteAlert? && AlertsIn(log[..k]) == n
  {
    var init := log[..|log| - 1];
    if n < AlertsIn(init) {
      k := RowLogged(init, n);
      assert init[..k] == log[..k];
    } else {
      k := |log| - 1;
    }
  }

  lemma {:induction false} AlertsInMonotone(log: seq<Write>, j: nat, k: nat)
    requires j < k <= |log|
    ensures AlertsIn(log[..j]) + (if log[j].WroteAlert? then 1 else 0) <= AlertsIn(log[..k])
  {
    if j + 1 == k {
      assert log[..k][..j] == log[..j];
    } else {
      AlertsInMonotone(log, j, k - 1);
      assert log[..k][..k - 1] == log[..k - 1];
    }
  }

  // ---------- the theorems ----------

  /** Alert row `n` of the run belongs to this client and reason. */
  ghost predicate Stored(start: System, end: System, n: nat, w: Write) {
    && w.WroteAlert?
    && w.client < |end.clients|
    && end.clients[w.client].call.Record?
    && Used(end.clients[w.client]).Some?
    && n < |end.db.alerts.rows| - |start.db.alerts.rows|
    && end.db.alerts.rows[|start.db.alerts.rows| + n]
       == AlertRow(start.db.alerts, end.clients[w.client], w.reason, n)
  }

  /** The metric of a call is logged before any alert of it. */
  lemma MetricBefore(clients: seq<Client>, log: seq<Write>, k: nat) returns (m: nat)
    requires Logged(clients, log) && k < |log| && log[k].WroteAlert?
    requires forall i :: 0 <= i < |clients| ==> Consistent(clients[i])
    ensures m < k && log[m] == WroteMetric(log[k].client)
  {
    assert log[k] in log && HasWritten(clients, log[k]);
    var i := log[k].client;
    assert HasWritten(clients, WroteMetric(i));
    m :| 0 <= m < |log| && log[m] == WroteMetric(i);
    assert Rank(log[m]) < Rank(log[k]);
  }

  /**
   Every alert row of a run has exactly one (call, reason) pair behind it: the call had saved its
   metric before, for the same device and time, and its value strictly breached the thresholds it
   used. No two rows share a pair (row `n` is the `n`-th alert of a log without repetitions), and
   the rows that were there before the run are untouched.
   */
  lemma AlertsJustified(sys: System, schedule: seq<nat>, n: nat) returns (k: nat)
    requires Fresh(sys) && IsSchedule(sys, schedule) && AllWellFormed(sys)
    requires n < |Execute(sys, schedule).db.alerts.rows| - |sys.db.alerts.rows|
    ensures
      var end, log := Execute(sys, schedule), Log(sys, schedule);
      && k < |log|
      && n == AlertsIn(log[..k])
      && Stored(sys, end, n, log[k])
      && Breaches(end.clients[log[k].client].call, Used(end.clients[log[k].client]).value, log[k].reason)
      && (exists m :: 0 <= m < k && log[m] == WroteMetric(log[k].client))
      && (forall j :: 0 <= j < |log| && log[j] == log[k] ==> j == k)
      && sys.db.alerts.rows <= end.db.alerts.rows
  {
    RunExplains(sys, schedule);
    k := RowJustified(sys, Execute(sys, schedule), Log(sys, schedule), n);
  }

  lemma RowJustified(start: System, end: System, log: seq<Write>, n: nat) returns (k: nat)
    requires Explains(start, end, log) && n < |end.db.alerts.rows| - |start.db.alerts.rows|
    requires forall i :: 0 <= i < |end.clients| ==> Consistent(end.clients[i])
    ensures
      && k < |log|
      && n == AlertsIn(log[..k])
      && Stored(start, end, n, log[k])
      && Breaches(end.clients[log[k].client].call, Used(end.clients[log[k].client]).value, log[k].reason)
      && (exists m :: 0 <= m < k && log[m] == WroteMetric(log[k].client))
      && (forall j :: 0 <= j < |log| && log[j] == log[k] ==> j == k)
      && start.db.alerts.rows <= end.db.alerts.rows
  {
    ReplayedRow(start.db.alerts, end.clients, log, 0);
    k := RowLogged(log, n);
    EntryStored(start, end, log, k);
    EntryBreaches(end.clients, log, k);
    var m := MetricBefore(end.clients, log, k);
  }

  lemma EntryBreaches(clients: seq<Client>, log: seq<Write>, k: nat)
    requires Replayable(clients, log) && k < |log| && log[k].WroteAlert?
    ensures log[k].client < |clients| && HasStored(clients[log[k].client], log[k].reason)
  {
  }

  /** An alert some client has written is a row of the table. */
  lemma WrittenIsStored(start: System, end: System, log: seq<Write>, w: Write) returns (k: nat, n: nat)
    requires Explains(start, end, log) && w.WroteAlert? && HasWritten(end.clients, w)
    ensures k < |log| && log[k] == w && n == AlertsIn(log[..k])
    ensures Stored(start, end, n, w)
  {
    assert w in log;
    k :| 0 <= k < |log| && log[k] == w;
    n := AlertsIn(log[..k]);
    EntryStored(start, end, log, k);
  }

  lemma EntryStored(start: System, end: System, log: seq<Write>, k: nat)
    requires Replayable(end.clients, log) && end.db.alerts == ReplayAlerts(start.db.alerts, end.clients, log)
    requires k < |log| && log[k].WroteAlert?
    ensures Stored(start, end, AlertsIn(log[..k]), log[k])
  {
    ReplayedRow(start.db.alerts, end.clients, log, k);
    assert HasWritten(end.clients, log[k]);
  }

  /** A call that ended in success has written an alert for each of its breaches. */
  lemma SuccessHasWritten(clients: seq<Client>, i: nat, reason: Reason)
    requires i < |clients| && Consistent(clients[i]) && clients[i].call.Record?
    requires clients[i].pc.Done? && clients[i].pc.reply == Success && clients[i].pc.used.Some?
    ensures Breaches(clients[i].call, clients[i].pc.used.value, reason) <==> HasWritten(clients, WroteAlert(i, reason))
  {
  }

  /** Of one call's two alerts the temperature one was stored first, and so has the smaller id. */
  lemma TemperatureFirst(start: System, end: System, log: seq<Write>, i: nat, j: nat, k: nat)
    requires Explains(start, end, log) && j < |log| && k < |log|
    requires log[j] == WroteAlert(i, TemperatureHigh) && log[k] == WroteAlert(i, BatteryLow)
    ensures AlertsIn(log[..j]) < AlertsIn(log[..k])
  {
    assert Rank(log[j]) < Rank(log[k]);
    AlertsInMonotone(log, j, k);
  }

  /**
   A call that ended in success has stored an alert for each of its breaches, and for nothing else;
   of two, the temperature alert has the smaller id.
   */
  lemma BreachesStored(sys: System, schedule: seq<nat>, i: nat) returns (rows: map<Reason, nat>)
    requires Fresh(sys) && IsSchedule(sys, schedule) && AllWellFormed(sys)
    requires i < |sys.clients| && Execute(sys, schedule).clients[i].call.Record?
    requires
      var pc := Execute(sys, schedule).clients[i].pc;
      pc.Done? && pc.reply == Success && pc.used.Some?
    ensures
      var end := Execute(sys, schedule);
      var c := end.clients[i];
      && (forall reason: Reason :: reason in rows <==> Breaches(c.call, c.pc.used.value, reason))
      && (forall reason: Reason :: reason in rows <==> WroteAlert(i, reason) in Log(sys, schedule))
      && (forall reason: Reason :: reason in rows ==> Stored(sys, end, rows[reason], WroteAlert(i, reason)))
      && (TemperatureHigh in rows && BatteryLow in rows ==> rows[TemperatureHigh] < rows[BatteryLow])
  {
    RunExplains(sys, schedule);
    var end, log := Execute(sys, schedule), Log(sys, schedule);
    rows := AlertsOfCall(sys, end, log, i);
  }

  lemma AlertsOfCall(start: System, end: System, log: seq<Write>, i: nat) returns (rows: map<Reason, nat>)
    requires Explains(start, end, log) && i < |end.clients|
    requires Consistent(end.clients[i]) && end.clients[i].call.Record?
    requires end.clients[i].pc.Done? && end.clients[i].pc.reply == Success && end.clients[i].pc.used.Some?
    ensures
      var c := end.clients[i];
      && (forall reason: Reason :: reason in rows <==> Breaches(c.call, c.pc.used.value, reason))
      && (forall reason: Reason :: reason in rows <==> WroteAlert(i, reason) in log)
      && (forall reason: Reason :: reason in rows ==> Stored(start, end, rows[reason], WroteAlert(i, reason)))
      && (TemperatureHigh in rows && BatteryLow in rows ==> rows[TemperatureHigh] < rows[BatteryLow])
  {
    rows := map[];
    var c := end.clients[i];
    SuccessHasWritten(end.clients, i, TemperatureHigh);
    SuccessHasWritten(end.clients, i, BatteryLow);
    var j, k, n, m := 0, 0, 0, 0;
    if Breaches(c.call, c.pc.used.value, TemperatureHigh) {
      j, n := WrittenIsStored(start, end, log, WroteAlert(i, TemperatureHigh));
      rows := rows[TemperatureHigh := n];
    }
    if Breaches(c.call, c.pc.used.value, BatteryLow) {
      k, m := WrittenIsStored(start, end, log, WroteAlert(i, BatteryLow));
      if TemperatureHigh in rows {
        TemperatureFirst(start, end, log, i, j, k);
      }
      rows := rows[BatteryLow := m];
    }
  }

  // ---------- the tables in closed form ----------

  function SavedMetric(c: Client): multiset<Entry<Reading>> {
    if HasSaved(c) then multiset{Entry(c.call.deviceId, Unix(c.call.time), Reading(c.call.temperature, c.call.battery))}
    else multiset{}
  }

  function StoredAlert(c: Client, reason: Reason): multiset<Entry<Notice>> {
    if !HasStored(c, reason) then multiset{}
    else
      var config := Used(c).value;
      var desc := match reason
                  case TemperatureHigh => Exceeded(c.call.temperature, config.temperatureThreshold)
                  case BatteryLow => Dropped(c.call.battery, config.batteryThreshold);
      multiset{Entry(c.call.deviceId, Unix(c.call.time), Notice(reason, desc))}
  }

  function StoredAlerts(c: Client): multiset<Entry<Notice>> {
    StoredAlert(c, TemperatureHigh) + StoredAlert(c, BatteryLow)
  }

  /** One step adds to each table what it adds to its client's own account. */
  lemma StepMetrics(db: Db, c: Client)
    requires Consistent(c)
    ensures
      var (db', c') := StepCall(db, c);
      Entries(db'.metrics.rows) + SavedMetric(c) == Entries(db.metrics.rows) + SavedMetric(c')
  {
    StepDb(db, c, 0);
    StepWrites(db, c, 0, TemperatureHigh);
    StepKeeps(db, c);
    hide StepCall, Consistent, HasSaved, HasStored, Append;
    if WriteOf(c, 0) == [WroteMetric(0)] {
      AppendEntries(db.metrics, c.call.deviceId, MetricOf(c.call));
      NewMetricEntry(c.call);
    }
  }

  lemma StepKeeps(db: Db, c: Client)
    requires Consistent(c)
    ensures StepCall(db, c).1 == c.(pc := StepCall(db, c).1.pc)
    ensures Used(c).Some? ==> Used(StepCall(db, c).1) == Used(c)
    ensures HasSaved(c) ==> c.call.Record?
  {
  }

  lemma NewMetricEntry(call: Call)
    requires call.Record?
    ensures NewEntry(call.deviceId, MetricOf(call))
            == Entry(call.deviceId, Unix(call.time), Reading(call.temperature, call.battery))
  {
  }

  lemma NewAlertEntry(c: Client, reason: Reason)
    requires HasStored(c, reason)
    ensures StoredAlert(c, reason) == multiset{NewEntry(c.call.deviceId, AlertOf(c.call, Used(c).value, reason))}
  {
  }

  /** An alert write adds one alert to the client's account; any other step none. */
  lemma StepAccount(db: Db, c: Client, reason: Reason)
    requires Consistent(c)
    ensures StoredAlert(StepCall(db, c).1, reason)
            == if WriteOf(c, 0) == [WroteAlert(0, reason)] && Used(c).Some? && c.call.Record?
               then StoredAlert(c, reason) + multiset{NewEntry(c.call.deviceId, AlertOf(c.call, Used(c).value, reason))}
               else StoredAlert(c, reason)
  {
    var c' := StepCall(db, c).1;
    StepDb(db, c, 0);
    StepWrites(db, c, 0, reason);
    StepKeeps(db, c);
    hide StepCall, Consistent, Breaches, AlertOf, NewEntry;
    if HasStored(c', reason) { NewAlertEntry(c', reason); }
    if HasStored(c, reason) { NewAlertEntry(c, reason); }
  }

  lemma StepAlerts(db: Db, c: Client)
    requires Consistent(c)
    ensures
      var (db', c') := StepCall(db, c);
      Entries(db'.alerts.rows) + StoredAlerts(c) == Entries(db.alerts.rows) + StoredAlerts(c')
  {
    StepDb(db, c, 0);
    StepAccount(db, c, TemperatureHigh);
    StepAccount(db, c, BatteryLow);
    hide StepCall, Consistent, StoredAlert, Append, AlertOf, NewEntry, WriteOf, Entries, Used;
    if WriteOf(c, 0) == [WroteAlert(0, TemperatureHigh)] {
      AppendEntries(db.alerts, c.call.deviceId, AlertOf(c.call, Used(c).value, TemperatureHigh));
    } else if WriteOf(c, 0) == [WroteAlert(0, BatteryLow)] {
      AppendEntries(db.alerts, c.call.deviceId, AlertOf(c.call, Used(c).value, BatteryLow));
    }
  }

  /**
   At every moment of every run each table holds its initial rows and one row per metric some call
   has saved and per alert some call has stored: nothing is lost, doubled or made up.
   */
  lemma {:induction false} TablesExact(sys: System, schedule: seq<nat>)
    requires Fresh(sys) && IsSchedule(sys, schedule)
    ensures AllWellFormed(sys)
    ensures
      var now := Execute(sys, schedule);
      && Entries(now.db.metrics.rows) == Entries(sys.db.metrics.rows) + Bag(now.clients, SavedMetric)
      && Entries(now.db.alerts.rows) == Entries(sys.db.alerts.rows) + Bag(now.clients, StoredAlerts)
  {
    if schedule == [] {
      BagEmpty(sys.clients, SavedMetric);
      BagEmpty(sys.clients, StoredAlerts);
    } else {
      var init, i := schedule[..|schedule| - 1], schedule[|schedule| - 1];
      TablesExact(sys, init);
      RunExplains(sys, init);
      var was, now := Execute(sys, init), Execute(sys, schedule);
      TablesTurn(was, i);
      BagCancel(Entries(was.db.metrics.rows), Entries(now.db.metrics.rows), Entries(sys.db.metrics.rows),
                Bag(was.clients, SavedMetric), Bag(now.clients, SavedMetric));
      BagCancel(Entries(was.db.alerts.rows), Entries(now.db.alerts.rows), Entries(sys.db.alerts.rows),
                Bag(was.clients, StoredAlerts), Bag(now.clients, StoredAlerts));
    }
  }

  /** A turn adds to each table what it adds to the accounts of all clients together. */
  lemma TablesTurn(sys: System, i: nat)
    requires i < |sys.clients| && Consistent(sys.clients[i])
    ensures
      var sys' := Turn(sys, i);
      && Entries(sys'.db.metrics.rows) + Bag(sys.clients, SavedMetric)
         == Entries(sys.db.metrics.rows) + Bag(sys'.clients, SavedMetric)
      && Entries(sys'.db.alerts.rows) + Bag(sys.clients, StoredAlerts)
         == Entries(sys.db.alerts.rows) + Bag(sys'.clients, StoredAlerts)
  {
    hide StepCall, SavedMetric, StoredAlerts, Entries, Bag;
    var c, sys' := sys.clients[i], Turn(sys, i);
    var c' := sys'.clients[i];
    StepMetrics(sys.db, c);
    StepAlerts(sys.db, c);
    BagUpdate(sys.clients, i, c', SavedMetric);
    BagShift(Entries(sys.db.metrics.rows), Entries(sys'.db.metrics.rows),
             Bag(sys.clients, SavedMetric), Bag(sys'.clients, SavedMetric), SavedMetric(c), SavedMetric(c'));
    BagUpdate(sys.clients, i, c', StoredAlerts);
    BagShift(Entries(sys.db.alerts.rows), Entries(sys'.db.alerts.rows),
             Bag(sys.clients, StoredAlerts), Bag(sys'.clients, StoredAlerts), StoredAlerts(c), StoredAlerts(c'));
  }

  lemma BagShift<A>(x: multiset<A>, x': multiset<A>, b: multiset<A>, b': multiset<A>, d: multiset<A>, d': multiset<A>)
    requires x' + d == x + d' && b' + d == b + d'
    ensures x' + b == x + b'
  {
    forall e ensures (x' + b)[e] == (x + b')[e] {
      assert (x' + d)[e] == (x + d')[e];
      assert (b' + d)[e] == (b + d')[e];
    }
  }

  lemma BagCancel<A>(x: multiset<A>, x': multiset<A>, y: multiset<A>, b: multiset<A>, b': multiset<A>)
    requires x == y + b && x' + b == x + b'
    ensures x' == y + b'
  {
    forall e ensures x'[e] == (y + b')[e] {
      assert (x' + b)[e] == (x + b')[e];
    }
  }

  // ---------- where the thresholds come from ----------

  /** The thresholds a call goes on with after its config read. */
  function Thresholds(read: Result<Config, Error>): Option<Config> {
    match read
    case Ok(config) => Some(config)
    case Err(NotFound) => None
    case Err(Failed) => Some(ZERO_CONFIG)
  }

  predicate Records(c: Client) {
    c.call.Record? && Valid(c.call) && !c.faults.write
  }

  predicate AlertsHealthy(c: Client) {
    && !c.faults.temperatureAlert && !c.faults.batteryAlert
    && (c.pc.Done? ==> c.pc.reply == Success)
  }

  lemma {:induction false} UsedAtEnd(c: Client)
    requires WellFormed(c) && Committed(c)
    ensures EndOf(c).Done? && Used(c.(pc := EndOf(c))) == Used(c)
    ensures AlertsHealthy(c) ==> EndOf(c).reply == Success
    decreases StepsLeft(c.pc)
  {
    if c.pc.RaiseTemperature? && !c.faults.temperatureAlert {
      UsedAtEnd(c.(pc := AfterTemperature(c.call, c.pc.config)));
    }
  }

  lemma SaveStep(db: Db, c: Client)
    requires c.pc.Ready? && Records(c)
    ensures StepCall(db, c) == (db.(metrics := Append(db.metrics, c.call.deviceId, MetricOf(c.call))), c.(pc := Saved))
  {
  }

  lemma ReadStep(db: Db, c: Client)
    requires WellFormed(c) && c.pc.Saved?
    ensures
      var c' := StepCall(db, c).1;
      && Committed(c')
      && Used(c') == Thresholds(ReadConfig(db.configs, c.call.deviceId, c.faults.read))
      && (!c.faults.temperatureAlert && !c.faults.batteryAlert ==> AlertsHealthy(c'))
  {
  }

  /** A recording call run on its own uses what it reads, and succeeds if none of its writes fails. */
  lemma FinishUsed(db: Db, c: Client)
    requires c.pc.Ready? && Records(c)
    ensures
      var end := Finish(db, c).1;
      && Used(end) == Thresholds(ReadConfig(db.configs, c.call.deviceId, c.faults.read))
      && (!c.faults.temperatureAlert && !c.faults.batteryAlert ==> end.pc.reply == Success)
  {
    SaveStep(db, c);
    FinishStep(db, c);
    var (db1, c1) := StepCall(db, c);
    ReadStep(db1, c1);
    FinishStep(db1, c1);
    hide Finish, StepCall, Append, Valid;
    var (db2, c2) := StepCall(db1, c1);
    FinishCommitted(db2, c2);
    UsedAtEnd(c2);
  }

  /**
   Once a recording call has its thresholds, they are what its config read finds after exactly the
   configuring calls before it in the serial order: the configuration in force, none if there is none,
   and the zero configuration if the read fails.
   */
  lemma ThresholdSource(sys: System, schedule: seq<nat>, i: nat) returns (k: nat)
    requires Fresh(sys) && IsSchedule(sys, schedule) && AllWellFormed(sys) && i < |sys.clients|
    requires Records(sys.clients[i]) && Committed(Execute(sys, schedule).clients[i])
    ensures
      var order, c := Order(sys, schedule), sys.clients[i];
      && k < |order| && order[k] == i && (forall j :: 0 <= j < |order| && order[j] == i ==> j == k)
      && Used(Execute(sys, schedule).clients[i])
         == Thresholds(ReadConfig(Upserted(sys.db.configs, Upserts(sys.clients, order[..k])),
                                  c.call.deviceId, c.faults.read))
      && (!c.faults.temperatureAlert && !c.faults.batteryAlert && Execute(sys, schedule).clients[i].pc.Done? ==>
            Execute(sys, schedule).clients[i].pc.reply == Success)
  {
    RunSimulates(sys, schedule);
    var order, end := Order(sys, schedule), Execute(sys, schedule);
    k :| 0 <= k < |order| && order[k] == i;
    SerialEndAt(sys, order, k);
    SerialConfigs(sys, order[..k]);
    FinishUsed(Serial(sys, order[..k]), sys.clients[i]);
    UsedAtEnd(end.clients[i]);
  }

  /** What a read at place `k` of the serial order finds for the device of the call there. */
  ghost function InForce(sys: System, schedule: seq<nat>, k: nat): Result<Config, Error>
    requires IsSchedule(sys, schedule) && AllWellFormed(sys) && k < |Order(sys, schedule)|
  {
    var order := Order(sys, schedule);
    ReadConfig(Upserted(sys.db.configs, Upserts(sys.clients, order[..k])), sys.clients[order[k]].call.deviceId, false)
  }

  /** A valid recording call whose writes succeed and which has ended, at place `k` of the serial order. */
  ghost predicate Recorded(sys: System, schedule: seq<nat>, k: nat, i: nat)
    requires IsSchedule(sys, schedule) && AllWellFormed(sys)
  {
    && i < |sys.clients|
    && Records(sys.clients[i]) && !sys.clients[i].faults.temperatureAlert && !sys.clients[i].faults.batteryAlert
    && Execute(sys, schedule).clients[i].pc.Done?
    && k < |Order(sys, schedule)| && Order(sys, schedule)[k] == i
  }

  /** The rows at these places are the alerts the configuration calls for, device, second and description included. */
  ghost predicate CalledFor(start: Db, end: Db, call: Call, config: Config, rows: map<Reason, nat>)
    requires call.Record?
  {
    forall reason: Reason ::
      && (reason in rows <==> Breaches(call, config, reason))
      && (reason in rows ==>
            && rows[reason] < |end.alerts.rows| - |start.alerts.rows|
            && EntryOf(end.alerts.rows[|start.alerts.rows| + rows[reason]])
               == NewEntry(call.deviceId, AlertOf(call, config, reason)))
  }

  lemma RecordedUses(sys: System, schedule: seq<nat>, k: nat, i: nat, config: Config)
    requires Fresh(sys) && IsSchedule(sys, schedule) && AllWellFormed(sys) && Recorded(sys, schedule, k, i)
    requires InForce(sys, schedule, k) == Ok(config)
    ensures
      var end := Execute(sys, schedule).clients[i];
      && end.call == sys.clients[i].call
      && end.pc.reply == Success
      && end.pc.used == Some(if sys.clients[i].faults.read then ZERO_CONFIG else config)
  {
    RunSimulates(sys, schedule);
    var place := ThresholdSource(sys, schedule, i);
    assert place == k;
  }

  /**
   A valid call whose writes succeed, for a device with a configuration in force at its place, stores
   exactly the alerts that configuration calls for if and only if its config read succeeds, or its
   battery is not below the threshold and its temperature, if above zero, is compared with a threshold
   that is zero anyway, and otherwise is not above the threshold.
   */
  lemma RightAlertsIff(sys: System, schedule: seq<nat>, k: nat, i: nat, config: Config) returns (rows: map<Reason, nat>)
    requires Fresh(sys) && IsSchedule(sys, schedule) && AllWellFormed(sys) && Recorded(sys, schedule, k, i)
    requires InForce(sys, schedule, k) == Ok(config)
    ensures Execute(sys, schedule).clients[i].pc.reply == Success
    ensures forall reason: Reason :: reason in rows <==> WroteAlert(i, reason) in Log(sys, schedule)
    ensures forall reason: Reason :: reason in rows ==>
              Stored(sys, Execute(sys, schedule), rows[reason], WroteAlert(i, reason))
    ensures
      var call := sys.clients[i].call;
      CalledFor(sys.db, Execute(sys, schedule).db, call, config, rows) <==>
        || !sys.clients[i].faults.read
        || (call.battery >= config.batteryThreshold
            && if call.temperature > 0.0 then config.temperatureThreshold == 0.0
               else call.temperature <= config.temperatureThreshold)
  {
    RecordedUses(sys, schedule, k, i, config);
    var end, call := Execute(sys, schedule), sys.clients[i].call;
    var used := end.clients[i].pc.used.value;
    hide Execute, Log, InForce, Recorded, Fresh, Valid;
    rows := BreachesStored(sys, schedule, i);
    StoredCalledFor(sys, end, i, call, used, config, rows);
    MisreadIff(call, config, sys.clients[i].faults.read, used);
  }

  /** Same breaches, and for each the same alert. */
  ghost predicate SameAlerts(call: Call, used: Config, config: Config)
    requires call.Record?
  {
    forall reason: Reason ::
      && (Breaches(call, used, reason) <==> Breaches(call, config, reason))
      && (Breaches(call, used, reason) ==> AlertOf(call, used, reason) == AlertOf(call, config, reason))
  }

  lemma StoredCalledFor(
      start: System, end: System, i: nat, call: Call, used: Config, config: Config, rows: map<Reason, nat>)
    requires i < |end.clients| && end.clients[i].call == call && call.Record? && Used(end.clients[i]) == Some(used)
    requires forall reason: Reason :: reason in rows <==> Breaches(call, used, reason)
    requires forall reason: Reason :: reason in rows ==> Stored(start, end, rows[reason], WroteAlert(i, reason))
    ensures CalledFor(start.db, end.db, call, config, rows) <==> SameAlerts(call, used, config)
  {
    forall reason: Reason | reason in rows
      ensures EntryOf(end.db.alerts.rows[|start.db.alerts.rows| + rows[reason]])
              == NewEntry(call.deviceId, AlertOf(call, used, reason))
      ensures NewEntry(call.deviceId, AlertOf(call, used, reason))
              == NewEntry(call.deviceId, AlertOf(call, config, reason))
              <==> AlertOf(call, used, reason) == AlertOf(call, config, reason)
    {
      assert Stored(start, end, rows[reason], WroteAlert(i, reason));
    }
  }

  /** When zero thresholds find the same alerts as the right ones. */
  lemma MisreadIff(call: Call, config: Config, fault: bool, used: Config)
    requires call.Record? && Valid(call) && used == if fault then ZERO_CONFIG else config
    ensures SameAlerts(call, used, config) <==>
              || !fault
              || (call.battery >= config.batteryThreshold
                  && if call.temperature > 0.0 then config.temperatureThreshold == 0.0
                     else call.temperature <= config.temperatureThreshold)
  {
    assert SameAlerts(call, used, config) ==>
             && (Breaches(call, used, TemperatureHigh) <==> Breaches(call, config, TemperatureHigh))
             && (Breaches(call, used, BatteryLow) <==> Breaches(call, config, BatteryLow));
    assert SameAlerts(call, used, config) && Breaches(call, used, TemperatureHigh) ==>
             AlertOf(call, used, TemperatureHigh) == AlertOf(call, config, TemperatureHigh);
  }

  /**
   The reasons alone are right more often: with the temperature on the same side of zero as of the
   threshold. The description then names the threshold zero.
   */
  lemma RightReasonsIff(sys: System, schedule: seq<nat>, k: nat, i: nat, config: Config)
    requires Fresh(sys) && IsSchedule(sys, schedule) && AllWellFormed(sys) && Recorded(sys, schedule, k, i)
    requires InForce(sys, schedule, k) == Ok(config)
    ensures
      var call := sys.clients[i].call;
      (forall reason: Reason :: WroteAlert(i, reason) in Log(sys, schedule) <==> Breaches(call, config, reason))
      <==> (!sys.clients[i].faults.read
            || ((call.temperature > 0.0 <==> call.temperature > config.temperatureThreshold)
                && call.battery >= config.batteryThreshold))
  {
    RecordedUses(sys, schedule, k, i, config);
    var call, used := sys.clients[i].call, Execute(sys, schedule).clients[i].pc.used.value;
    var rows := BreachesStored(sys, schedule, i);
    SameReasonsIff(call, config, sys.clients[i].faults.read, used);
    hide Execute, Log, InForce, Recorded, Fresh, Valid, Breaches;
    assert forall reason: Reason :: WroteAlert(i, reason) in Log(sys, schedule) <==> Breaches(call, used, reason);
  }

  lemma SameReasonsIff(call: Call, config: Config, fault: bool, used: Config)
    requires call.Record? && Valid(call) && used == if fault then ZERO_CONFIG else config
    ensures (forall reason: Reason :: Breaches(call, used, reason) <==> Breaches(call, config, reason)) <==>
              || !fault
              || ((call.temperature > 0.0 <==> call.temperature > config.temperatureThreshold)
                  && call.battery >= config.batteryThreshold)
  {
    assert (forall reason: Reason :: Breaches(call, used, reason) <==> Breaches(call, config, reason)) ==>
             && (Breaches(call, used, TemperatureHigh) <==> Breaches(call, config, TemperatureHigh))
             && (Breaches(call, used, BatteryLow) <==> Breaches(call, config, BatteryLow));
  }

  // ---------- the fall-through after a failed config read ----------

  lemma FinishUnwritten(db: Db, c: Client)
    requires c.pc.Ready? && c.call.Record? && Valid(c.call) && c.faults.write
    ensures Finish(db, c).1.pc == Done(WriteFailed, None)
  {
  }

  /**
   A valid call with no configuration in force at its place should raise no alert. It raises one exactly
   when its config read fails otherwise than with not-found, its temperature is above zero, and neither
   its metric nor its alert write fails.
   */
  lemma UnconfiguredAlertIff(sys: System, schedule: seq<nat>, k: nat, i: nat)
    requires Fresh(sys) && IsSchedule(sys, schedule) && AllWellFormed(sys) && i < |sys.clients|
    requires sys.clients[i].call.Record? && Valid(sys.clients[i].call) && Execute(sys, schedule).clients[i].pc.Done?
    requires k < |Order(sys, schedule)| && Order(sys, schedule)[k] == i
    requires InForce(sys, schedule, k) == Err(NotFound)
    ensures
      var c := sys.clients[i];
      (exists reason: Reason :: WroteAlert(i, reason) in Log(sys, schedule)) <==>
        c.faults.read && !c.faults.write && c.call.temperature > 0.0 && !c.faults.temperatureAlert
  {
    var c, end := sys.clients[i], Execute(sys, schedule).clients[i];
    UnconfiguredUses(sys, schedule, k, i);
    forall reason: Reason ensures WroteAlert(i, reason) in Log(sys, schedule) <==> HasStored(end, reason) {
      LoggedIs(sys, schedule, i, reason);
    }
    hide Execute, Log, InForce, Order, Fresh, HasStored, Valid, ReadConfig;
    NoBatteryAlert(end, c.faults.read);
  }

  /** The log tells what a call has stored. */
  lemma LoggedIs(sys: System, schedule: seq<nat>, i: nat, reason: Reason)
    requires Fresh(sys) && IsSchedule(sys, schedule) && AllWellFormed(sys) && i < |sys.clients|
    ensures WroteAlert(i, reason) in Log(sys, schedule) <==> HasStored(Execute(sys, schedule).clients[i], reason)
  {
    RunExplains(sys, schedule);
    hide Execute, Log, HasStored;
    assert WroteAlert(i, reason) in Log(sys, schedule) <==>
             HasWritten(Execute(sys, schedule).clients, WroteAlert(i, reason));
  }

  lemma UnconfiguredUses(sys: System, schedule: seq<nat>, k: nat, i: nat)
    requires Fresh(sys) && IsSchedule(sys, schedule) && AllWellFormed(sys) && i < |sys.clients|
    requires sys.clients[i].call.Record? && Valid(sys.clients[i].call) && Execute(sys, schedule).clients[i].pc.Done?
    requires k < |Order(sys, schedule)| && Order(sys, schedule)[k] == i
    requires InForce(sys, schedule, k) == Err(NotFound)
    ensures
      var c, end := sys.clients[i], Execute(sys, schedule).clients[i];
      && end == c.(pc := end.pc)
      && Used(end) == if c.faults.read && !c.faults.write then Some(ZERO_CONFIG) else None
  {
    RunSimulates(sys, schedule);
    var c := sys.clients[i];
    hide Execute, Serial, Agrees, Finish;
    if c.faults.write {
      SerialEndAt(sys, Order(sys, schedule), k);
      FinishUnwritten(Serial(sys, Order(sys, schedule)[..k]), c);
    } else {
      var place := ThresholdSource(sys, schedule, i);
      assert place == k;
    }
  }

  /** Against the zero threshold no valid battery level is low. */
  lemma NoBatteryAlert(c: Client, fault: bool)
    requires c.call.Record? && Valid(c.call) && c.pc.Done? && (Used(c).Some? ==> Used(c).value == ZERO_CONFIG)
    ensures !HasStored(c, BatteryLow)
    ensures HasStored(c, TemperatureHigh) <==>
              Used(c).Some? && c.call.temperature > 0.0 && !c.faults.temperatureAlert
  {
  }

  /** Such a call: nothing is configured, one degree above zero, and the read fails. */
  lemma SpuriousAlert()
    ensures
      var c := Client(Record("d", 1.0, 50, 0), NO_FAULTS.(read := true), Ready);
      var db := Db(map[], Table([], 0), Table([], 0));
      && Valid(c.call)
      && Finish(db, c).0.alerts.rows == [Row(1, "d", 0, Notice(TemperatureHigh, Exceeded(1.0, 0.0)))]
  {
    var c := Client(Record("d", 1.0, 50, 0), NO_FAULTS.(read := true), Ready);
    var db := Db(map[], Table([], 0), Table([], 0));
    assert !IsSpace("d"[0]);
    var (db1, c1) := StepCall(db, c);
    var (db2, c2) := StepCall(db1, c1);
    var (db3, c3) := StepCall(db2, c2);
    assert Finish(db2, c2) == (db3, c3);
    assert Finish(db1, c1) == Finish(db2, c2);
  }

  /** A lost alert: both thresholds of the device are breached, the read fails, and the call succeeds without one. */
  lemma LostAlert()
    ensures
      var config := Config(-50.0, 20);
      var c := Client(Record("d", -1.0, 5, 0), NO_FAULTS.(read := true), Ready);
      var db := Db(map["d" := config], Table([], 0), Table([], 0));
      && Valid(c.call)
      && Breaches(c.call, config, TemperatureHigh) && Breaches(c.call, config, BatteryLow)
      && Finish(db, c).1.pc.reply == Success && Finish(db, c).0.alerts == db.alerts
  {
    var c := Client(Record("d", -1.0, 5, 0), NO_FAULTS.(read := true), Ready);
    var db := Db(map["d" := Config(-50.0, 20)], Table([], 0), Table([], 0));
    assert !IsSpace("d"[0]);
    var (db1, c1) := StepCall(db, c);
    FinishStep(db, c);
    FinishStep(db1, c1);
  }

  /** A wrong alert: the reason is right, but the client is told of a threshold of zero. */
  lemma WrongThreshold()
    ensures
      var config := Config(50.0, 20);
      var c := Client(Record("d", 60.0, 90, 0), NO_FAULTS.(read := true), Ready);
      var db := Db(map["d" := config], Table([], 0), Table([], 0));
      && Valid(c.call)
      && AlertOf(c.call, config, TemperatureHigh).body == Notice(TemperatureHigh, Exceeded(60.0, 50.0))
      && Finish(db, c).0.alerts.rows == [Row(1, "d", 0, Notice(TemperatureHigh, Exceeded(60.0, 0.0)))]
  {
    var c := Client(Record("d", 60.0, 90, 0), NO_FAULTS.(read := true), Ready);
    var db := Db(map["d" := Config(50.0, 20)], Table([], 0), Table([], 0));
    assert !IsSpace("d"[0]);
    var (db1, c1) := StepCall(db, c);
    var (db2, c2) := StepCall(db1, c1);
    FinishStep(db, c);
    FinishStep(db1, c1);
    FinishStep(db2, c2);
  }
}
