/**
 The SQLite-backed repository: two append-only tables with AUTOINCREMENT ids, a table of
 configurations, and the paged reads over them.
 */
module Repository {
  import opened Wrappers
  import opened Time
  import opened Query

  // ---------- records ----------

  datatype Config = Config(temperatureThreshold: real, batteryThreshold: int)

  datatype Reading = Reading(temperature: real, battery: int)

  datatype Reason = TemperatureHigh | BatteryLow

  /** The rendered description, kept as the two numbers it is rendered from. */
  datatype Desc = Exceeded(temperature: real, maximum: real) | Dropped(battery: int, minimum: int)

  datatype Notice = Notice(reason: Reason, desc: Desc)

  /** A record as callers see it: payload and time, without id or device. */
  datatype Item<T> = Item(body: T, time: Instant)

  type Metric = Item<Reading>
  type Alert = Item<Notice>

  datatype Timeframe = Timeframe(start: Option<Instant>, end: Option<Instant>)

  /** Both fields are pointers in the program and so may be absent. */
  datatype PageToken = PageToken(lastTime: Option<Instant>, lastId: Option<int>)

  datatype PageOptions = PageOptions(size: int, token: Option<PageToken>)

  datatype Page<T> = Page(items: seq<Item<T>>, next: Option<PageToken>)

  /** A call that dereferences nil or slices out of range panics. */
  datatype Outcome<+P> = Returned(page: P) | Panicked

  // ---------- tables ----------

  /** `last` is the AUTOINCREMENT counter: the largest id ever handed out. */
  datatype Table<T> = Table(rows: seq<Row<T>>, last: nat)

  ghost predicate ValidTable<T(!new)>(t: Table<T>) {
    && Increasing(t.rows)
    && forall r :: r in t.rows ==> 1 <= r.id <= t.last
  }

  function Append<T>(t: Table<T>, deviceId: string, item: Item<T>): Table<T> {
    Table(t.rows + [Row(t.last + 1, deviceId, Unix(item.time), item.body)], t.last + 1)
  }

  lemma AppendValid<T(!new)>(t: Table<T>, deviceId: string, item: Item<T>)
    requires ValidTable(t)
    ensures ValidTable(Append(t, deviceId, item))
    ensures forall r :: r in Append(t, deviceId, item).rows <==>
              r in t.rows || r == Row(t.last + 1, deviceId, Unix(item.time), item.body)
  {
  }

  // ---------- one page ----------

  function ItemOf<T>(r: Row<T>): Item<T> {
    Item(r.body, FromUnix(r.timestamp))
  }

  function ItemsOf<T>(rows: seq<Row<T>>): (items: seq<Item<T>>)
    ensures |items| == |rows|
    ensures forall i :: 0 <= i < |rows| ==> items[i] == ItemOf(rows[i])
  {
    if rows == [] then [] else ItemsOf(rows[..|rows| - 1]) + [ItemOf(rows[|rows| - 1])]
  }

  lemma ItemsOfConcat<T>(a: seq<Row<T>>, b: seq<Row<T>>)
    ensures ItemsOf(a + b) == ItemsOf(a) + ItemsOf(b)
  {
  }

  function TokenOf<T>(r: Row<T>): PageToken {
    PageToken(Some(FromUnix(r.timestamp)), Some(r.id))
  }

  /** Parameters of a read: the limit is one more than the page size, in int64 arithmetic. */
  function ParamsOf(deviceId: string, timeframe: Timeframe, opts: PageOptions): Params
    requires opts.token.Some? ==> opts.token.value.lastTime.Some?
  {
    Params(
      deviceId,
      UnixOption(timeframe.start),
      UnixOption(timeframe.end),
      if opts.token.None? then None else UnixOption(opts.token.value.lastTime),
      if opts.token.None? then None else opts.token.value.lastId,
      IncInt64(opts.size))
  }

  /** The rows behind a page: peek one row further, drop it, and point the token at the row before it. */
  datatype RowPage<T> = RowPage(rows: seq<Row<T>>, next: Option<PageToken>)

  function Fetch<T>(table: seq<Row<T>>, deviceId: string, timeframe: Timeframe, opts: PageOptions)
    : Outcome<RowPage<T>>
  {
    if opts.token.Some? && opts.token.value.lastTime.None? then Panicked
    else
      var p := ParamsOf(deviceId, timeframe, opts);
      var rows := Select(table, p);
      if |rows| != p.limit then Returned(RowPage(rows, None))
      else if |rows| < 2 then Panicked
      else Returned(RowPage(rows[..|rows| - 1], Some(TokenOf(rows[|rows| - 2]))))
  }

  /** Exactly the calls that panic: a token without a time, size -1, or size 0 while a row matches. */
  lemma FetchPanicsIff<T(!new)>(table: seq<Row<T>>, deviceId: string, timeframe: Timeframe, opts: PageOptions)
    requires Increasing(table) && IsInt64(opts.size)
    ensures Fetch(table, deviceId, timeframe, opts).Panicked? <==>
            || (opts.token.Some? && opts.token.value.lastTime.None?)
            || opts.size == -1
            || (opts.size == 0 && exists r :: r in table && Keep(r, ParamsOf(deviceId, timeframe, opts)))
  {
    if opts.token.None? || opts.token.value.lastTime.Some? {
      var p := ParamsOf(deviceId, timeframe, opts);
      var all := Ordered(table, p);
      OrderedCorrect(table, p);
      if all != [] {
        assert all[0] in all;
      }
    }
  }

  /**
   A page of positive size holds the first `size` matching rows below the cursor; it carries a
   token, that of its last row, exactly when more matching rows remain.
   */
  lemma FetchPage<T(!new)>(table: seq<Row<T>>, deviceId: string, timeframe: Timeframe, opts: PageOptions)
    requires opts.token.Some? ==> opts.token.value.lastTime.Some?
    requires 1 <= opts.size < MAX_INT64
    ensures Fetch(table, deviceId, timeframe, opts).Returned?
    ensures
      var all := Ordered(table, ParamsOf(deviceId, timeframe, opts));
      var page := Fetch(table, deviceId, timeframe, opts).page;
      && page.rows == all[..if |all| <= opts.size then |all| else opts.size]
      && (page.next.Some? <==> |all| > opts.size)
      && (page.next.Some? ==> page.rows != [] && page.next.value == TokenOf(page.rows[|page.rows| - 1]))
  {
  }

  /**
   A size of -2 or less reads as no limit, and so does the largest int64, whose successor wraps around: the page is
   everything that matches below the cursor, and has no token.
   */
  lemma FetchUnlimited<T(!new)>(table: seq<Row<T>>, deviceId: string, timeframe: Timeframe, opts: PageOptions)
    requires opts.token.Some? ==> opts.token.value.lastTime.Some?
    requires IsInt64(opts.size) && (opts.size <= -2 || opts.size == 0x7FFF_FFFF_FFFF_FFFF)
    ensures Fetch(table, deviceId, timeframe, opts)
            == Returned(RowPage(Ordered(table, ParamsOf(deviceId, timeframe, opts)), None))
  {
  }

  // ---------- the repository object ----------

  /** Everything the database holds. */
  datatype Db = Db(configs: map<string, Config>, metrics: Table<Reading>, alerts: Table<Notice>)

  /** How the database answered one call; a failed call leaves the database as it was. */
  datatype Error = NotFound | Failed

  class DeviceRepository {
    var configs: map<string, Config>
    var metrics: Table<Reading>
    var alerts: Table<Notice>

    constructor ()
      ensures Contents() == Db(map[], Table([], 0), Table([], 0))
    {
      configs, metrics, alerts := map[], Table([], 0), Table([], 0);
    }

    ghost function Contents(): Db
      reads this
    {
      Db(configs, metrics, alerts)
    }

    method UpsertDeviceConfig(deviceId: string, config: Config, fault: bool) returns (ok: bool)
      modifies this
      ensures ok == !fault
      ensures Contents() ==
              if fault then old(Contents())
              else old(Contents()).(configs := old(configs)[deviceId := config])
    {
      if fault { return false; }
      configs := configs[deviceId := config];
      return true;
    }

    method GetDeviceConfig(deviceId: string, fault: bool) returns (r: Result<Config, Error>)
      ensures r == Err(Failed) <==> fault
      ensures r == Err(NotFound) <==> !fault && deviceId !in configs
      ensures r.Ok? ==> deviceId in configs && r.value == configs[deviceId]
    {
      if fault { return Err(Failed); }
      if deviceId !in configs { return Err(NotFound); }
      return Ok(configs[deviceId]);
    }

    method SaveDeviceMetric(deviceId: string, metric: Metric, fault: bool) returns (ok: bool)
      modifies this
      ensures ok == !fault
      ensures Contents() ==
              if fault then old(Contents())
              else old(Contents()).(metrics := Append(old(metrics), deviceId, metric))
    {
      if fault { return false; }
      metrics := Append(metrics, deviceId, metric);
      return true;
    }

    method SaveDeviceAlert(deviceId: string, alert: Alert, fault: bool) returns (ok: bool)
      modifies this
      ensures ok == !fault
      ensures Contents() ==
              if fault then old(Contents())
              else old(Contents()).(alerts := Append(old(alerts), deviceId, alert))
    {
      if fault { return false; }
      alerts := Append(alerts, deviceId, alert);
      return true;
    }

    method GetDeviceMetrics(deviceId: string, timeframe: Timeframe, opts: PageOptions, fault: bool)
      returns (r: Result<Outcome<Page<Reading>>, Error>)
      ensures r == AnswerPage(metrics.rows, deviceId, timeframe, opts, fault)
    {
      r := ReadPage(metrics.rows, deviceId, timeframe, opts, fault);
    }

    method GetDeviceAlerts(deviceId: string, timeframe: Timeframe, opts: PageOptions, fault: bool)
      returns (r: Result<Outcome<Page<Notice>>, Error>)
      ensures r == AnswerPage(alerts.rows, deviceId, timeframe, opts, fault)
    {
      r := ReadPage(alerts.rows, deviceId, timeframe, opts, fault);
    }
  }

  function ReadConfig(configs: map<string, Config>, deviceId: string, fault: bool): Result<Config, Error> {
    if fault then Err(Failed)
    else if deviceId in configs then Ok(configs[deviceId])
    else Err(NotFound)
  }

  /** A write of a configuration that took effect. */
  datatype Upsert = Upsert(deviceId: string, config: Config)

  function Upserted(configs: map<string, Config>, upserts: seq<Upsert>): map<string, Config> {
    if upserts == [] then configs
    else
      var last := upserts[|upserts| - 1];
      Upserted(configs, upserts[..|upserts| - 1])[last.deviceId := last.config]
  }

  /** Write `k` is the last one for the device. */
  ghost predicate LastFor(upserts: seq<Upsert>, deviceId: string, k: nat) {
    && k < |upserts| && upserts[k].deviceId == deviceId
    && forall j :: k < j < |upserts| ==> upserts[j].deviceId != deviceId
  }

  ghost predicate Unwritten(upserts: seq<Upsert>, deviceId: string) {
    forall j :: 0 <= j < |upserts| ==> upserts[j].deviceId != deviceId
  }

  /**
   A read that does not fail answers with the configuration last written for its device, or the one
   there before if none was, and with not-found if there is neither.
   */
  lemma {:induction false} ReadsLastUpsert(configs: map<string, Config>, upserts: seq<Upsert>, deviceId: string)
    returns (last: Option<nat>)
    ensures last.None? <==> Unwritten(upserts, deviceId)
    ensures last.Some? ==>
              && LastFor(upserts, deviceId, last.value)
              && ReadConfig(Upserted(configs, upserts), deviceId, false) == Ok(upserts[last.value].config)
    ensures last.None? ==>
              ReadConfig(Upserted(configs, upserts), deviceId, false)
              == if deviceId in configs then Ok(configs[deviceId]) else Err(NotFound)
  {
    last := None;
    if upserts != [] {
      var n := |upserts| - 1;
      last := ReadsLastUpsert(configs, upserts[..n], deviceId);
      if upserts[n].deviceId == deviceId {
        last := Some(n);
      }
    }
  }

  function MapPage<T>(o: Outcome<RowPage<T>>): Outcome<Page<T>> {
    match o
    case Panicked => Panicked
    case Returned(p) => Returned(Page(ItemsOf(p.rows), p.next))
  }

  /** What a paged read answers; a token without a time panics before the database is asked. */
  function AnswerPage<T>(table: seq<Row<T>>, deviceId: string, timeframe: Timeframe, opts: PageOptions, fault: bool)
    : Result<Outcome<Page<T>>, Error>
  {
    if fault && (opts.token.Some? ==> opts.token.value.lastTime.Some?) then Err(Failed)
    else Ok(MapPage(Fetch(table, deviceId, timeframe, opts)))
  }

  /** The body the two paged reads share: query, trim, build the token, copy the rows out. */
  method ReadPage<T>(table: seq<Row<T>>, deviceId: string, timeframe: Timeframe, opts: PageOptions, fault: bool)
    returns (r: Result<Outcome<Page<T>>, Error>)
    ensures r == AnswerPage(table, deviceId, timeframe, opts, fault)
  {
    hide Select, Where, ItemsOf;
    var params := Params(deviceId, None, None, None, None, IncInt64(opts.size));
    if timeframe.start.Some? {
      params := params.(startTs := Some(Unix(timeframe.start.value)));
    }
    if timeframe.end.Some? {
      params := params.(endTs := Some(Unix(timeframe.end.value)));
    }
    if opts.token.Some? {
      params := params.(lastId := opts.token.value.lastId);
      if opts.token.value.lastTime.None? { return Ok(Panicked); }
      params := params.(lastTs := Some(Unix(opts.token.value.lastTime.value)));
    }
    assert params == ParamsOf(deviceId, timeframe, opts);

    if fault { return Err(Failed); }
    var rows := SelectRows(table, params);
    var next: Option<PageToken> := None;
    if |rows| == params.limit {
      if |rows| < 1 { return Ok(Panicked); }
      rows := rows[..|rows| - 1];
      if |rows| < 1 { return Ok(Panicked); }
      next := Some(TokenOf(rows[|rows| - 1]));
    }
    var items: seq<Item<T>> := [];
    for i := 0 to |rows|
      invariant items == ItemsOf(rows[..i])
    {
      assert rows[..i + 1][..i] == rows[..i];
      items := items + [ItemOf(rows[i])];
    }
    assert rows[..|rows|] == rows;
    r := Ok(Returned(Page(items, next)));
  }
}
