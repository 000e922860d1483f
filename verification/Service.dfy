/** The device service: validation, the two writing calls, and paged alerts with string tokens. */
module Service {
  import opened Wrappers
  import opened Time
  import opened Query
  import opened Repository
  import opened Calls
  import opened PageTokens

  const DEFAULT_PAGE_SIZE := 100
  const MAX_PAGE_SIZE := 250

  datatype AlertsRequest = AlertsRequest(
    deviceId: string,
    timeframe: Timeframe,
    pageSize: int,
    pageToken: string)

  datatype AlertsReply =
    | Alerts(alerts: seq<Alert>, nextPageToken: string)
    | InvalidRequest
    | BadToken
    | RepositoryFailed
    | TokenUnencodable
    | Crashed

  predicate ValidAlertsRequest(req: AlertsRequest) {
    var tf := req.timeframe;
    && !IsBlank(req.deviceId)
    && (tf.start.Some? ==> tf.start.value != ZERO_TIME)
    && (tf.end.Some? ==> tf.end.value != ZERO_TIME)
    && (tf.start.Some? && tf.end.Some? ==> tf.start.value <= tf.end.value)
    && req.pageSize >= 0
  }

  function ClampSize(size: int): (used: int)
    ensures size == 0 ==> used == 100
    ensures 1 <= size <= 250 ==> used == size
    ensures size > 250 ==> used == 250
  {
    if size == 0 then DEFAULT_PAGE_SIZE
    else if size > MAX_PAGE_SIZE then MAX_PAGE_SIZE
    else size
  }

  /** An empty token asks for the first page. */
  function ReadToken(s: string): Result<Option<PageToken>, CodecError> {
    if s == "" then Ok(None)
    else
      match DecodePageToken(s)
      case Err(e) => Err(e)
      case Ok(t) => Ok(Some(t))
  }

  /** No next page is written as the empty token. */
  function WriteToken(t: Option<PageToken>): Result<string, CodecError> {
    match t
    case None => Ok("")
    case Some(v) => EncodePageToken(v)
  }

  /** What the service answers, given the alert rows, what its token decodes to, and whether the read fails. */
  function AnswerDecoded(
      rows: seq<Row<Notice>>, req: AlertsRequest, token: Result<Option<PageToken>, CodecError>, fault: bool)
    : AlertsReply
  {
    if !ValidAlertsRequest(req) then InvalidRequest
    else
      match token
      case Err(_) => BadToken
      case Ok(cursor) =>
        match AnswerPage(rows, req.deviceId, req.timeframe, PageOptions(ClampSize(req.pageSize), cursor), fault)
        case Err(_) => RepositoryFailed
        case Ok(Panicked) => Crashed
        case Ok(Returned(page)) =>
          match WriteToken(page.next)
          case Err(_) => TokenUnencodable
          case Ok(next) => Alerts(page.items, next)
  }

  function AnswerAlerts(rows: seq<Row<Notice>>, req: AlertsRequest, fault: bool): AlertsReply {
    AnswerDecoded(rows, req, ReadToken(req.pageToken), fault)
  }

  class DeviceService {
    const repo: DeviceRepository

    constructor (repo: DeviceRepository)
      ensures this.repo == repo
    {
      this.repo := repo;
    }

    method ConfigureDevice(deviceId: string, config: Config, faults: Faults) returns (reply: Reply)
      modifies repo
      ensures
        var (db, c) := Finish(old(repo.Contents()), Client(Configure(deviceId, config), faults, Ready));
        repo.Contents() == db && reply == c.pc.reply
      ensures
        var inRange := && !IsBlank(deviceId)
                       && -10_000.0 <= config.temperatureThreshold <= 10_000.0
                       && 0 <= config.batteryThreshold <= 100;
        && (reply == Invalid <==> !inRange)
        && (reply == WriteFailed <==> inRange && faults.write)
        && (reply == Success <==> inRange && !faults.write)
      ensures repo.Contents() ==
              if reply == Success then old(repo.Contents()).(configs := old(repo.configs)[deviceId := config])
              else old(repo.Contents())
    {
      if !Valid(Configure(deviceId, config)) { return Invalid; }
      var ok := repo.UpsertDeviceConfig(deviceId, config, faults.write);
      if !ok { return WriteFailed; }
      return Success;
    }

    method RecordMetric(deviceId: string, temperature: real, battery: int, time: Instant, faults: Faults)
      returns (reply: Reply)
      modifies repo
      ensures
        var (db, c) :=
          Finish(old(repo.Contents()), Client(Record(deviceId, temperature, battery, time), faults, Ready));
        repo.Contents() == db && reply == c.pc.reply
    {
      var call := Record(deviceId, temperature, battery, time);
      // `c` is the client the reference run has reached: it finishes from here as it does from the start.
      ghost var c := Client(call, faults, Ready);
      ghost var outcome := Finish(repo.Contents(), c);
      if !Valid(call) { return Invalid; }

      ghost var db := repo.Contents();
      var ok := repo.SaveDeviceMetric(deviceId, MetricOf(call), faults.write);
      c := StepCall(db, c).1;
      assert outcome == Finish(repo.Contents(), c);
      if !ok { return WriteFailed; }

      db := repo.Contents();
      var read := repo.GetDeviceConfig(deviceId, faults.read);
      c := StepCall(db, c).1;
      assert outcome == Finish(repo.Contents(), c);
      if read.Err? && read.error == NotFound { return Success; }
      var config := if read.Ok? then read.value else ZERO_CONFIG;

      if temperature > config.temperatureThreshold {
        db := repo.Contents();
        ok := repo.SaveDeviceAlert(deviceId, AlertOf(call, config, TemperatureHigh), faults.temperatureAlert);
        c := StepCall(db, c).1;
        assert outcome == Finish(repo.Contents(), c);
        if !ok { return TemperatureAlertFailed; }
      }

      if battery < config.batteryThreshold {
        db := repo.Contents();
        ok := repo.SaveDeviceAlert(deviceId, AlertOf(call, config, BatteryLow), faults.batteryAlert);
        c := StepCall(db, c).1;
        assert outcome == Finish(repo.Contents(), c);
        if !ok { return BatteryAlertFailed; }
      }
      return Success;
    }

    method GetDeviceAlerts(req: AlertsRequest, fault: bool) returns (reply: AlertsReply)
      ensures reply == AnswerAlerts(repo.alerts.rows, req, fault)
    {
      if !ValidAlertsRequest(req) { return InvalidRequest; }
      var size := req.pageSize;
      if size == 0 {
        size := DEFAULT_PAGE_SIZE;
      } else if size > MAX_PAGE_SIZE {
        size := MAX_PAGE_SIZE;
      }
      var token: Option<PageToken> := None;
      if req.pageToken != "" {
        var decoded := DecodePageToken(req.pageToken);
        if decoded.Err? { return BadToken; }
        token := Some(decoded.value);
      }
      var answer := repo.GetDeviceAlerts(req.deviceId, req.timeframe, PageOptions(size, token), fault);
      match answer
      case Err(_) => return RepositoryFailed;
      case Ok(Panicked) => return Crashed;
      case Ok(Returned(page)) =>
        var next := "";
        if page.next.Some? {
          var encoded := EncodePageToken(page.next.value);
          if encoded.Err? { return TokenUnencodable; }
          next := encoded.value;
        }
        return Alerts(page.items, next);
    }
  }
}
