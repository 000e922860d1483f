/**
 A client that only sees strings: it repeats `GetDeviceAlerts`, passing back each token it was
 given, with any page sizes it likes. It is handed what the walk over the repository returns.
 */
module EndToEnd {
  import opened Wrappers
  import opened Time
  import opened Query
  import opened Repository
  import opened Paging
  import opened PagingBounds
  import opened PageTokens
  import opened Service
  import Calendar
  import Calls

  /** The client's progress. `failed` is any reply that is not a page of alerts. */
  datatype Browse = Browse(table: Table<Notice>, token: string, done: bool, failed: bool, alerts: seq<Alert>)

  function Open(table: Table<Notice>): Browse {
    Browse(table, "", false, false, [])
  }

  function BrowseStep(b: Browse, q: Request, e: Event<Notice>): Browse {
    match e
    case Insert(deviceId, item) => b.(table := Append(b.table, deviceId, item))
    case NextPage(size) =>
      if b.done || b.failed then b
      else
        match AnswerAlerts(b.table.rows, AlertsRequest(q.deviceId, q.timeframe, size, b.token), false)
        case Alerts(alerts, next) => b.(token := next, done := next == "", alerts := b.alerts + alerts)
        case _ => b.(failed := true)
  }

  function BrowseRun(b: Browse, q: Request, events: seq<Event<Notice>>): Browse {
    if events == [] then b
    else BrowseStep(BrowseRun(b, q, events[..|events| - 1]), q, events[|events| - 1])
  }

  function ClampedEvent<T>(e: Event<T>): Event<T> {
    if e.NextPage? then NextPage(ClampSize(e.size)) else e
  }

  /** The same history with each requested size replaced by the one the service uses. */
  function Clamped<T>(events: seq<Event<T>>): seq<Event<T>> {
    if events == [] then []
    else
      var e := events[|events| - 1];
      Clamped(events[..|events| - 1]) + [ClampedEvent(e)]
  }

  /** Sizes as validation lets them through: zero means the default, and there is no upper limit. */
  predicate RequestedSizes<T>(events: seq<Event<T>>) {
    forall i :: 0 <= i < |events| && events[i].NextPage? ==> events[i].size >= 0
  }

  predicate EncodableRow<T>(r: Row<T>) {
    Calendar.Encodable(r.timestamp) && IsInt64(r.id)
  }

  /** Every stored time falls in years 0 to 9999, and the id counter stays within int64. */
  ghost predicate EncodableHistory<T(!new)>(table: Table<T>, events: seq<Event<T>>) {
    && (forall r :: r in table.rows ==> Calendar.Encodable(r.timestamp))
    && (forall i :: 0 <= i < |events| && events[i].Insert? ==> Calendar.Encodable(Unix(events[i].item.time)))
    && table.last + |events| <= MAX_INT64
  }

  // ---------- one request ----------

  /** The token for a cursor row is non-empty and brings exactly that cursor back. */
  lemma CursorToken<T(!new)>(r: Row<T>)
    requires EncodableRow(r)
    ensures
      var s := WriteToken(Some(TokenOf(r)));
      s.Ok? && s.value != "" && ReadToken(s.value) == Ok(Some(TokenOf(r)))
  {
    UnixFromUnix(r.timestamp);
    TokenRoundTrip(TokenOf(r));
  }

  /**
   A page cannot be handed out exactly when more than `size` rows match below the cursor and the year of
   the last of the first `size` has no text form.
   */
  lemma UnencodableIff(rows: seq<Row<Notice>>, req: AlertsRequest, token: Option<PageToken>)
    requires ValidAlertsRequest(req) && (token.Some? ==> token.value.lastTime.Some?)
    ensures
      var size := ClampSize(req.pageSize);
      var all := Ordered(rows, ParamsOf(req.deviceId, req.timeframe, PageOptions(size, token)));
      AnswerDecoded(rows, req, Ok(token), false) == TokenUnencodable <==>
        |all| > size && !Calendar.Encodable(all[size - 1].timestamp)
  {
    assert 1 <= ClampSize(req.pageSize) < MAX_INT64;
    hide Fetch, Ordered, ReadToken, DecodePageToken, ItemsOf, Calendar.Encodable;
    var size := ClampSize(req.pageSize);
    var all := Ordered(rows, ParamsOf(req.deviceId, req.timeframe, PageOptions(size, token)));
    FetchPage(rows, req.deviceId, req.timeframe, PageOptions(size, token));
    if |all| > size {
      UnixFromUnix(all[size - 1].timestamp);
    }
  }

  /** The first second of year 10000, as a device may report it. */
  const FAR_FUTURE := FromUnix(Calendar.MAX_ENCODABLE + 1)

  /** Two such alerts, asked for one at a time. */
  lemma UnencodableReached(n: Notice)
    ensures
      var alert := Item(n, FAR_FUTURE);
      var table := Append(Append(Table([], 0), "d", alert), "d", alert);
      var req := AlertsRequest("d", Timeframe(None, None), 1, "");
      ValidAlertsRequest(req) && AnswerAlerts(table.rows, req, false) == TokenUnencodable
  {
    var alert := Item(n, FAR_FUTURE);
    var one := Append(Table([], 0), "d", alert);
    var rows := Append(one, "d", alert).rows;
    var req := AlertsRequest("d", Timeframe(None, None), 1, "");
    var p := ParamsOf("d", Timeframe(None, None), PageOptions(1, None));
    assert !Calls.IsSpace("d"[0]);
    UnixFromUnix(Calendar.MAX_ENCODABLE + 1);
    assert rows[..1] == one.rows && one.rows[..0] == [];
    WhereExact(rows[0], p);
    WhereExact(rows[1], p);
    assert Ordered(one.rows, p) == [rows[0]];
    assert Ordered(rows, p) == [rows[1], rows[0]];
    UnencodableIff(rows, req, None);
  }

  /** Whatever decodes the tokens: a request crashes the service exactly when it decodes to a cursor without a time. */
  lemma CrashIff(
      rows: seq<Row<Notice>>, req: AlertsRequest, token: Result<Option<PageToken>, CodecError>, fault: bool)
    ensures AnswerDecoded(rows, req, token, fault) == Crashed <==>
              && ValidAlertsRequest(req)
              && token.Ok? && token.value.Some? && token.value.value.lastTime.None?
  {
    hide EncodePageToken, Select;
    if ValidAlertsRequest(req) && token.Ok? {
      var opts := PageOptions(ClampSize(req.pageSize), token.value);
      if opts.token.Some? ==> opts.token.value.lastTime.Some? {
        FetchPage(rows, req.deviceId, req.timeframe, opts);
      }
    }
  }

  /** Every valid request crashes with the token of a cursor without a time and an id, whatever is stored. */
  lemma CrashReached(rows: seq<Row<Notice>>, req: AlertsRequest, fault: bool)
    requires ValidAlertsRequest(req)
    ensures EncodePageToken(PageToken(None, None)).Ok?
    ensures AnswerAlerts(rows, req.(pageToken := EncodePageToken(PageToken(None, None)).value), fault) == Crashed
  {
    TokenRoundTrip(PageToken(None, None));
    var asked := req.(pageToken := EncodePageToken(PageToken(None, None)).value);
    CrashIff(rows, asked, ReadToken(asked.pageToken), fault);
  }

  /** A reply never exceeds what was asked for, nor 250 alerts; one with a successor is full, so never empty. */
  lemma ReplySize(
      rows: seq<Row<Notice>>, req: AlertsRequest, token: Result<Option<PageToken>, CodecError>, fault: bool)
    requires AnswerDecoded(rows, req, token, fault).Alerts?
    ensures
      var reply := AnswerDecoded(rows, req, token, fault);
      && 1 <= ClampSize(req.pageSize) <= MAX_PAGE_SIZE
      && (req.pageSize > 0 ==> |reply.alerts| <= req.pageSize)
      && |reply.alerts| <= ClampSize(req.pageSize)
      && (reply.nextPageToken != "" ==> |reply.alerts| == ClampSize(req.pageSize))
  {
    CrashIff(rows, req, token, fault);
    hide EncodePageToken, Select;
    FetchPage(rows, req.deviceId, req.timeframe, PageOptions(ClampSize(req.pageSize), token.value));
  }

  /** Validation asks for a device, times that are not zero and in order, and a size that is not negative. */
  lemma InvalidIff(req: AlertsRequest)
    ensures !ValidAlertsRequest(req) <==>
              || Calls.IsBlank(req.deviceId)
              || req.timeframe.start == Some(-62_135_596_800_000_000_000)
              || req.timeframe.end == Some(-62_135_596_800_000_000_000)
              || (req.timeframe.start.Some? && req.timeframe.end.Some?
                  && req.timeframe.end.value < req.timeframe.start.value)
              || req.pageSize < 0
  {
  }

  /** The time that counts as absent is the first second of year one. */
  lemma ZeroTime()
    ensures Calls.ZERO_TIME == FromUnix(Calendar.ToSeconds(Calendar.DateTime(1, 1, 1, 0, 0, 0)))
  {
  }

  /** Which requests are answered with what, but for a token that cannot be written. */
  lemma ReplyKinds(rows: seq<Row<Notice>>, req: AlertsRequest, fault: bool)
    ensures
      var reply := AnswerAlerts(rows, req, fault);
      var decoded := DecodePageToken(req.pageToken);
      var timeless := req.pageToken != "" && decoded.Ok? && decoded.value.lastTime.None?;
      && (reply == InvalidRequest <==> !ValidAlertsRequest(req))
      && (reply == BadToken <==> ValidAlertsRequest(req) && req.pageToken != "" && decoded.Err?)
      && (reply == Crashed <==> ValidAlertsRequest(req) && timeless)
      && (reply == RepositoryFailed <==>
            && ValidAlertsRequest(req) && (req.pageToken != "" ==> decoded.Ok?)
            && !timeless && fault)
  {
    CrashIff(rows, req, ReadToken(req.pageToken), fault);
    hide DecodePageToken, EncodePageToken, Fetch;
  }

  /** Without a cursor a fetch sees every matching row. */
  lemma FirstPage(rows: seq<Row<Notice>>, req: AlertsRequest, size: int)
    requires Increasing(rows)
    ensures Ordered(rows, ParamsOf(req.deviceId, req.timeframe, PageOptions(size, None)))
            == Matching(rows, Request(req.deviceId, req.timeframe))
  {
    var q := Request(req.deviceId, req.timeframe);
    OrderedCorrect(rows, ParamsOf(req.deviceId, req.timeframe, PageOptions(size, None)));
    OrderedCorrect(rows, Whole(q));
    DescendingUnique(Ordered(rows, ParamsOf(req.deviceId, req.timeframe, PageOptions(size, None))), Matching(rows, q));
  }

  /** The rows behind the first page, and the row its token is made from. */
  lemma FirstFetch(rows: seq<Row<Notice>>, req: AlertsRequest, size: int) returns (page: RowPage<Notice>)
    requires Increasing(rows) && 1 <= size <= 250
    requires forall r :: r in rows ==> EncodableRow(r)
    ensures
      var all := Matching(rows, Request(req.deviceId, req.timeframe));
      && AnswerPage(rows, req.deviceId, req.timeframe, PageOptions(size, None), false)
         == Ok(Returned(Page(ItemsOf(page.rows), page.next)))
      && page.rows == all[..if |all| <= size then |all| else size]
      && page.next == (if |all| > size then Some(TokenOf(all[size - 1])) else None)
      && (|all| > size ==> EncodableRow(all[size - 1]))
  {
    var all := Matching(rows, Request(req.deviceId, req.timeframe));
    var opts := PageOptions(size, None);
    FirstPage(rows, req, size);
    FetchPage(rows, req.deviceId, req.timeframe, opts);
    OrderedCorrect(rows, Whole(Request(req.deviceId, req.timeframe)));
    hide Ordered, Fetch, EncodableRow, Increasing;
    page := Fetch(rows, req.deviceId, req.timeframe, opts).page;
    if |all| > size {
      assert all[size - 1] in all;
    }
  }

  /** A row is handed out with its time in whole seconds. */
  lemma Handed(rows: seq<Row<Notice>>)
    ensures forall i :: 0 <= i < |rows| ==> ItemsOf(rows)[i] == Item(rows[i].body, rows[i].timestamp * 1_000_000_000)
  {
  }

  lemma FirstAnswer(rows: seq<Row<Notice>>, req: AlertsRequest, got: seq<Row<Notice>>, next: Option<PageToken>)
    requires ValidAlertsRequest(req) && req.pageToken == "" && WriteToken(next).Ok?
    requires AnswerPage(rows, req.deviceId, req.timeframe, PageOptions(ClampSize(req.pageSize), None), false)
             == Ok(Returned(Page(ItemsOf(got), next)))
    ensures AnswerAlerts(rows, req, false) == Alerts(ItemsOf(got), WriteToken(next).value)
  {
    hide AnswerPage, WriteToken, ItemsOf, ValidAlertsRequest, ClampSize;
  }

  lemma LastToken()
    ensures WriteToken(None) == Ok("")
  {
  }

  /**
   The first page, with the sizes written out: 100 alerts if no size is asked for, otherwise as many as asked
   for but no more than 250; the newest matching ones, with their times cut to the second; and a token exactly
   when more match.
   */
  lemma FirstReply(rows: seq<Row<Notice>>, req: AlertsRequest)
    requires ValidAlertsRequest(req) && req.pageToken == "" && forall r :: r in rows ==> EncodableRow(r)
    requires Increasing(rows)
    ensures
      var all := Matching(rows, Request(req.deviceId, req.timeframe));
      var size := if req.pageSize == 0 then 100 else if req.pageSize <= 250 then req.pageSize else 250;
      var reply := AnswerAlerts(rows, req, false);
      && reply.Alerts?
      && |reply.alerts| == (if |all| <= size then |all| else size)
      && (forall i :: 0 <= i < |reply.alerts| ==>
            reply.alerts[i] == Item(all[i].body, all[i].timestamp * 1_000_000_000))
      && (reply.nextPageToken != "" <==> |all| > size)
  {
    var size := ClampSize(req.pageSize);
    var all := Matching(rows, Request(req.deviceId, req.timeframe));
    hide Fetch, WriteToken, Ordered, AnswerPage, AnswerAlerts, Matching, EncodableRow, Increasing;
    var page := FirstFetch(rows, req, size);
    if |all| > size {
      CursorToken(all[size - 1]);
    } else {
      LastToken();
    }
    FirstAnswer(rows, req, page.rows, page.next);
    hide ValidAlertsRequest, ClampSize, ReadToken, TokenOf;
    Handed(page.rows);
  }

  // ---------- the two levels run in step ----------

  ghost predicate SameProgress(b: Browse, w: Walk<Notice>) {
    && !b.failed
    && b.table == w.table
    && b.done == w.done
    && b.alerts == ItemsOf(w.got)
    && (b.token == "" <==> w.token.None?)
    && ReadToken(b.token) == Ok(w.token)
  }

  /** One request over a readable token answers with the items of the page and a readable next token. */
  lemma PageReply(rows: seq<Row<Notice>>, q: Request, size: int, s: string, token: Option<PageToken>)
    requires ValidAlertsRequest(AlertsRequest(q.deviceId, q.timeframe, 0, "")) && size >= 0
    requires ReadToken(s) == Ok(token) && (token.Some? ==> token.value.lastTime.Some?)
    requires Fetch(rows, q.deviceId, q.timeframe, PageOptions(ClampSize(size), token)).Returned?
    requires
      var page := Fetch(rows, q.deviceId, q.timeframe, PageOptions(ClampSize(size), token)).page;
      page.next.Some? ==> page.rows != [] && EncodableRow(page.rows[|page.rows| - 1])
                          && page.next.value == TokenOf(page.rows[|page.rows| - 1])
    ensures
      var page := Fetch(rows, q.deviceId, q.timeframe, PageOptions(ClampSize(size), token)).page;
      var reply := AnswerAlerts(rows, AlertsRequest(q.deviceId, q.timeframe, size, s), false);
      && reply.Alerts?
      && reply.alerts == ItemsOf(page.rows)
      && (reply.nextPageToken == "" <==> page.next.None?)
      && ReadToken(reply.nextPageToken) == Ok(page.next)
  {
    hide Fetch, EncodePageToken, DecodePageToken, EncodableRow;
    var page := Fetch(rows, q.deviceId, q.timeframe, PageOptions(ClampSize(size), token)).page;
    if page.next.Some? {
      CursorToken(page.rows[|page.rows| - 1]);
    }
  }

  /** The page a walk fetches next satisfies what `PageReply` asks for. */
  lemma NextPageEncodable(w: Walk<Notice>, q: Request, size: int)
    requires Inv(w, q) && !w.done && 1 <= size < MAX_INT64
    requires forall r :: r in w.table.rows ==> EncodableRow(r)
    ensures w.token.Some? ==> w.token.value.lastTime.Some?
    ensures Fetch(w.table.rows, q.deviceId, q.timeframe, PageOptions(size, w.token)).Returned?
    ensures
      var page := Fetch(w.table.rows, q.deviceId, q.timeframe, PageOptions(size, w.token)).page;
      page.next.Some? ==> page.rows != [] && EncodableRow(page.rows[|page.rows| - 1])
                          && page.next.value == TokenOf(page.rows[|page.rows| - 1])
  {
    Visible(w, q, size);
    FetchPage(w.table.rows, q.deviceId, q.timeframe, PageOptions(size, w.token));
    var all := Ordered(w.table.rows, ParamsOf(q.deviceId, q.timeframe, PageOptions(size, w.token)));
    if |all| > size {
      assert all[size - 1] in all;
    }
  }

  lemma FetchSameProgress(b: Browse, w: Walk<Notice>, q: Request, size: int)
    requires Inv(w, q) && SameProgress(b, w) && !w.done && size >= 0
    requires ValidAlertsRequest(AlertsRequest(q.deviceId, q.timeframe, 0, ""))
    requires forall r :: r in w.table.rows ==> EncodableRow(r)
    ensures SameProgress(BrowseStep(b, q, NextPage(size)), Step(w, q, NextPage(ClampSize(size))))
  {
    hide Fetch, AnswerAlerts, AnswerDecoded, ReadToken, ValidAlertsRequest, EncodableRow, Midway, ValidTable,
      Descending;
    var used := ClampSize(size);
    NextPageEncodable(w, q, used);
    PageReply(w.table.rows, q, size, b.token, w.token);
    var page := Fetch(w.table.rows, q.deviceId, q.timeframe, PageOptions(used, w.token)).page;
    assert !w.panicked;
    ItemsOfConcat(w.got, page.rows);
  }

  lemma {:induction false} ClampedGood<T(!new)>(events: seq<Event<T>>)
    requires RequestedSizes(events)
    ensures GoodSizes(Clamped(events)) && |Clamped(events)| == |events|
  {
    if events != [] {
      ClampedGood(events[..|events| - 1]);
    }
  }

  lemma {:induction false} EncodableRun<T(!new)>(table: Table<T>, q: Request, events: seq<Event<T>>)
    requires ValidTable(table) && EncodableHistory(table, events) && RequestedSizes(events)
    ensures
      var t := Run(Begin(table), q, Clamped(events)).table;
      && ValidTable(t)
      && t.last <= table.last + |events|
      && forall r :: r in t.rows ==> EncodableRow(r)
  {
    if events != [] {
      var init, e := events[..|events| - 1], events[|events| - 1];
      EncodableRun(table, q, init);
      var kept := Clamped(init);
      assert Clamped(events)[..|Clamped(events)| - 1] == kept;
      var w := Run(Begin(table), q, kept);
      if e.Insert? {
        AppendValid(w.table, e.deviceId, e.item);
      }
    }
  }

  lemma StepSameProgress(b: Browse, w: Walk<Notice>, q: Request, e: Event<Notice>)
    requires Inv(w, q) && SameProgress(b, w) && (e.NextPage? ==> e.size >= 0)
    requires ValidAlertsRequest(AlertsRequest(q.deviceId, q.timeframe, 0, ""))
    requires forall r :: r in w.table.rows ==> EncodableRow(r)
    ensures SameProgress(BrowseStep(b, q, e), Step(w, q, ClampedEvent(e)))
  {
    if e.NextPage? && !w.done {
      FetchSameProgress(b, w, q, e.size);
    }
  }

  lemma {:induction false} RunSameProgress(table: Table<Notice>, q: Request, events: seq<Event<Notice>>)
    requires ValidTable(table) && EncodableHistory(table, events) && RequestedSizes(events)
    requires ValidAlertsRequest(AlertsRequest(q.deviceId, q.timeframe, 0, ""))
    ensures SameProgress(BrowseRun(Open(table), q, events), Run(Begin(table), q, Clamped(events)))
  {
    if events != [] {
      var init, e := events[..|events| - 1], events[|events| - 1];
      RunSameProgress(table, q, init);
      var kept := Clamped(init);
      assert Clamped(events)[..|Clamped(events)| - 1] == kept;
      ClampedGood(init);
      RunInv(table, q, kept);
      EncodableRun(table, q, init);
      var w, b := Run(Begin(table), q, kept), BrowseRun(Open(table), q, init);
      StepSameProgress(b, w, q, e);
    }
  }

  // ---------- the theorems ----------

  /**
   Whatever other clients insert meanwhile, the strings carry the client through the same walk as
   the cursors inside them: no request fails or panics, and the alerts and the end are the same.
   */
  lemma EndToEndWalk(table: Table<Notice>, q: Request, events: seq<Event<Notice>>)
    requires ValidTable(table) && EncodableHistory(table, events) && RequestedSizes(events)
    requires ValidAlertsRequest(AlertsRequest(q.deviceId, q.timeframe, 0, ""))
    ensures
      var b := BrowseRun(Open(table), q, events);
      var w := Run(Begin(table), q, Clamped(events));
      && GoodSizes(Clamped(events))
      && !b.failed
      && b.done == w.done
      && b.alerts == ItemsOf(w.got)
  {
    RunSameProgress(table, q, events);
    ClampedGood(events);
  }

  /** With nothing inserted, a finished walk has returned exactly the alerts of one full, sorted, filtered read. */
  lemma EndToEndStatic(table: Table<Notice>, q: Request, events: seq<Event<Notice>>)
    requires ValidTable(table) && EncodableHistory(table, events) && RequestedSizes(events) && OnlyFetches(events)
    requires ValidAlertsRequest(AlertsRequest(q.deviceId, q.timeframe, 0, ""))
    ensures
      var b := BrowseRun(Open(table), q, events);
      && !b.failed
      && b.alerts <= ItemsOf(Matching(table.rows, q))
      && (b.done ==> b.alerts == ItemsOf(Matching(table.rows, q)))
      && (|events| > |Matching(table.rows, q)| ==> b.done)
  {
    RunSameProgress(table, q, events);
    ClampedGood(events);
    ClampedOnlyFetches(events);
    StaticWalk(table, q, Clamped(events));
    var w := Run(Begin(table), q, Clamped(events));
    ItemsOfConcat(w.got, Remaining(w, q));
    WalkProgress(table, q, Clamped(events));
  }

  lemma {:induction false} ClampedOnlyFetches<T(!new)>(events: seq<Event<T>>)
    requires OnlyFetches(events)
    ensures |Clamped(events)| == |events| && OnlyFetches(Clamped(events))
  {
    if events != [] {
      ClampedOnlyFetches(events[..|events| - 1]);
    }
  }

  /** An unfinished walk has gained at least one row per fetch. */
  lemma {:induction false} WalkProgress<T(!new)>(table: Table<T>, q: Request, events: seq<Event<T>>)
    requires ValidTable(table) && GoodSizes(events) && OnlyFetches(events)
    ensures
      var w := Run(Begin(table), q, events);
      !w.done ==> |events| <= |w.got| <= |Matching(table.rows, q)|
  {
    if events != [] {
      var init, e := events[..|events| - 1], events[|events| - 1];
      WalkProgress(table, q, init);
      assert e in events;
      RunInv(table, q, init);
      var w := Run(Begin(table), q, init);
      if !w.done { FetchStep(w, q, e.size); }
      StaticWalk(table, q, events);
    }
  }

  lemma ClampedPositive(size: nat)
    ensures 1 <= ClampSize(size) < MAX_INT64
  {
  }

  /** Clamping changes sizes only. */
  lemma {:induction false} ClampedCounts<T(!new)>(q: Request, events: seq<Event<T>>, size: nat)
    requires FixedSize(events, size)
    ensures FixedSize(Clamped(events), ClampSize(size))
    ensures Fetches(Clamped(events)) == Fetches(events)
    ensures MatchingInserts(Clamped(events), q) == MatchingInserts(events, q)
    ensures |Clamped(events)| == |events|
  {
    if events != [] {
      var init := events[..|events| - 1];
      ClampedCounts(q, init, size);
      assert Clamped(events)[..|Clamped(events)| - 1] == Clamped(init);
    }
  }

  lemma FixedRequested<T(!new)>(events: seq<Event<T>>, size: nat)
    requires FixedSize(events, size)
    ensures RequestedSizes(events)
  {
  }

  lemma ClampedBounded(table: Table<Notice>, q: Request, events: seq<Event<Notice>>, size: nat)
    requires ValidTable(table) && GoodSizes(Clamped(events)) && FixedSize(events, size)
    ensures
      var n := |Matching(table.rows, q)| + MatchingInserts(events, q);
      Fetches(events) >= PageCount(n, ClampSize(size)) ==> Run(Begin(table), q, Clamped(events)).done
  {
    ClampedPositive(size);
    hide *;
    ClampedCounts(q, events, size);
    BoundedWalk(table, q, Clamped(events), ClampSize(size));
  }

  /**
   A client that always asks for the same size has the last page after at most
   max(1, ceil((n + k) / size)) requests, for the size the service uses, `n` matching alerts at the
   start and `k` inserted meanwhile.
   */
  lemma EndToEndBounded(table: Table<Notice>, q: Request, events: seq<Event<Notice>>, size: nat)
    requires ValidTable(table) && EncodableHistory(table, events) && FixedSize(events, size)
    requires ValidAlertsRequest(AlertsRequest(q.deviceId, q.timeframe, 0, ""))
    ensures
      var n := |Matching(table.rows, q)| + MatchingInserts(events, q);
      Fetches(events) >= PageCount(n, ClampSize(size)) ==> BrowseRun(Open(table), q, events).done
  {
    ClampedPositive(size);
    hide *;
    FixedRequested(events, size);
    EndToEndWalk(table, q, events);
    ClampedBounded(table, q, events, size);
  }

  /** With nothing inserted it takes exactly max(1, ceil(n / size)) requests. */
  lemma EndToEndPageCount(table: Table<Notice>, q: Request, events: seq<Event<Notice>>, size: nat)
    requires ValidTable(table) && EncodableHistory(table, events) && FixedSize(events, size) && OnlyFetches(events)
    requires ValidAlertsRequest(AlertsRequest(q.deviceId, q.timeframe, 0, ""))
    ensures BrowseRun(Open(table), q, events).done
            <==> |events| >= PageCount(|Matching(table.rows, q)|, ClampSize(size))
  {
    ClampedPositive(size);
    hide *;
    FixedRequested(events, size);
    EndToEndWalk(table, q, events);
    ClampedCounts(q, events, size);
    ClampedOnlyFetches(events);
    StaticPageCount(table, q, Clamped(events), ClampSize(size));
  }
}
