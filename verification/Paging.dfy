/**
 A client follows next-page tokens through one query while other clients insert rows between
 its fetches. Page sizes may differ from fetch to fetch.
 */
module Paging {
  import opened Wrappers
  import opened Time
  import opened Query
  import opened Repository

  /** What the client asks for on every page. */
  datatype Request = Request(deviceId: string, timeframe: Timeframe)

  /** Something that happens to the table, or the client fetching its next page. */
  datatype Event<T> = Insert(deviceId: string, item: Item<T>) | NextPage(size: int)

  /** The client's progress. `first` is the table as the first fetch saw it. */
  datatype Walk<T> = Walk(
    table: Table<T>,
    token: Option<PageToken>,
    done: bool,
    panicked: bool,
    got: seq<Row<T>>,
    pages: seq<nat>,
    first: seq<Row<T>>)

  function Begin<T>(table: Table<T>): Walk<T> {
    Walk(table, None, false, false, [], [], [])
  }

  function Step<T>(w: Walk<T>, q: Request, e: Event<T>): Walk<T> {
    match e
    case Insert(deviceId, item) => w.(table := Append(w.table, deviceId, item))
    case NextPage(size) =>
      if w.done || w.panicked then w
      else
        match Fetch(w.table.rows, q.deviceId, q.timeframe, PageOptions(size, w.token))
        case Panicked => w.(panicked := true)
        case Returned(page) =>
          w.(token := page.next,
             done := page.next.None?,
             got := w.got + page.rows,
             pages := w.pages + [|page.rows|],
             first := if w.pages == [] then w.table.rows else w.first)
  }

  function Run<T>(w: Walk<T>, q: Request, events: seq<Event<T>>): Walk<T> {
    if events == [] then w
    else Step(Run(w, q, events[..|events| - 1]), q, events[|events| - 1])
  }

  /** The query with no cursor and no limit: the read that paging replaces. */
  function Whole(q: Request): Params {
    Params(q.deviceId, UnixOption(q.timeframe.start), UnixOption(q.timeframe.end), None, None, -1)
  }

  predicate Matches<T>(r: Row<T>, q: Request) {
    Keep(r, Whole(q))
  }

  function Matching<T>(table: seq<Row<T>>, q: Request): seq<Row<T>> {
    Ordered(table, Whole(q))
  }

  ghost predicate GoodSizes<T(!new)>(events: seq<Event<T>>) {
    forall e :: e in events && e.NextPage? ==> 1 <= e.size < MAX_INT64
  }

  lemma ItemsAround<T>(rows: seq<Row<T>>, k: nat, r: Row<T>)
    requires k <= |rows|
    ensures ItemsOf(rows[..k] + [r] + rows[k..]) == ItemsOf(rows)[..k] + [ItemOf(r)] + ItemsOf(rows)[k..]
  {
    var before, after := rows[..k], rows[k..];
    assert rows == before + after;
    assert ItemsOf([r]) == [ItemOf(r)];
    hide *;
    ItemsOfConcat(before, after);
    ItemsOfConcat(before, [r]);
    ItemsOfConcat(before + [r], after);
  }

  /** The row of an insert, if it matches, is put in its place. */
  lemma MatchingAppended<T(!new)>(t: Table<T>, deviceId: string, item: Item<T>, q: Request)
    ensures
      var r := Row(t.last + 1, deviceId, Unix(item.time), item.body);
      Matching(Append(t, deviceId, item).rows, q)
      == if Matches(r, q) then Place(Matching(t.rows, q), r) else Matching(t.rows, q)
  {
    var t', r := Append(t, deviceId, item), Row(t.last + 1, deviceId, Unix(item.time), item.body);
    assert t'.rows[..|t'.rows| - 1] == t.rows;
    WhereExact(r, Whole(q));
  }

  /**
   What was saved is found: a record whose exact time lies in the requested timeframe is put into
   the full read once, its time cut to the second; one of another device, or a second or more outside, changes
   nothing; and no other record moves.
   */
  lemma SavedIsFound<T(!new)>(t: Table<T>, deviceId: string, item: Item<T>, q: Request) returns (hit: bool, k: nat)
    ensures deviceId == q.deviceId && Within(item.time, q.timeframe.start, q.timeframe.end) ==> hit
    ensures hit ==> deviceId == q.deviceId && NearlyWithin(item.time, q.timeframe.start, q.timeframe.end)
    ensures
      var saved := Item(item.body, FromUnix(Unix(item.time)));
      var before, after := ItemsOf(Matching(t.rows, q)), ItemsOf(Matching(Append(t, deviceId, item).rows, q));
      && k <= |before|
      && after == if hit then before[..k] + [saved] + before[k..] else before
  {
    var r, rows := Row(t.last + 1, deviceId, Unix(item.time), item.body), Matching(t.rows, q);
    TruncatedWindow(item.time, q.timeframe.start, q.timeframe.end);
    hit := Matches(r, q);
    MatchingAppended(t, deviceId, item, q);
    k := PlaceAt(rows, r);
    hide Place, Matching, Append;
    ItemsAround(rows, k, r);
  }

  // ---------- the invariant of a walk ----------

  /** Between pages there is a cursor row, a token made from it, and a matching row still below it. */
  ghost predicate Midway<T(!new)>(w: Walk<T>, q: Request) {
    && w.got != []
    && w.token == Some(TokenOf(w.got[|w.got| - 1]))
    && exists r :: r in w.table.rows && Matches(r, q) && Precedes(w.got[|w.got| - 1], r)
  }

  ghost predicate Inv<T(!new)>(w: Walk<T>, q: Request) {
    && ValidTable(w.table)
    && !w.panicked
    && Descending(w.got)
    && (forall r :: r in w.got ==> r in w.table.rows && Matches(r, q))
    && (forall r :: r in w.first ==> r in w.table.rows)
    && (w.pages == [] ==> w.got == [] && w.token.None? && !w.done)
    && (w.pages != [] && !w.done ==> Midway(w, q))
    && (w.pages != [] ==>
          forall r :: r in w.first && Matches(r, q) && r !in w.got ==>
            !w.done && Precedes(w.got[|w.got| - 1], r))
  }

  /** The rows a fetch can see: the matching ones below the client's last row. */
  lemma Visible<T(!new)>(w: Walk<T>, q: Request, size: int)
    requires Inv(w, q) && !w.done
    ensures w.token.Some? ==> w.token.value.lastTime.Some?
    ensures
      var all := Ordered(w.table.rows, ParamsOf(q.deviceId, q.timeframe, PageOptions(size, w.token)));
      && Descending(all)
      && forall r :: r in all <==>
           r in w.table.rows && Matches(r, q) && (w.got == [] || Precedes(w.got[|w.got| - 1], r))
  {
    var p := ParamsOf(q.deviceId, q.timeframe, PageOptions(size, w.token));
    OrderedCorrect(w.table.rows, p);
    if w.got != [] {
      UnixFromUnix(w.got[|w.got| - 1].timestamp);
    }
  }

  /** Rows taken from the front of what lies below a descending sequence extend it. */
  lemma ExtendDescending<T(!new)>(got: seq<Row<T>>, all: seq<Row<T>>, n: nat)
    requires Descending(got) && Descending(all) && n <= |all|
    requires got != [] ==> forall r :: r in all ==> Precedes(got[|got| - 1], r)
    ensures Descending(got + all[..n])
  {
    var s := got + all[..n];
    forall i, j | 0 <= i < j < |s| ensures Precedes(s[i], s[j]) {
      if i < |got| <= j {
        assert all[j - |got|] in all;
        assert i == |got| - 1 || Precedes(got[i], got[|got| - 1]);
      }
    }
  }

  /** A row of a descending sequence below its entry `n - 1` sits at `n` or later. */
  lemma IndexBelow<T(!new)>(s: seq<Row<T>>, n: nat, r: Row<T>) returns (i: nat)
    requires Descending(s) && r in s && n <= |s| && (n > 0 ==> Precedes(s[n - 1], r))
    ensures n <= i < |s| && s[i] == r
  {
    i :| 0 <= i < |s| && s[i] == r;
  }

  /** A row of `all` that is not among its first `n` lies below them. */
  lemma BelowTaken<T(!new)>(all: seq<Row<T>>, n: nat, r: Row<T>)
    requires Descending(all) && n <= |all| && r in all && r !in all[..n]
    ensures n < |all|
    ensures n > 0 ==> Precedes(all[n - 1], r)
  {
  }

  /** What one fetch in the middle of a walk does: it takes up to `size` of the remaining rows. */
  lemma FetchTakes<T(!new)>(w: Walk<T>, q: Request, size: int) returns (n: nat)
    requires Inv(w, q) && !w.done && 1 <= size < MAX_INT64
    ensures
      var w' := Step(w, q, NextPage(size));
      var all := Remaining(w, q);
      && n == (if |all| <= size then |all| else size)
      && w' == w.(token := w'.token, done := |all| <= size, got := w.got + all[..n], pages := w.pages + [n],
                  first := if w.pages == [] then w.table.rows else w.first)
      && (!w'.done ==> w'.token == Some(TokenOf(all[n - 1])))
      && (w'.done ==> w'.token.None?)
  {
    var opts := PageOptions(size, w.token);
    Visible(w, q, size);
    RemainingCorrect(w, q);
    DescendingUnique(Ordered(w.table.rows, ParamsOf(q.deviceId, q.timeframe, opts)), Remaining(w, q));
    FetchPage(w.table.rows, q.deviceId, q.timeframe, opts);
    n := if |Remaining(w, q)| <= size then |Remaining(w, q)| else size;
  }

  /** The walk once it has taken the first `n` of the remaining rows, `all`. */
  ghost predicate Took<T(!new)>(w: Walk<T>, w': Walk<T>, all: seq<Row<T>>, n: nat) {
    && n <= |all|
    && w'.table == w.table && w'.panicked == w.panicked
    && w'.got == w.got + all[..n]
    && w'.pages == w.pages + [n]
    && w'.first == (if w.pages == [] then w.table.rows else w.first)
    && (w'.done <==> n == |all|)
    && (!w'.done ==> n > 0 && w'.token == Some(TokenOf(all[n - 1])))
  }

  lemma TookMidway<T(!new)>(w: Walk<T>, w': Walk<T>, q: Request, all: seq<Row<T>>, n: nat)
    requires Took(w, w', all, n) && Descending(all) && !w'.done
    requires forall r :: r in all ==> r in w.table.rows && Matches(r, q)
    ensures Midway(w', q)
  {
    assert w'.got[|w'.got| - 1] == all[n - 1];
    assert all[n] in all && Precedes(all[n - 1], all[n]);
  }

  /** A row the first fetch saw and the client does not have yet still lies ahead. */
  lemma TookUnseen<T(!new)>(w: Walk<T>, w': Walk<T>, q: Request, all: seq<Row<T>>, n: nat, r: Row<T>)
    requires Inv(w, q) && !w.done && Took(w, w', all, n) && Descending(all)
    requires r in all <==> r in w.table.rows && Matches(r, q) && (w.got == [] || Precedes(w.got[|w.got| - 1], r))
    requires r in w'.first && Matches(r, q) && r !in w'.got
    ensures !w'.done && Precedes(w'.got[|w'.got| - 1], r)
  {
    assert r in all && r !in all[..n];
    BelowTaken(all, n, r);
  }

  lemma TookInv<T(!new)>(w: Walk<T>, w': Walk<T>, q: Request, all: seq<Row<T>>, n: nat)
    requires Inv(w, q) && !w.done && Took(w, w', all, n) && Descending(all)
    requires forall r :: r in all <==>
               r in w.table.rows && Matches(r, q) && (w.got == [] || Precedes(w.got[|w.got| - 1], r))
    ensures Inv(w', q)
  {
    ExtendDescending(w.got, all, n);
    if !w'.done {
      TookMidway(w, w', q, all, n);
    }
    hide Matches, Precedes, Midway;
    forall r | r in w'.got ensures r in w.table.rows && Matches(r, q) {
      assert r in w.got || r in all;
    }
    forall r | r in w'.first && Matches(r, q) && r !in w'.got
      ensures !w'.done && Precedes(w'.got[|w'.got| - 1], r)
    {
      TookUnseen(w, w', q, all, n, r);
    }
  }

  lemma FetchStep<T(!new)>(w: Walk<T>, q: Request, size: int)
    requires Inv(w, q) && !w.done && 1 <= size < MAX_INT64
    ensures Inv(Step(w, q, NextPage(size)), q)
    ensures Step(w, q, NextPage(size)).done || |Step(w, q, NextPage(size)).got| == |w.got| + size
    ensures w.pages != [] ==> |Step(w, q, NextPage(size)).got| > |w.got|
  {
    var all := Remaining(w, q);
    RemainingCorrect(w, q);
    if w.pages != [] {
      var r :| r in w.table.rows && Matches(r, q) && Precedes(w.got[|w.got| - 1], r);
      assert r in all;
    }
    hide Step, Remaining, Matches, Precedes, Midway;
    var n := FetchTakes(w, q, size);
    var w' := Step(w, q, NextPage(size));
    assert Took(w, w', all, n);
    TookInv(w, w', q, all, n);
  }

  lemma InsertStep<T(!new)>(w: Walk<T>, q: Request, deviceId: string, item: Item<T>)
    requires Inv(w, q)
    ensures Inv(Step(w, q, Insert(deviceId, item)), q)
  {
  }

  lemma {:induction false} RunInv<T(!new)>(table: Table<T>, q: Request, events: seq<Event<T>>)
    requires ValidTable(table) && GoodSizes(events)
    ensures Inv(Run(Begin(table), q, events), q)
  {
    if events != [] {
      var init, e := events[..|events| - 1], events[|events| - 1];
      RunInv(table, q, init);
      var w := Run(Begin(table), q, init);
      match e
      case Insert(deviceId, item) => InsertStep(w, q, deviceId, item);
      case NextPage(size) =>
        assert e in events;
        if !w.done { FetchStep(w, q, size); }
    }
  }

  // ---------- what a walk delivers under concurrent inserts ----------

  /**
   Whatever is inserted between fetches and whatever the page sizes: the pages together descend
   strictly (so no row comes twice), every row matches, and a finished walk has returned every
   matching row the first fetch could see.
   */
  lemma ConcurrentWalk<T(!new)>(table: Table<T>, q: Request, events: seq<Event<T>>)
    requires ValidTable(table) && GoodSizes(events)
    ensures
      var w := Run(Begin(table), q, events);
      && !w.panicked
      && Descending(w.got)
      && (forall i, j :: 0 <= i < j < |w.got| ==> w.got[i] != w.got[j])
      && (forall r :: r in w.got ==> r in w.table.rows && Matches(r, q))
      && (w.done ==> forall r :: r in w.first && Matches(r, q) ==> r in w.got)
  {
    RunInv(table, q, events);
    var w := Run(Begin(table), q, events);
    forall i, j | 0 <= i < j < |w.got| ensures w.got[i] != w.got[j] {
      assert Precedes(w.got[i], w.got[j]);
    }
  }

  /**
   One more fetch: the page is the first `size` of the matching rows that remain below the client's
   last row, it carries a token iff more than `size` remained, and after a token it is not empty.
   */
  lemma PageShape<T(!new)>(table: Table<T>, q: Request, events: seq<Event<T>>, size: int)
    requires ValidTable(table) && GoodSizes(events) && 1 <= size < MAX_INT64
    requires !Run(Begin(table), q, events).done
    ensures
      var w := Run(Begin(table), q, events);
      var w' := Step(w, q, NextPage(size));
      var remaining := Remaining(w, q);
      var n := if |remaining| <= size then |remaining| else size;
      && w'.got == w.got + remaining[..n]
      && (w'.token.Some? <==> |remaining| > size)
      && (w.token.Some? ==> n > 0)
      && Remaining(w', q) == remaining[n..]
  {
    RunInv(table, q, events);
    var w := Run(Begin(table), q, events);
    FetchStep(w, q, size);
    var n := FetchTakes(w, q, size);
    RemainingAfter(w, Step(w, q, NextPage(size)), q, n);
  }

  /** The matching rows below the client's last row. */
  function Remaining<T>(w: Walk<T>, q: Request): seq<Row<T>> {
    if w.got == [] then Matching(w.table.rows, q)
    else
      var last := w.got[|w.got| - 1];
      Ordered(w.table.rows, Whole(q).(lastTs := Some(last.timestamp), lastId := Some(last.id)))
  }

  lemma RemainingCorrect<T(!new)>(w: Walk<T>, q: Request)
    requires ValidTable(w.table)
    ensures Descending(Remaining(w, q))
    ensures forall r :: r in Remaining(w, q) <==>
              r in w.table.rows && Matches(r, q) && (w.got == [] || Precedes(w.got[|w.got| - 1], r))
  {
    if w.got == [] {
      OrderedCorrect(w.table.rows, Whole(q));
    } else {
      var last := w.got[|w.got| - 1];
      OrderedCorrect(w.table.rows, Whole(q).(lastTs := Some(last.timestamp), lastId := Some(last.id)));
    }
  }

  /** Taking the first `n` remaining rows leaves the others. */
  lemma RemainingAfter<T(!new)>(w: Walk<T>, w': Walk<T>, q: Request, n: nat)
    requires ValidTable(w.table) && w'.table == w.table
    requires n <= |Remaining(w, q)| && w'.got == w.got + Remaining(w, q)[..n]
    ensures Remaining(w', q) == Remaining(w, q)[n..]
  {
    var all := Remaining(w, q);
    RemainingCorrect(w, q);
    RemainingCorrect(w', q);
    if n > 0 {
      assert w'.got[|w'.got| - 1] == all[n - 1];
      assert all[n - 1] in all;
      forall r ensures r in all[n..] <==> r in Remaining(w', q) {
        if r in all[n..] {
          var i :| 0 <= i < |all[n..]| && all[n..][i] == r;
          assert all[n + i] == r && r in all;
          assert Precedes(all[n - 1], all[n + i]);
        }
        if r in Remaining(w', q) {
          assert r in all;
          var i := IndexBelow(all, n, r);
          assert all[n..][i - n] == r;
        }
      }
      DescendingUnique(all[n..], Remaining(w', q));
    } else {
      assert w'.got == w.got;
    }
  }
}
