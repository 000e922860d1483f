/**
 Device isolation: what a client pages through for one device does not depend on the rows of
 other devices, although those rows take up ids of the same AUTOINCREMENT sequence.
 */
module Isolation {
  import opened Wrappers
  import opened Query
  import opened Repository
  import opened Paging

  /** The rows of one device. */
  function OfDevice<T>(rows: seq<Row<T>>, deviceId: string): seq<Row<T>> {
    if rows == [] then []
    else
      var r := rows[|rows| - 1];
      OfDevice(rows[..|rows| - 1], deviceId) + if r.deviceId == deviceId then [r] else []
  }

  /** The same history with every insert for another device deleted. */
  function WithoutOthers<T>(events: seq<Event<T>>, deviceId: string): seq<Event<T>> {
    if events == [] then []
    else
      var e := events[|events| - 1];
      WithoutOthers(events[..|events| - 1], deviceId)
      + if e.Insert? && e.deviceId != deviceId then [] else [e]
  }

  // ---------- renumbering ids ----------

  ghost predicate Monotone(rho: map<int, int>) {
    forall a, b :: a in rho && b in rho && a < b ==> rho[a] < rho[b]
  }

  function RenumberRow<T>(r: Row<T>, rho: map<int, int>): Row<T> {
    r.(id := if r.id in rho then rho[r.id] else 0)
  }

  function Renumber<T>(rows: seq<Row<T>>, rho: map<int, int>): (s: seq<Row<T>>)
    ensures |s| == |rows|
    ensures forall i :: 0 <= i < |rows| ==> s[i] == RenumberRow(rows[i], rho)
  {
    seq(|rows|, i requires 0 <= i < |rows| => RenumberRow(rows[i], rho))
  }

  ghost predicate Numbered<T(!new)>(rows: seq<Row<T>>, rho: map<int, int>) {
    forall i :: 0 <= i < |rows| ==> rows[i].id in rho
  }

  /** Parameters whose cursor id, if any, went through the renumbering. */
  predicate SameCursor(p: Params, p': Params, rho: map<int, int>) {
    && p' == p.(lastId := p'.lastId)
    && match p.lastId
       case None => p'.lastId.None?
       case Some(id) => id in rho && p'.lastId == Some(rho[id])
  }

  lemma {:induction false} PlaceRenumber<T(!new)>(s: seq<Row<T>>, r: Row<T>, rho: map<int, int>)
    requires Monotone(rho) && Numbered(s, rho) && r.id in rho
    ensures Place(Renumber(s, rho), RenumberRow(r, rho)) == Renumber(Place(s, r), rho)
  {
    if s != [] {
      var s' := Renumber(s, rho);
      assert Precedes(r, s[0]) <==> Precedes(RenumberRow(r, rho), s'[0]);
      if !Precedes(r, s[0]) {
        PlaceRenumber(s[1..], r, rho);
        assert s'[1..] == Renumber(s[1..], rho);
      }
    }
  }

  /** Sorting and selecting commute with a monotone renumbering. */
  lemma {:induction false} OrderedRenumber<T(!new)>(rows: seq<Row<T>>, p: Params, p': Params, rho: map<int, int>)
    requires Monotone(rho) && Numbered(rows, rho) && SameCursor(p, p', rho)
    ensures Numbered(Ordered(rows, p), rho)
    ensures Ordered(Renumber(rows, rho), p') == Renumber(Ordered(rows, p), rho)
  {
    if rows != [] {
      var init, r := rows[..|rows| - 1], rows[|rows| - 1];
      OrderedRenumber(init, p, p', rho);
      assert Renumber(rows, rho)[..|rows| - 1] == Renumber(init, rho);
      WhereExact(r, p);
      WhereExact(RenumberRow(r, rho), p');
      PlaceRenumber(Ordered(init, p), r, rho);
      PlaceNumbered(Ordered(init, p), r, rho);
    }
  }

  lemma PlaceNumbered<T(!new)>(s: seq<Row<T>>, r: Row<T>, rho: map<int, int>)
    requires Numbered(s, rho) && r.id in rho
    ensures Numbered(Place(s, r), rho)
  {
  }

  /** A query for a device sees only that device's rows. */
  lemma {:induction false} OrderedOfDevice<T(!new)>(rows: seq<Row<T>>, p: Params)
    ensures Ordered(rows, p) == Ordered(OfDevice(rows, p.deviceId), p)
  {
    if rows != [] {
      var init, r := rows[..|rows| - 1], rows[|rows| - 1];
      OrderedOfDevice(init, p);
      WhereExact(r, p);
      var kept := OfDevice(init, p.deviceId);
      assert (kept + [r])[..|kept + [r]| - 1] == kept;
      assert kept + [] == kept;
    }
  }

  // ---------- the two walks stay in step ----------

  /** `v` is `w` with the other devices' rows gone and the ids renumbered by `rho`. */
  ghost predicate InStep<T(!new)>(w: Walk<T>, v: Walk<T>, rho: map<int, int>, deviceId: string) {
    && Monotone(rho)
    && (forall a :: a in rho ==> a <= w.table.last && rho[a] <= v.table.last)
    && Numbered(OfDevice(w.table.rows, deviceId), rho)
    && v.table.rows == Renumber(OfDevice(w.table.rows, deviceId), rho)
    && Numbered(w.got, rho)
    && v.got == Renumber(w.got, rho)
    && v.pages == w.pages
    && v.done == w.done
  }

  lemma RemainingInStep<T(!new)>(w: Walk<T>, v: Walk<T>, rho: map<int, int>, q: Request)
    requires InStep(w, v, rho, q.deviceId)
    ensures Numbered(Remaining(w, q), rho)
    ensures Remaining(v, q) == Renumber(Remaining(w, q), rho)
  {
    var rows := OfDevice(w.table.rows, q.deviceId);
    var p, p' := Whole(q), Whole(q);
    if w.got != [] {
      var last, last' := w.got[|w.got| - 1], v.got[|v.got| - 1];
      p := p.(lastTs := Some(last.timestamp), lastId := Some(last.id));
      p' := p'.(lastTs := Some(last'.timestamp), lastId := Some(last'.id));
    }
    OrderedOfDevice(w.table.rows, p);
    OrderedRenumber(rows, p, p', rho);
  }

  lemma RenumberExtended<T(!new)>(a: seq<Row<T>>, b: seq<Row<T>>, n: nat, rho: map<int, int>)
    requires Numbered(a, rho) && Numbered(b, rho) && n <= |b|
    ensures Numbered(a + b[..n], rho)
    ensures Renumber(a + b[..n], rho) == Renumber(a, rho) + Renumber(b, rho)[..n]
  {
  }

  lemma FetchInStep<T(!new)>(w: Walk<T>, v: Walk<T>, rho: map<int, int>, q: Request, size: int)
    requires InStep(w, v, rho, q.deviceId) && Inv(w, q) && Inv(v, q)
    requires 1 <= size < MAX_INT64
    ensures InStep(Step(w, q, NextPage(size)), Step(v, q, NextPage(size)), rho, q.deviceId)
  {
    if !w.done {
      RemainingInStep(w, v, rho, q);
      var n := FetchTakes(w, q, size);
      var n' := FetchTakes(v, q, size);
      RenumberExtended(w.got, Remaining(w, q), n, rho);
    }
  }

  lemma InsertInStep<T(!new)>(w: Walk<T>, v: Walk<T>, rho: map<int, int>, q: Request, item: Item<T>)
    returns (rho': map<int, int>)
    requires InStep(w, v, rho, q.deviceId)
    ensures InStep(Step(w, q, Insert(q.deviceId, item)), Step(v, q, Insert(q.deviceId, item)), rho', q.deviceId)
  {
    rho' := rho[w.table.last + 1 := v.table.last + 1];
    var w' := Step(w, q, Insert(q.deviceId, item));
    var v' := Step(v, q, Insert(q.deviceId, item));
    assert w'.table.rows[..|w'.table.rows| - 1] == w.table.rows;
    var rows, rows' := OfDevice(w.table.rows, q.deviceId), OfDevice(w'.table.rows, q.deviceId);
    assert rows' == rows + [w'.table.rows[|w.table.rows|]];
    assert forall i :: 0 <= i < |rows| ==> rows'[i] == rows[i];
    assert v'.table.rows == Renumber(rows', rho');
    assert v'.got == Renumber(w'.got, rho');
  }

  lemma {:induction false} RunInStep<T(!new)>(q: Request, events: seq<Event<T>>) returns (rho: map<int, int>)
    requires GoodSizes(events)
    ensures GoodSizes(WithoutOthers(events, q.deviceId))
    ensures InStep(
              Run(Begin(Table([], 0)), q, events),
              Run(Begin(Table([], 0)), q, WithoutOthers(events, q.deviceId)),
              rho, q.deviceId)
  {
    rho := map[];
    if events != [] {
      var init, e := events[..|events| - 1], events[|events| - 1];
      var kept := WithoutOthers(init, q.deviceId);
      rho := RunInStep(q, init);
      assert e in events;
      RunInv(Table([], 0), q, init);
      RunInv(Table([], 0), q, kept);
      assert (kept + [e])[..|kept + [e]| - 1] == kept;
      var w, v := Run(Begin(Table([], 0)), q, init), Run(Begin(Table([], 0)), q, kept);
      match e
      case NextPage(size) => FetchInStep(w, v, rho, q, size);
      case Insert(deviceId, item) =>
        if deviceId == q.deviceId {
          rho := InsertInStep(w, v, rho, q, item);
        } else {
          assert kept + [] == kept;
          OtherInsertInStep(w, v, rho, q, deviceId, item);
        }
    }
  }

  lemma OtherInsertInStep<T(!new)>(
      w: Walk<T>, v: Walk<T>, rho: map<int, int>, q: Request, deviceId: string, item: Item<T>)
    requires InStep(w, v, rho, q.deviceId) && deviceId != q.deviceId
    ensures InStep(Step(w, q, Insert(deviceId, item)), v, rho, q.deviceId)
  {
  }

  /**
   Deleting every insert for other devices changes neither the items a client is handed, nor how
   they are split into pages, nor when its walk ends.
   */
  lemma DeviceIsolation<T(!new)>(q: Request, events: seq<Event<T>>)
    requires GoodSizes(events)
    ensures
      var w := Run(Begin(Table([], 0)), q, events);
      var v := Run(Begin(Table([], 0)), q, WithoutOthers(events, q.deviceId));
      && ItemsOf(w.got) == ItemsOf(v.got)
      && w.pages == v.pages
      && w.done == v.done
  {
    var rho := RunInStep(q, events);
  }
}
