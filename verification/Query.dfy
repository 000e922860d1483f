/**
 The two SELECT statements of the store (they differ only in the payload columns), with
 SQL's three-valued logic, the descending (timestamp, id) order and LIMIT.
 */
module Query {
  import opened Wrappers

  /** One row of `alerts` or `metrics`; every column is NOT NULL. */
  datatype Row<T> = Row(id: int, deviceId: string, timestamp: int, body: T)

  /** Bound query parameters; `None` is SQL NULL. */
  datatype Params = Params(
    deviceId: string,
    startTs: Option<int>,
    endTs: Option<int>,
    lastTs: Option<int>,
    lastId: Option<int>,
    limit: int)

  // ---------- three-valued logic ----------

  datatype Tri = True | False | Unknown

  function And3(a: Tri, b: Tri): Tri {
    if a.False? || b.False? then False
    else if a.True? && b.True? then True
    else Unknown
  }

  function Or3(a: Tri, b: Tri): Tri {
    if a.True? || b.True? then True
    else if a.False? && b.False? then False
    else Unknown
  }

  function Rank(a: Tri): int {
    match a
    case False => 0
    case Unknown => 1
    case True => 2
  }

  function Truth(b: bool): Tri {
    if b then True else False
  }

  /** `IS NULL` is the one test that is never Unknown. */
  function IsNull(x: Option<int>): Tri {
    Truth(x.None?)
  }

  function Compare(x: Option<int>, holds: int -> bool): Tri {
    match x
    case None => Unknown
    case Some(v) => Truth(holds(v))
  }

  /**
   With Unknown between False and True, AND is the lesser and OR the greater of the two; comparing with NULL is
   neither true nor false.
   */
  lemma ThreeValued(a: Tri, b: Tri, holds: int -> bool)
    ensures Rank(And3(a, b)) == if Rank(a) <= Rank(b) then Rank(a) else Rank(b)
    ensures Rank(Or3(a, b)) == if Rank(a) <= Rank(b) then Rank(b) else Rank(a)
    ensures Compare(None, holds) != True && Compare(None, holds) != False
  {
  }

  /** The WHERE clause, operator by operator. */
  function Where<T>(r: Row<T>, p: Params): Tri {
    And3(
      And3(
        And3(
          Truth(r.deviceId == p.deviceId),
          Or3(IsNull(p.startTs), Compare(p.startTs, v => r.timestamp >= v))),
        Or3(IsNull(p.endTs), Compare(p.endTs, v => r.timestamp <= v))),
      Or3(
        IsNull(p.lastTs),
        Or3(
          Compare(p.lastTs, v => r.timestamp < v),
          And3(
            Compare(p.lastTs, v => r.timestamp == v),
            Or3(IsNull(p.lastId), Compare(p.lastId, v => r.id < v))))))
  }

  // ---------- what the clause means ----------

  predicate InWindow(ts: int, startTs: Option<int>, endTs: Option<int>) {
    && (startTs.Some? ==> startTs.value <= ts)
    && (endTs.Some? ==> ts <= endTs.value)
  }

  /** (ts, id) lexicographically below (lastTs, lastId). */
  predicate LexBelow(ts: int, id: int, lastTs: int, lastId: int) {
    ts < lastTs || (ts == lastTs && id < lastId)
  }

  predicate BelowCursor(ts: int, id: int, lastTs: Option<int>, lastId: Option<int>) {
    if lastTs.None? then true
    else if lastId.None? then ts <= lastTs.value
    else LexBelow(ts, id, lastTs.value, lastId.value)
  }

  predicate Keep<T>(r: Row<T>, p: Params) {
    && r.deviceId == p.deviceId
    && InWindow(r.timestamp, p.startTs, p.endTs)
    && BelowCursor(r.timestamp, r.id, p.lastTs, p.lastId)
  }

  /** Three-valued evaluation selects exactly the rows the two-valued reading keeps, and is never Unknown. */
  lemma WhereExact<T(!new)>(r: Row<T>, p: Params)
    ensures Where(r, p) == True <==> Keep(r, p)
    ensures Where(r, p) != Unknown
  {
  }

  // ---------- ORDER BY timestamp DESC, id DESC ----------

  /** `a` comes strictly before `b` in the result order. */
  predicate Precedes<T>(a: Row<T>, b: Row<T>) {
    LexBelow(b.timestamp, b.id, a.timestamp, a.id)
  }

  ghost predicate Descending<T>(s: seq<Row<T>>) {
    forall i, j :: 0 <= i < j < |s| ==> Precedes(s[i], s[j])
  }

  /** Ids grow along the table: rows are only ever appended, under AUTOINCREMENT. */
  ghost predicate Increasing<T>(table: seq<Row<T>>) {
    forall i, j :: 0 <= i < j < |table| ==> table[i].id < table[j].id
  }

  function Place<T>(s: seq<Row<T>>, r: Row<T>): seq<Row<T>> {
    if s == [] then [r]
    else if Precedes(r, s[0]) then [r] + s
    else [s[0]] + Place(s[1..], r)
  }

  /** Every selected row of the table, in result order. */
  function Ordered<T>(table: seq<Row<T>>, p: Params): seq<Row<T>> {
    if table == [] then []
    else
      var rest := Ordered(table[..|table| - 1], p);
      var r := table[|table| - 1];
      if Where(r, p) == True then Place(rest, r) else rest
  }

  /** SQLite's LIMIT: a negative limit means no limit. */
  function Limited<T>(s: seq<Row<T>>, limit: int): seq<Row<T>> {
    if limit < 0 || |s| <= limit then s else s[..limit]
  }

  function Select<T>(table: seq<Row<T>>, p: Params): seq<Row<T>> {
    Limited(Ordered(table, p), p.limit)
  }

  /** Where a row is put: somewhere in between, with the others left in their order. */
  lemma {:induction false} PlaceAt<T>(s: seq<Row<T>>, r: Row<T>) returns (k: nat)
    ensures k <= |s| && Place(s, r) == s[..k] + [r] + s[k..]
  {
    k := 0;
    if s != [] && !Precedes(r, s[0]) {
      var j := PlaceAt(s[1..], r);
      k := j + 1;
      assert s[..k] == [s[0]] + s[1..][..j];
      assert s[k..] == s[1..][j..];
    }
  }

  lemma {:induction false} PlaceElements<T(!new)>(s: seq<Row<T>>, r: Row<T>)
    ensures |Place(s, r)| == |s| + 1
    ensures forall x :: x in Place(s, r) <==> x in s || x == r
  {
    if s != [] && !Precedes(r, s[0]) {
      PlaceElements(s[1..], r);
      assert s == [s[0]] + s[1..];
    }
  }

  lemma HeadPrecedes<T(!new)>(s: seq<Row<T>>, x: Row<T>)
    requires s != [] && Descending(s) && x in s[1..]
    ensures Precedes(s[0], x)
  {
  }

  lemma {:induction false} PlaceDescending<T(!new)>(s: seq<Row<T>>, r: Row<T>)
    requires Descending(s)
    requires forall x :: x in s ==> x.id != r.id
    ensures Descending(Place(s, r))
  {
    if s != [] && !Precedes(r, s[0]) {
      assert s[0] in s;
      PlaceDescending(s[1..], r);
      PlaceElements(s[1..], r);
      var rest := Place(s[1..], r);
      forall j | 0 <= j < |rest| ensures Precedes(s[0], rest[j]) {
        assert rest[j] in rest;
        assert rest[j] in s[1..] || rest[j] == r;
        if rest[j] in s[1..] {
          HeadPrecedes(s, rest[j]);
        }
      }
    } else if s != [] {
      forall j | 0 <= j < |s| ensures Precedes(r, s[j]) {
        assert j > 0 ==> Precedes(s[0], s[j]);
      }
    }
  }

  /** The query result is sorted and holds exactly the kept rows. */
  lemma {:induction false} OrderedCorrect<T(!new)>(table: seq<Row<T>>, p: Params)
    requires Increasing(table)
    ensures Descending(Ordered(table, p))
    ensures forall r :: r in Ordered(table, p) <==> r in table && Keep(r, p)
  {
    if table != [] {
      var init, r := table[..|table| - 1], table[|table| - 1];
      assert table == init + [r];
      OrderedCorrect(init, p);
      WhereExact(r, p);
      PlaceElements(Ordered(init, p), r);
      forall x | x in Ordered(init, p) ensures x.id != r.id {
        assert x in init;
        var i :| 0 <= i < |init| && init[i] == x;
        assert table[i].id < table[|table| - 1].id;
      }
      PlaceDescending(Ordered(init, p), r);
    }
  }

  /** Newest first; of the same second, the one inserted last first. */
  lemma NewestFirst<T(!new)>(table: seq<Row<T>>, p: Params, i: nat, j: nat)
    requires Increasing(table) && i < j < |Ordered(table, p)|
    ensures
      var a, b := Ordered(table, p)[i], Ordered(table, p)[j];
      a.timestamp > b.timestamp || (a.timestamp == b.timestamp && a.id > b.id)
  {
    OrderedCorrect(table, p);
    hide Ordered;
    assert Precedes(Ordered(table, p)[i], Ordered(table, p)[j]);
  }

  lemma Member<T(!new)>(s: seq<Row<T>>) returns (r: Row<T>)
    requires s != []
    ensures r in s
  {
    r := s[0];
  }

  /** A descending sequence is determined by its elements. */
  lemma {:induction false} DescendingUnique<T(!new)>(a: seq<Row<T>>, b: seq<Row<T>>)
    requires Descending(a) && Descending(b)
    requires forall r :: r in a <==> r in b
    ensures a == b
  {
    if a == [] && b != [] {
      var r := Member(b);
      assert false;
    } else if a != [] && b == [] {
      var r := Member(a);
      assert false;
    } else if a != [] {
      assert a[0] in a && b[0] in b;
      assert a[0] == b[0] by {
        var i :| 0 <= i < |a| && a[i] == b[0];
        var j :| 0 <= j < |b| && b[j] == a[0];
        assert i == 0 || Precedes(a[0], a[i]);
        assert j == 0 || Precedes(b[0], b[j]);
      }
      forall r ensures r in a[1..] <==> r in b[1..] {
        assert r in a <==> r in b;
        if r in a[1..] { HeadPrecedes(a, r); }
        if r in b[1..] { HeadPrecedes(b, r); }
      }
      DescendingUnique(a[1..], b[1..]);
    }
  }

  /** The rows after a cursor are a suffix of the uncursored result. */
  lemma CursorSelectsSuffix<T(!new)>(table: seq<Row<T>>, p: Params) returns (from: nat)
    requires Increasing(table)
    ensures from <= |Ordered(table, p.(lastTs := None, lastId := None))|
    ensures Ordered(table, p) == Ordered(table, p.(lastTs := None, lastId := None))[from..]
  {
    var all := Ordered(table, p.(lastTs := None, lastId := None));
    var tail := Ordered(table, p);
    OrderedCorrect(table, p.(lastTs := None, lastId := None));
    OrderedCorrect(table, p);
    from := 0;
    while from < |all| && !Keep(all[from], p)
      invariant from <= |all|
      invariant forall i :: 0 <= i < from ==> !Keep(all[i], p)
    {
      from := from + 1;
    }
    forall r ensures r in tail <==> r in all[from..] {
      if r in all[from..] {
        var j :| from <= j < |all| && all[j] == r;
        assert all[j] in all;
        assert j == from || Precedes(all[from], all[j]);
      }
      if r in tail {
        assert r in all;
        var j :| 0 <= j < |all| && all[j] == r;
        assert all[from..][j - from] == r;
      }
    }
    DescendingUnique(tail, all[from..]);
  }

  /** The statement as it runs: scan the table, keep the rows in order, stop at the limit. */
  method SelectRows<T>(table: seq<Row<T>>, p: Params) returns (items: seq<Row<T>>)
    ensures items == Select(table, p)
  {
    var ordered: seq<Row<T>> := [];
    for i := 0 to |table|
      invariant ordered == Ordered(table[..i], p)
    {
      assert table[..i + 1][..i] == table[..i];
      if Where(table[i], p) == True {
        ordered := PlaceRow(ordered, table[i]);
      }
    }
    assert table[..|table|] == table;
    items := [];
    while |items| < |ordered| && (p.limit < 0 || |items| < p.limit)
      invariant |items| <= |ordered|
      invariant p.limit >= 0 ==> |items| <= p.limit
      invariant items == ordered[..|items|]
      decreases |ordered| - |items|
    {
      items := items + [ordered[|items|]];
    }
  }

  method PlaceRow<T>(s: seq<Row<T>>, r: Row<T>) returns (t: seq<Row<T>>)
    ensures t == Place(s, r)
  {
    var k := 0;
    while k < |s| && !Precedes(r, s[k])
      invariant k <= |s|
      invariant Place(s, r) == s[..k] + Place(s[k..], r)
    {
      assert s[k..][1..] == s[k + 1..];
      k := k + 1;
    }
    t := s[..k] + [r] + s[k..];
    assert k < |s| ==> s[k..][0] == s[k];
  }
}
