/** How many pages a walk takes, and what it returns when nothing is inserted meanwhile. */
module PagingBounds {
  import opened Wrappers
  import opened Time
  import opened Query
  import opened Repository
  import opened Paging
  import opened Sums

  // ---------- no inserts: paging refines the single full read ----------

  predicate OnlyFetches<T>(events: seq<Event<T>>) {
    forall i :: 0 <= i < |events| ==> events[i].NextPage?
  }

  /** A fetch moves rows from what remains to what was returned, and a last page takes them all. */
  lemma StaticStep<T(!new)>(w: Walk<T>, q: Request, size: int)
    requires Inv(w, q) && !w.done && 1 <= size < MAX_INT64
    ensures
      var w' := Step(w, q, NextPage(size));
      && w'.table == w.table
      && w'.got + Remaining(w', q) == w.got + Remaining(w, q)
      && (w'.done ==> Remaining(w', q) == [])
  {
    var n := FetchTakes(w, q, size);
    var w' := Step(w, q, NextPage(size));
    RemainingAfter(w, w', q, n);
    assert Remaining(w, q) == Remaining(w, q)[..n] + Remaining(w, q)[n..];
  }

  /** With a fixed table the pages so far are a prefix of the full result, and the whole of it when the walk ends. */
  lemma {:induction false} StaticWalk<T(!new)>(table: Table<T>, q: Request, events: seq<Event<T>>)
    requires ValidTable(table) && GoodSizes(events) && OnlyFetches(events)
    ensures
      var w := Run(Begin(table), q, events);
      && w.table == table
      && w.got + Remaining(w, q) == Matching(table.rows, q)
      && (w.done ==> w.got == Matching(table.rows, q))
  {
    if events != [] {
      var init, e := events[..|events| - 1], events[|events| - 1];
      StaticWalk(table, q, init);
      RunInv(table, q, init);
      assert e in events;
      var w := Run(Begin(table), q, init);
      if !w.done {
        StaticStep(w, q, e.size);
      }
    }
  }

  // ---------- counting ----------

  /** max(1, ceil(n / size)). */
  function PageCount(n: nat, size: nat): nat
    requires size > 0
  {
    if n == 0 then 1 else (n + size - 1) / size
  }

  /** `n` rows do not fit in `p` pages iff the page count is larger than `p`. */
  lemma PageCountAbove(p: nat, n: nat, size: nat)
    requires size > 0 && n > 0
    ensures p * size < n <==> p < PageCount(n, size)
  {
    var c := PageCount(n, size);
    assert c * size <= n + size - 1 < c * size + size;
    if p < c {
      MulMonotone(p + 1, c, size);
      assert (p + 1) * size == p * size + size;
    } else {
      MulMonotone(c, p, size);
    }
  }

  function MatchingInserts<T>(events: seq<Event<T>>, q: Request): nat {
    if events == [] then 0
    else
      var e := events[|events| - 1];
      MatchingInserts(events[..|events| - 1], q)
      + if e.Insert? && Matches(Row(0, e.deviceId, Unix(e.item.time), e.item.body), q) then 1 else 0
  }

  function Fetches<T>(events: seq<Event<T>>): nat {
    if events == [] then 0
    else Fetches(events[..|events| - 1]) + if events[|events| - 1].NextPage? then 1 else 0
  }

  lemma {:induction false} MatchingCount<T(!new)>(table: Table<T>, q: Request, events: seq<Event<T>>)
    ensures |Matching(Run(Begin(table), q, events).table.rows, q)|
            == |Matching(table.rows, q)| + MatchingInserts(events, q)
  {
    if events != [] {
      var init, e := events[..|events| - 1], events[|events| - 1];
      MatchingCount(table, q, init);
      var w := Run(Begin(table), q, init);
      if e.Insert? {
        MatchingAppended(w.table, e.deviceId, e.item, q);
        PlaceElements(Matching(w.table.rows, q), Row(w.table.last + 1, e.deviceId, Unix(e.item.time), e.item.body));
      }
    }
  }

  /** A descending sequence is no longer than another that contains its elements. */
  lemma {:induction false} ContainedIsShorter<T(!new)>(a: seq<Row<T>>, b: seq<Row<T>>)
    requires Descending(a) && Descending(b) && forall r :: r in a ==> r in b
    ensures |a| <= |b|
  {
    if a != [] {
      assert a[0] in b;
      var i :| 0 <= i < |b| && b[i] == a[0];
      forall r | r in a[1..] ensures r in b[i + 1..] {
        HeadPrecedes(a, r);
        assert r in a;
        var j := IndexBelow(b, i + 1, r);
        assert b[i + 1..][j - (i + 1)] == r;
      }
      ContainedIsShorter(a[1..], b[i + 1..]);
    }
  }

  /** A walk never holds more rows than match, and one fewer at least while it has a next page. */
  lemma GotAtMostMatching<T(!new)>(w: Walk<T>, q: Request)
    requires Inv(w, q)
    ensures |w.got| <= |Matching(w.table.rows, q)|
    ensures w.pages != [] && !w.done ==> |w.got| < |Matching(w.table.rows, q)|
  {
    var all := Remaining(w, q);
    RemainingCorrect(w, q);
    OrderedCorrect(w.table.rows, Whole(q));
    ExtendDescending(w.got, all, |all|);
    assert all[..|all|] == all;
    ContainedIsShorter(w.got + all, Matching(w.table.rows, q));
    if w.pages != [] && !w.done {
      var r :| r in w.table.rows && Matches(r, q) && Precedes(w.got[|w.got| - 1], r);
      assert r in all;
    }
  }

  predicate FixedSize<T>(events: seq<Event<T>>, size: int) {
    forall i :: 0 <= i < |events| && events[i].NextPage? ==> events[i].size == size
  }

  /** Every page but the last is full, and one fetched with a token is not empty. */
  ghost predicate FullPages<T(!new)>(w: Walk<T>, size: nat, fetches: nat) {
    && (!w.done ==> |w.pages| == fetches && |w.got| == Times(|w.pages|, size))
    && (w.done ==> w.pages != [])
    && |w.got| <= Times(|w.pages|, size)
    && (w.pages != [] ==> Times(|w.pages| - 1, size) <= |w.got|)
    && (|w.pages| >= 2 ==> Times(|w.pages| - 1, size) < |w.got|)
  }

  lemma FullPagesStep<T(!new)>(w: Walk<T>, q: Request, size: nat, fetches: nat)
    requires Inv(w, q) && !w.done && 1 <= size < MAX_INT64 && FullPages(w, size, fetches)
    ensures FullPages(Step(w, q, NextPage(size)), size, fetches + 1)
  {
    FetchStep(w, q, size);
    var n := FetchTakes(w, q, size);
  }

  lemma {:induction false} RunFullPages<T(!new)>(table: Table<T>, q: Request, events: seq<Event<T>>, size: nat)
    requires ValidTable(table) && GoodSizes(events) && FixedSize(events, size)
    ensures FullPages(Run(Begin(table), q, events), size, Fetches(events))
  {
    if events != [] {
      var init, e := events[..|events| - 1], events[|events| - 1];
      RunFullPages(table, q, init, size);
      RunInv(table, q, init);
      assert e in events;
      var w := Run(Begin(table), q, init);
      if e.NextPage? && !w.done {
        FullPagesStep(w, q, size, Fetches(init));
      }
    }
  }

  /**
   With `n` rows matching at the start and `k` matching ones inserted meanwhile, a walk with page
   size `size` fetches at most max(1, ceil((n + k) / size)) pages, and has ended once it tried that often.
   */
  lemma BoundedWalk<T(!new)>(table: Table<T>, q: Request, events: seq<Event<T>>, size: nat)
    requires ValidTable(table) && GoodSizes(events) && FixedSize(events, size) && size > 0
    ensures
      var w := Run(Begin(table), q, events);
      var bound := PageCount(|Matching(table.rows, q)| + MatchingInserts(events, q), size);
      && |w.pages| <= bound
      && (Fetches(events) >= bound ==> w.done)
  {
    RunInv(table, q, events);
    RunFullPages(table, q, events, size);
    MatchingCount(table, q, events);
    var w := Run(Begin(table), q, events);
    GotAtMostMatching(w, q);
    FullPagesBound(w, size, Fetches(events), |Matching(w.table.rows, q)|);
  }

  lemma FullPagesBound<T(!new)>(w: Walk<T>, size: nat, fetches: nat, n: nat)
    requires FullPages(w, size, fetches) && size > 0
    requires |w.got| <= n && (w.pages != [] && !w.done ==> |w.got| < n)
    ensures |w.pages| <= PageCount(n, size)
    ensures !w.done ==> fetches < PageCount(n, size)
  {
    var p := |w.pages|;
    if n == 0 {
      assert p < 2;
    } else {
      PageCountAbove(p, n, size);
      TimesIs(p, size);
      if p > 0 {
        PageCountAbove(p - 1, n, size);
        TimesIs(p - 1, size);
      }
    }
  }

  /** Without inserts the number of pages is exactly max(1, ceil(n / size)). */
  lemma StaticPageCount<T(!new)>(table: Table<T>, q: Request, events: seq<Event<T>>, size: nat)
    requires ValidTable(table) && GoodSizes(events) && FixedSize(events, size) && OnlyFetches(events) && size > 0
    ensures
      var w := Run(Begin(table), q, events);
      var count := PageCount(|Matching(table.rows, q)|, size);
      && (w.done <==> |events| >= count)
      && (w.done ==> |w.pages| == count)
  {
    hide FullPages, ValidTable, GoodSizes, FixedSize, Run, PageCount;
    StaticWalk(table, q, events);
    RunFullPages(table, q, events, size);
    OnlyFetchesCount(events, q);
    BoundedWalk(table, q, events, size);
    var w := Run(Begin(table), q, events);
    if w.done {
      EnoughPages(w, size, Fetches(events), |Matching(table.rows, q)|);
    }
    PagesAtMostFetches(table, q, events);
  }

  /** Pages of `size` rows that hold `n` rows are at least as many as `n` rows need. */
  lemma EnoughPages<T(!new)>(w: Walk<T>, size: nat, fetches: nat, n: nat)
    requires FullPages(w, size, fetches) && size > 0 && w.done && |w.got| == n
    ensures |w.pages| >= PageCount(n, size)
  {
    if n > 0 {
      PageCountAbove(|w.pages|, n, size);
      TimesIs(|w.pages|, size);
    }
  }

  lemma {:induction false} OnlyFetchesCount<T(!new)>(events: seq<Event<T>>, q: Request)
    requires OnlyFetches(events)
    ensures Fetches(events) == |events| && MatchingInserts(events, q) == 0
  {
    if events != [] {
      OnlyFetchesCount(events[..|events| - 1], q);
    }
  }

  lemma {:induction false} PagesAtMostFetches<T(!new)>(table: Table<T>, q: Request, events: seq<Event<T>>)
    ensures |Run(Begin(table), q, events).pages| <= Fetches(events)
  {
    if events != [] {
      PagesAtMostFetches(table, q, events[..|events| - 1]);
    }
  }
}
