/** Totals and bags taken over a sequence of components, how they change when one does, and products as sums. */
module Sums {

  function Total<A>(s: seq<A>, f: A -> nat): nat {
    if s == [] then 0 else Total(s[..|s| - 1], f) + f(s[|s| - 1])
  }

  function Bag<A, B>(s: seq<A>, f: A -> multiset<B>): multiset<B> {
    if s == [] then multiset{} else Bag(s[..|s| - 1], f) + f(s[|s| - 1])
  }

  /** How often `x` occurs in a buffer. */
  function Count<A(==)>(s: seq<A>, x: A): nat {
    if s == [] then 0 else Count(s[..|s| - 1], x) + if s[|s| - 1] == x then 1 else 0
  }

  lemma CountAppend<A>(s: seq<A>, y: A, x: A)
    ensures Count(s + [y], x) == Count(s, x) + if y == x then 1 else 0
  {
  }

  lemma {:induction false} CountHead<A>(s: seq<A>, x: A)
    requires s != []
    ensures Count(s, x) == (if s[0] == x then 1 else 0) + Count(s[1..], x)
  {
    var n := |s| - 1;
    if n > 0 {
      CountHead(s[..n], x);
      assert s[..n][1..] == s[1..][..n - 1];
    }
  }

  lemma {:induction false} TotalUpdate<A>(s: seq<A>, i: nat, x: A, f: A -> nat)
    requires i < |s|
    ensures Total(s[i := x], f) + f(s[i]) == Total(s, f) + f(x)
  {
    var t, n := s[i := x], |s| - 1;
    if i == n {
      assert t[..n] == s[..n];
    } else {
      TotalUpdate(s[..n], i, x, f);
      assert t[..n] == s[..n][i := x];
    }
  }

  lemma {:induction false} TotalAtLeast<A>(s: seq<A>, i: nat, f: A -> nat)
    requires i < |s|
    ensures f(s[i]) <= Total(s, f)
  {
    if i < |s| - 1 {
      TotalAtLeast(s[..|s| - 1], i, f);
    }
  }

  lemma {:induction false} TotalPositive<A>(s: seq<A>, f: A -> nat)
    requires Total(s, f) > 0
    ensures exists i :: 0 <= i < |s| && f(s[i]) > 0
  {
    var n := |s| - 1;
    if f(s[n]) == 0 {
      TotalPositive(s[..n], f);
      var i :| 0 <= i < n && f(s[..n][i]) > 0;
      assert f(s[i]) > 0;
    }
  }

  lemma {:induction false} BagUpdate<A, B>(s: seq<A>, i: nat, x: A, f: A -> multiset<B>)
    requires i < |s|
    ensures Bag(s[i := x], f) + f(s[i]) == Bag(s, f) + f(x)
  {
    var t, n := s[i := x], |s| - 1;
    if i == n {
      assert t[..n] == s[..n];
    } else {
      BagUpdate(s[..n], i, x, f);
      assert t[..n] == s[..n][i := x];
      assert Bag(t, f) + f(s[i]) == (Bag(t[..n], f) + f(s[..n][i])) + f(s[n]);
    }
  }

  /** The same for one element's multiplicity. */
  lemma BagUpdateAt<A, B>(s: seq<A>, i: nat, x: A, f: A -> multiset<B>, e: B)
    requires i < |s|
    ensures Bag(s[i := x], f)[e] + f(s[i])[e] == Bag(s, f)[e] + f(x)[e]
    ensures f(s[i])[e] <= Bag(s, f)[e]
  {
    BagUpdate(s, i, x, f);
    BagContains(s, i, f);
    assert (Bag(s[i := x], f) + f(s[i]))[e] == (Bag(s, f) + f(x))[e];
  }

  lemma {:induction false} BagEmpty<A, B>(s: seq<A>, f: A -> multiset<B>)
    requires forall i :: 0 <= i < |s| ==> f(s[i]) == multiset{}
    ensures Bag(s, f) == multiset{}
  {
    if s != [] {
      BagEmpty(s[..|s| - 1], f);
    }
  }

  lemma {:induction false} BagContains<A, B>(s: seq<A>, i: nat, f: A -> multiset<B>)
    requires i < |s|
    ensures f(s[i]) <= Bag(s, f)
  {
    if i < |s| - 1 {
      BagContains(s[..|s| - 1], i, f);
    }
  }

  // ---------- products, added up ----------

  /** `n` times `k`, added up: what solvers reason about more easily than a product of two unknowns. */
  function Times(n: nat, k: nat): nat {
    if n == 0 then 0 else Times(n - 1, k) + k
  }

  lemma {:induction false} TimesIs(n: nat, k: nat)
    ensures Times(n, k) == n * k
  {
    if n > 0 {
      TimesIs(n - 1, k);
    }
  }

  lemma MulMonotone(a: int, b: int, k: nat)
    requires a <= b
    ensures a * k <= b * k
  {
  }
}
