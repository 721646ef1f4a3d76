/** The `.sort({ createdAt: -1 })` that ends both listing routes, taken as a
    postcondition: a list whose creation times never increase. */
module Listing {

  /** Newest first: the key never increases along the list. */
  predicate NewestFirst<T>(xs: seq<T>, date: T -> int) {
    forall i, j :: 0 <= i < j < |xs| ==> date(xs[i]) >= date(xs[j])
  }

  /** Inserts `x` into a newest-first list after every element at least as new. */
  function InsertNewestFirst<T(==)>(xs: seq<T>, x: T, date: T -> int): (r: seq<T>)
    requires NewestFirst(xs, date)
    ensures NewestFirst(r, date)
    ensures multiset(r) == multiset(xs) + multiset{x}
    ensures |r| == |xs| + 1 && (r[0] == x || (xs != [] && r[0] == xs[0]))
  {
    if xs == [] || date(xs[0]) < date(x) then
      NewestFirstCons(x, xs, date);
      [x] + xs
    else
      var rest := InsertNewestFirst(xs[1..], x, date);
      assert multiset(xs) == multiset{xs[0]} + multiset(xs[1..]) by {
        assert xs == [xs[0]] + xs[1..];
      }
      NewestFirstCons(xs[0], rest, date);
      [xs[0]] + rest
  }

  /** A newest-first list stays so when an element at least as new as its head is put in front. */
  lemma NewestFirstCons<T>(y: T, xs: seq<T>, date: T -> int)
    requires NewestFirst(xs, date) && (xs == [] || date(y) >= date(xs[0]))
    ensures NewestFirst([y] + xs, date)
  {
    var r := [y] + xs;
    forall i, j | 0 <= i < j < |r|
      ensures date(r[i]) >= date(r[j])
    {
      assert r[j] == xs[j - 1];
      if i > 0 {
        assert r[i] == xs[i - 1];
      }
    }
  }

  /** Some key of `m` not in `done` maps to `x`. */
  predicate StoredOutside<T(==)>(m: map<nat, T>, done: set<nat>, x: T) {
    exists k :: k in m && k !in done && m[k] == x
  }

  /** The `find(query).sort(...)` of a collection held as a map whose keys each hold a
      distinct record: every record `keep` accepts, each once, newest first. */
  method Select<T(==)>(m: map<nat, T>, keep: T -> bool, date: T -> int) returns (r: seq<T>)
    requires forall j, k :: j in m && k in m && m[j] == m[k] ==> j == k
    ensures NewestFirst(r, date)
    ensures forall x :: multiset(r)[x] == if x in m.Values && keep(x) then 1 else 0
  {
    var todo := m.Keys;
    r := [];
    while todo != {}
      invariant todo <= m.Keys
      invariant NewestFirst(r, date)
      invariant forall x :: multiset(r)[x] == if StoredOutside(m, todo, x) && keep(x) then 1 else 0
      decreases todo
    {
      var k :| k in todo;
      if keep(m[k]) {
        r := InsertNewestFirst(r, m[k], date);
      }
      todo := todo - {k};
      assert forall x :: StoredOutside(m, todo, x) <==> StoredOutside(m, todo + {k}, x) || x == m[k];
    }
    assert forall x :: x in m.Values <==> StoredOutside(m, {}, x);
  }
}
