/** Sequence operations that stand in for the query primitives of the ORM:
    `where` (Filter), `findFirst` (FindFirst), `orderBy: desc` (SortDesc). */
module Seqs {
  import opened Common

  /** The elements of `xs` satisfying `p`. The definition keeps them in
      their original order; the contract states membership and the bound,
      and `FilterConcat` how a filter splits over a concatenation. */
  function Filter<T(!new)>(xs: seq<T>, p: T -> bool): (r: seq<T>)
    ensures |r| <= |xs|
    ensures forall x :: x in r <==> x in xs && p(x)
    ensures forall i :: 0 <= i < |r| ==> p(r[i])
  {
    if xs == [] then []
    else
      assert xs == [xs[0]] + xs[1..];
      (if p(xs[0]) then [xs[0]] else []) + Filter(xs[1..], p)
  }

  lemma {:induction false} FilterConcat<T(!new)>(a: seq<T>, b: seq<T>, p: T -> bool)
    ensures Filter(a + b, p) == Filter(a, p) + Filter(b, p)
    decreases |a|
  {
    if a == [] {
      assert a + b == b;
    } else {
      assert (a + b)[1..] == a[1..] + b;
      FilterConcat(a[1..], b, p);
    }
  }

  /** Prisma's `findFirst` without `orderBy`: some row satisfying `p`, the row
      being chosen by the database. `pick` stands for that choice. */
  function FindFirst<T(!new)>(xs: seq<T>, p: T -> bool, pick: nat): (r: Option<T>)
    ensures r.None? <==> forall x :: x in xs ==> !p(x)
    ensures r.Some? ==> r.value in xs && p(r.value)
  {
    var m := Filter(xs, p);
    if |m| == 0 then None
    else
      assert m[pick % |m|] in m;
      Some(m[pick % |m|])
  }

  /** Every matching row is a possible answer of `findFirst`. */
  lemma FindFirstReaches<T(!new)>(xs: seq<T>, p: T -> bool, x: T)
    requires x in xs && p(x)
    ensures exists pick: nat :: FindFirst(xs, p, pick) == Some(x)
  {
    var m := Filter(xs, p);
    assert x in m;
    var i :| 0 <= i < |m| && m[i] == x;
    SmallMod(i, |m|);
    assert FindFirst(xs, p, i) == Some(x);
  }

  lemma SmallMod(i: nat, n: nat)
    requires i < n
    ensures i % n == i
  {
  }

  /** When exactly one row matches, `findFirst` has no choice to make. */
  lemma FindFirstUnique<T(!new)>(xs: seq<T>, p: T -> bool, x: T, pick: nat)
    requires x in xs && p(x)
    requires forall y :: y in xs && p(y) ==> y == x
    ensures FindFirst(xs, p, pick) == Some(x)
  {
  }

  ghost predicate SortedDesc<T>(xs: seq<T>, key: T -> int) {
    forall i, j :: 0 <= i < j < |xs| ==> key(xs[i]) >= key(xs[j])
  }

  /** Insert `x` before the first element whose key is not greater. */
  function Insert<T>(x: T, xs: seq<T>, key: T -> int): (r: seq<T>)
    requires SortedDesc(xs, key)
    ensures |r| == |xs| + 1
    ensures r[0] == (if xs == [] || key(x) >= key(xs[0]) then x else xs[0])
    ensures SortedDesc(r, key)
    ensures multiset(r) == multiset(xs) + multiset{x}
  {
    if xs == [] || key(x) >= key(xs[0]) then
      [x] + xs
    else
      var rest := Insert(x, xs[1..], key);
      assert xs == [xs[0]] + xs[1..];
      assert key(rest[0]) <= key(xs[0]);
      [xs[0]] + rest
  }

  /** Stable insertion sort, newest (largest key) first: Prisma's
      `orderBy: { field: "desc" }`. */
  function SortDesc<T>(xs: seq<T>, key: T -> int): (r: seq<T>)
    ensures |r| == |xs|
    ensures SortedDesc(r, key)
    ensures multiset(r) == multiset(xs)
  {
    if xs == [] then []
    else
      assert xs == [xs[0]] + xs[1..];
      Insert(xs[0], SortDesc(xs[1..], key), key)
  }

  /** No element occurs twice. */
  ghost predicate Distinct<T>(xs: seq<T>) {
    forall i, j :: 0 <= i < j < |xs| ==> xs[i] != xs[j]
  }
}
