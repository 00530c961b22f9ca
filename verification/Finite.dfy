/** Sizes of finite sets of numbers, used where the code relies on "one of n slots is free". */
module Finite {

  // The numbers 0..n-1.
  function Below(n: nat): (r: set<nat>)
    ensures forall x: nat :: x in r <==> x < n
    ensures |r| == n
  {
    if n == 0 then {} else Below(n - 1) + {n - 1}
  }

  lemma SubsetSize<T>(a: set<T>, b: set<T>)
    requires a <= b
    ensures |a| <= |b|
  {
    if a != {} {
      var x :| x in a;
      SubsetSize(a - {x}, b - {x});
    }
  }

  // Some element of a nonempty set.
  ghost function Pick<T>(s: set<T>): (x: T)
    requires s != {}
    ensures x in s
  {
    var x :| x in s;
    x
  }

  function Elements<T(==, !new)>(q: seq<T>): (r: set<T>)
    ensures forall x :: x in r <==> x in q
    ensures |r| <= |q|
  {
    if q == [] then {} else {q[0]} + Elements(q[1..])
  }

  lemma {:induction false} DistinctElements<T(!new)>(q: seq<T>)
    requires forall i, j :: 0 <= i < j < |q| ==> q[i] != q[j]
    ensures |Elements(q)| == |q|
  {
    if q != [] {
      DistinctElements(q[1..]);
      assert q[0] !in q[1..];
    }
  }

  // n distinct numbers below n are all the numbers below n.
  lemma DistinctCover(q: seq<nat>, n: nat, b: nat)
    requires forall i, j :: 0 <= i < j < |q| ==> q[i] != q[j]
    requires forall i :: 0 <= i < |q| ==> q[i] < n
    requires |q| == n && b < n
    ensures b in q
  {
    if b !in q {
      DistinctElements(q);
      SubsetSize(Elements(q), Below(n) - {b});
      assert false;
    }
  }

  // Two sets that together hold every number below n have at least n elements.
  lemma CoverSize(n: nat, a: set<nat>, b: set<nat>)
    requires forall x :: 0 <= x < n ==> x in a || x in b
    ensures n <= |a| + |b|
  {
    SubsetSize(Below(n), a + b);
    assert |a + b| == |a| + |b| - |a * b|;
  }
}
