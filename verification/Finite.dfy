/** Sizes of finite sets. */
module Finite {

  ghost function Below(n: nat): (r: set<nat>)
    ensures |r| == n && forall x: nat :: x in r <==> x < n
  {
    if n == 0 then {} else Below(n - 1) + {n - 1}
  }

  ghost function Range(lo: nat, hi: nat): (r: set<nat>)
    ensures |r| == (if lo <= hi then hi - lo else 0) && forall x: nat :: x in r <==> lo <= x < hi
    decreases hi - lo
  {
    if lo >= hi then {} else Range(lo + 1, hi) + {lo}
  }

  ghost function ConstMap(lo: nat, hi: nat, v: nat): (r: map<nat, nat>)
    ensures forall x: nat :: x in r <==> lo <= x < hi
    ensures forall x :: x in r ==> r[x] == v
    decreases hi - lo
  {
    if lo >= hi then map[] else ConstMap(lo + 1, hi, v)[lo := v]
  }

  lemma {:induction false} SubsetSize<T>(a: set<T>, b: set<T>)
    requires a <= b
    ensures |a| <= |b|
  {
    if a != {} {
      var x :| x in a;
      SubsetSize(a - {x}, b - {x});
    }
  }

  ghost function Elements<T(!new)>(s: seq<T>): (r: set<T>)
    ensures forall x :: x in r <==> x in s
    ensures |r| <= |s|
  {
    if s == [] then {} else
      var t := Elements(s[..|s| - 1]);
      assert s == s[..|s| - 1] + [s[|s| - 1]];
      t + {s[|s| - 1]}
  }

  lemma {:induction false} DistinctSize<T(!new)>(s: seq<T>)
    requires forall i, j :: 0 <= i < j < |s| ==> s[i] != s[j]
    ensures |Elements(s)| == |s|
  {
    if s != [] {
      DistinctSize(s[..|s| - 1]);
    }
  }

  /** n distinct numbers below n are all the numbers below n. */
  lemma Pigeonhole(s: seq<nat>, n: nat, b: nat)
    requires |s| == n && b < n && (forall i :: 0 <= i < n ==> s[i] < n)
    requires forall i, j :: 0 <= i < j < n ==> s[i] != s[j]
    ensures b in s
  {
    DistinctSize(s);
    if b !in s {
      SubsetSize(Elements(s), Below(n) - {b});
    }
  }
}
