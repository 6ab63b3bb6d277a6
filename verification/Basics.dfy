/** Powers of two, the smaller of two numbers, sequences without repeats, and the size of a subset. */
module Basics {

  function Pow2(n: nat): (r: nat)
    ensures r >= 1
  {
    if n == 0 then 1 else 2 * Pow2(n - 1)
  }

  lemma Pow2Plus8(n: nat)
    ensures Pow2(n + 8) == 0x100 * Pow2(n)
  {
    assert Pow2(n + 2) == 4 * Pow2(n);
    assert Pow2(n + 4) == 4 * Pow2(n + 2);
    assert Pow2(n + 6) == 4 * Pow2(n + 4);
    assert Pow2(n + 8) == 4 * Pow2(n + 6);
  }

  function Least(a: int, b: int): (r: int)
    ensures r <= a && r <= b && (r == a || r == b)
  {
    if a < b then a else b
  }

  ghost predicate AllDifferent(s: seq<nat>) {
    forall i, j :: 0 <= i < j < |s| ==> s[i] != s[j]
  }

  ghost function Elements(s: seq<nat>): set<nat> {
    set x | x in s
  }

  /** The numbers below m. */
  ghost function Below(m: nat): (r: set<nat>)
    ensures |r| == m && forall i :: i in r <==> 0 <= i < m
  {
    if m == 0 then {} else Below(m - 1) + {m - 1}
  }

  lemma {:induction false} ElementsCount(s: seq<nat>)
    requires AllDifferent(s)
    ensures |Elements(s)| == |s|
  {
    if s == [] {
      assert Elements(s) == {};
    } else {
      var t := s[..|s| - 1];
      ElementsCount(t);
      assert Elements(s) == Elements(t) + {s[|s| - 1]};
    }
  }

  lemma SubsetCount<T>(a: set<T>, b: set<T>)
    requires a <= b
    ensures |a| <= |b|
  {
    assert b == a + (b - a);
  }
}
