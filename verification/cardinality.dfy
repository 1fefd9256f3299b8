/** Cardinality facts about finite sets and the ratios the scorers build from them. */
module Cardinality {

  /** A subset is no larger, and a subset of the same size is the whole set. */
  lemma {:induction false} SubsetCard<T>(a: set<T>, b: set<T>)
    requires a <= b
    ensures |a| <= |b|
    ensures |a| == |b| ==> a == b
    decreases |b|
  {
    if a != {} {
      var x :| x in a;
      SubsetCard(a - {x}, b - {x});
      assert |a - {x}| == |a| - 1 && |b - {x}| == |b| - 1;
      if |a| == |b| {
        assert a == (a - {x}) + {x};
        assert b == (b - {x}) + {x};
      }
    } else if b != {} {
      var y :| y in b;
      assert |b| >= 1 by { assert |b - {y}| + 1 == |b|; }
    }
  }

  /** The positions of `s` whose element satisfies `p`. */
  function Positions<T>(p: T -> bool, s: seq<T>): set<int> {
    set i | 0 <= i < |s| && p(s[i])
  }

  /** The positions in `s` are those in all of `s` but its last element, plus the last position if it qualifies. */
  lemma PositionsSnoc<T>(p: T -> bool, s: seq<T>)
    requires s != []
    ensures |s| - 1 !in Positions(p, s[..|s| - 1])
    ensures Positions(p, s) == Positions(p, s[..|s| - 1]) + (if p(s[|s| - 1]) then {|s| - 1} else {})
  {
    var init := s[..|s| - 1];
    assert forall i :: 0 <= i < |init| ==> s[i] == init[i];
  }

  /** Adding a fresh element to a set grows it by one. */
  lemma CardAddFresh<X>(a: set<X>, x: X)
    requires x !in a
    ensures |a + {x}| == |a| + 1
  {
  }

  /** How many positions of `s` hold an element satisfying `p`. */
  function CountWhere<T>(p: T -> bool, s: seq<T>): (n: nat)
    ensures n == |Positions(p, s)|
    ensures n <= |s|
    ensures n == 0 <==> forall i :: 0 <= i < |s| ==> !p(s[i])
    ensures n == |s| <==> forall i :: 0 <= i < |s| ==> p(s[i])
  {
    if s == [] then 0
    else
      var init, last := s[..|s| - 1], s[|s| - 1];
      var rest := CountWhere(p, init);
      assert forall i :: 0 <= i < |init| ==> s[i] == init[i];
      PositionsSnoc(p, s);
      if p(last) then
        CardAddFresh(Positions(p, init), |init|);
        rest + 1
      else
        rest
  }

  function Min(a: real, b: real): real {
    if a <= b then a else b
  }

  /** A ratio n/d of counts with n <= d lies in [0, 1] and is 1 only when n == d. */
  function Ratio(n: nat, d: nat): (r: real)
    requires 0 < d && n <= d
    ensures 0.0 <= r <= 1.0
    ensures r == 1.0 <==> n == d
    ensures r == 0.0 <==> n == 0
  {
    n as real / d as real
  }

  /** The ratio grows with its numerator. */
  lemma RatioMonotone(n: nat, m: nat, d: nat)
    requires 0 < d && n <= m <= d
    ensures Ratio(n, d) <= Ratio(m, d)
  {
    assert Ratio(m, d) - Ratio(n, d) == (m - n) as real / d as real;
  }

  /** Multiplying both sides by a positive number keeps a comparison. */
  lemma ScalePositive(a: real, b: real, c: real)
    requires c > 0.0
    ensures a >= b <==> a * c >= b * c
  {
    if a >= b {
      assert a * c - b * c == (a - b) * c;
    } else {
      assert b * c - a * c == (b - a) * c;
    }
  }

  /** A quotient by a positive number reaches c exactly when the dividend reaches c times the divisor. */
  lemma DivAtLeast(x: real, y: real, c: real)
    requires y > 0.0
    ensures x / y >= c <==> x >= c * y
  {
    ScalePositive(x / y, c, y);
    assert x / y * y == x;
  }

  /** Sixty times the ratio n/d reaches 40 exactly when n is at least two thirds of d. */
  lemma CapAtTwoThirds(n: nat, d: nat)
    requires 0 < d && n <= d
    ensures 60.0 * Ratio(n, d) >= 40.0 <==> 3 * n >= 2 * d
  {
    DivAtLeast(n as real, d as real, 2.0 / 3.0);
    assert 60.0 * Ratio(n, d) >= 40.0 <==> Ratio(n, d) >= 2.0 / 3.0;
  }
}
