/** Positions of the elements of a sequence that satisfy a predicate, in input order.
    Both filters of the randomness test (the numeric-feature filter and the
    residual-exceedance filter) keep exactly the elements at these positions. */
module Filtering {

  /** The indices i of s with p(s[i]), ascending. Built from the end so that it
      unfolds the way a loop that appends while walking s left to right grows. */
  function Positions<T>(s: seq<T>, p: T -> bool): (r: seq<nat>)
    ensures |r| <= |s|
    ensures forall k :: 0 <= k < |r| ==> r[k] < |s| && p(s[r[k]])
    ensures forall k, l :: 0 <= k < l < |r| ==> r[k] < r[l]
  {
    if s == [] then []
    else Positions(s[..|s| - 1], p) + (if p(s[|s| - 1]) then [|s| - 1] else [])
  }

  /** Every satisfying index is listed, and only those. */
  lemma {:induction false} PositionsExact<T>(s: seq<T>, p: T -> bool, i: int)
    ensures i in Positions(s, p) <==> 0 <= i < |s| && p(s[i])
  {
    if s != [] {
      var init := s[..|s| - 1];
      PositionsExact(init, p, i);
      if 0 <= i < |init| {
        assert init[i] == s[i];
      }
    }
  }

  /** No position is listed exactly when no element satisfies p. */
  lemma PositionsEmpty<T>(s: seq<T>, p: T -> bool)
    ensures Positions(s, p) == [] <==> forall i :: 0 <= i < |s| ==> !p(s[i])
  {
    if Positions(s, p) != [] {
      var r := Positions(s, p);
      assert r[0] < |s| && p(s[r[0]]);
    } else {
      forall i | 0 <= i < |s| ensures !p(s[i]) {
        PositionsExact(s, p, i);
      }
    }
  }

  /** A weaker predicate keeps at least as many positions. */
  lemma {:induction false} PositionsMonotone<T>(s: seq<T>, p: T -> bool, q: T -> bool)
    requires forall i :: 0 <= i < |s| && p(s[i]) ==> q(s[i])
    ensures |Positions(s, p)| <= |Positions(s, q)|
  {
    if s != [] {
      var init := s[..|s| - 1];
      forall i | 0 <= i < |init| && p(init[i]) ensures q(init[i]) {
        assert init[i] == s[i];
      }
      PositionsMonotone(init, p, q);
    }
  }
}
