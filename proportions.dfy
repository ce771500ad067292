/** Turning a column of counts into proportions of its total. */
module Proportions {
  import opened RealArith

  /** Python's sum() over reals. */
  function Sum(s: seq<real>): real {
    if s == [] then 0.0 else s[0] + Sum(s[1..])
  }

  /** r is the share of v in the total t. */
  predicate IsShare(r: real, v: real, t: real) {
    r * t == v
  }

  /** Every element divided by c. */
  function DivideAll(s: seq<real>, c: real): (r: seq<real>)
    requires c != 0.0
    ensures |r| == |s|
    ensures forall i :: 0 <= i < |s| ==> IsShare(r[i], s[i], c)
  {
    if s == [] then [] else [s[0] / c] + DivideAll(s[1..], c)
  }

  /** normalized_values: each value as a share of the total; a list whose total
      is zero is handed back unchanged. */
  function Normalized(values: seq<real>): (r: seq<real>)
    ensures |r| == |values|
    ensures Sum(values) == 0.0 ==> r == values
    ensures Sum(values) != 0.0 ==> forall i :: 0 <= i < |r| ==> IsShare(r[i], values[i], Sum(values))
  {
    var total := Sum(values);
    if total != 0.0 then DivideAll(values, total) else values
  }

  lemma {:induction false} SumDivideAll(s: seq<real>, c: real)
    requires c != 0.0
    ensures Sum(DivideAll(s, c)) == Sum(s) / c
  {
    if s != [] {
      SumDivideAll(s[1..], c);
      assert DivideAll(s, c)[1..] == DivideAll(s[1..], c);
      assert s[0] / c + Sum(s[1..]) / c == (s[0] + Sum(s[1..])) / c;
    }
  }

  lemma {:induction false} DivideAllByOne(s: seq<real>)
    ensures DivideAll(s, 1.0) == s
  {
    if s != [] {
      DivideAllByOne(s[1..]);
    }
  }

  /** A list with a non-zero total normalises to proportions that sum to one. */
  lemma NormalizedSumsToOne(values: seq<real>)
    requires Sum(values) != 0.0
    ensures Sum(Normalized(values)) == 1.0
  {
    var total := Sum(values);
    SumDivideAll(values, total);
    assert Normalized(values) == DivideAll(values, total);
    assert total / total == 1.0;
  }

  /** Normalising twice is normalising once. */
  lemma NormalizedIdempotent(values: seq<real>)
    ensures Normalized(Normalized(values)) == Normalized(values)
  {
    if Sum(values) != 0.0 {
      NormalizedSumsToOne(values);
      DivideAllByOne(Normalized(values));
    }
  }

  lemma {:induction false} ElementAtMostSum(s: seq<real>, i: int)
    requires forall j :: 0 <= j < |s| ==> s[j] >= 0.0
    requires 0 <= i < |s|
    ensures 0.0 <= s[i] <= Sum(s)
  {
    if i > 0 {
      ElementAtMostSum(s[1..], i - 1);
    } else {
      SumNonNegative(s[1..]);
    }
  }

  lemma {:induction false} SumNonNegative(s: seq<real>)
    requires forall j :: 0 <= j < |s| ==> s[j] >= 0.0
    ensures Sum(s) >= 0.0
  {
    if s != [] {
      SumNonNegative(s[1..]);
    }
  }

  /** A share of a non-zero total is the quotient of the value by the total. */
  lemma ShareIsQuotient(r: real, v: real, t: real, q: real)
    requires t != 0.0 && IsShare(r, v, t) && q == v / t
    ensures r == q
  {
    assert q * t == v;
    assert (r - q) * t == 0.0;
  }

  /** normalized_values in its division form: each element is the value
      divided by the total. */
  lemma NormalizedIsDivision(values: seq<real>, i: int)
    requires Sum(values) != 0.0 && 0 <= i < |values|
    ensures Normalized(values)[i] == values[i] / Sum(values)
  {
    var t := Sum(values);
    ShareIsQuotient(Normalized(values)[i], values[i], t, values[i] / t);
  }

  /** A share v / t of a positive total t with 0 <= v <= t lies in [0, 1]. */
  lemma ShareBounds(v: real, t: real, r: real)
    requires t > 0.0 && 0.0 <= v <= t && IsShare(r, v, t)
    ensures 0.0 <= r <= 1.0
  {
    assert r * t == v;
    if r < 0.0 {
      ProductPositive(-r, t, (-r) * t);
    } else if r > 1.0 {
      ProductPositive(r - 1.0, t, (r - 1.0) * t);
    }
  }

  /** Non-negative counts with a non-zero total become proportions in [0, 1]. */
  lemma NormalizedAreProportions(values: seq<real>)
    requires forall j :: 0 <= j < |values| ==> values[j] >= 0.0
    requires Sum(values) != 0.0
    ensures forall i :: 0 <= i < |values| ==> 0.0 <= Normalized(values)[i] <= 1.0
  {
    forall i | 0 <= i < |values| ensures 0.0 <= Normalized(values)[i] <= 1.0 {
      NormalizedShare(values, i);
    }
  }

  lemma NormalizedShare(values: seq<real>, i: int)
    requires forall j :: 0 <= j < |values| ==> values[j] >= 0.0
    requires Sum(values) != 0.0 && 0 <= i < |values|
    ensures 0.0 <= Normalized(values)[i] <= 1.0
  {
    var total, r := Sum(values), Normalized(values)[i];
    SumNonNegative(values);
    ElementAtMostSum(values, i);
    assert IsShare(r, values[i], total);
    ShareBounds(values[i], total, r);
  }
}
