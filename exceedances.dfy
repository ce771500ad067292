/** Lines 71-82 and 102-111: pairing theme labels with standardized residuals
    and listing the residuals that fall outside the critical limits. */
module Exceedances {
  import opened Filtering
  import opened Features

  /** A theme label and the standardized residual paired with it. */
  type Pair = (FieldValue, real)

  /** Python's zip: pairs up to the end of the shorter list. */
  function Zip(labels: seq<FieldValue>, residuals: seq<real>): (r: seq<Pair>)
    ensures |r| == if |labels| <= |residuals| then |labels| else |residuals|
    ensures forall k :: 0 <= k < |r| ==> r[k] == (labels[k], residuals[k])
  {
    if labels == [] || residuals == [] then []
    else [(labels[0], residuals[0])] + Zip(labels[1..], residuals[1..])
  }

  /** A residual exceeds the limits when it is strictly above the upper or
      strictly below the lower one; a residual equal to a limit does not. */
  predicate Outside(residual: real, lower: real, upper: real) {
    residual > upper || residual < lower
  }

  /** Positions of the exceeding pairs, in input order. */
  function OutsidePositions(pairs: seq<Pair>, lower: real, upper: real): seq<nat> {
    Positions(pairs, (q: Pair) => Outside(q.1, lower, upper))
  }

  /** One line of the residual section of a report. */
  datatype Line =
    | Header(corrected: bool)                          // "Residual values that exceed critical values..."
    | Exceedance(theme: FieldValue, residual: real)    // "The residue observed in theme '...' exceeds ..."
    | NoneExceed                                       // "None of the themes analyzed has residual values ..."

  /** The exceedance lines the loop appends, one per exceeding pair. */
  function ExceedanceLines(pairs: seq<Pair>, lower: real, upper: real): seq<Line> {
    if pairs == [] then []
    else
      var q := pairs[|pairs| - 1];
      ExceedanceLines(pairs[..|pairs| - 1], lower, upper) +
        (if Outside(q.1, lower, upper) then [Exceedance(q.0, q.1)] else [])
  }

  /** The residual section: the single "none" line when nothing exceeds,
      otherwise the header and then the exceedance lines. */
  function ExceedanceReport(pairs: seq<Pair>, lower: real, upper: real, corrected: bool): (r: seq<Line>)
    ensures r == [NoneExceed] <==> forall k :: 0 <= k < |pairs| ==> lower <= pairs[k].1 <= upper
    ensures r != [NoneExceed] ==>
      var idx := OutsidePositions(pairs, lower, upper);
      |r| == |idx| + 1 && r[0] == Header(corrected) &&
      forall k :: 0 <= k < |idx| ==> r[k + 1] == Exceedance(pairs[idx[k]].0, pairs[idx[k]].1)
  {
    var lines := ExceedanceLines(pairs, lower, upper);
    ExceedanceLinesMatch(pairs, lower, upper);
    NoExceedanceIff(pairs, lower, upper);
    if |lines| == 0 then [NoneExceed] else [Header(corrected)] + lines
  }

  /** The k-th exceedance line reports the k-th exceeding pair: one line per
      exceeding pair, in input order. */
  lemma {:induction false} ExceedanceLinesMatch(pairs: seq<Pair>, lower: real, upper: real)
    ensures var lines, idx := ExceedanceLines(pairs, lower, upper), OutsidePositions(pairs, lower, upper);
      |lines| == |idx| &&
      forall k :: 0 <= k < |idx| ==> lines[k] == Exceedance(pairs[idx[k]].0, pairs[idx[k]].1)
  {
    if pairs != [] {
      var init := pairs[..|pairs| - 1];
      ExceedanceLinesMatch(init, lower, upper);
      var idx := OutsidePositions(init, lower, upper);
      forall k | 0 <= k < |idx| ensures pairs[idx[k]] == init[idx[k]] { }
    }
  }

  /** The count is zero exactly when every residual lies within the closed
      interval [lower, upper]. */
  lemma NoExceedanceIff(pairs: seq<Pair>, lower: real, upper: real)
    ensures |OutsidePositions(pairs, lower, upper)| == 0 <==>
      forall k :: 0 <= k < |pairs| ==> lower <= pairs[k].1 <= upper
  {
    PositionsEmpty(pairs, (q: Pair) => Outside(q.1, lower, upper));
  }

  /** Wider limits never report more exceedances. */
  lemma WiderLimitsFewerExceedances(pairs: seq<Pair>, lower: real, upper: real, lower': real, upper': real)
    requires lower' <= lower && upper <= upper'
    ensures |OutsidePositions(pairs, lower', upper')| <= |OutsidePositions(pairs, lower, upper)|
  {
    PositionsMonotone(pairs, (q: Pair) => Outside(q.1, lower', upper'), (q: Pair) => Outside(q.1, lower, upper));
  }

  /** Wider limits report a subset of the lines narrower limits report. */
  lemma {:induction false} WiderLimitsSubset(pairs: seq<Pair>, lower: real, upper: real, lower': real, upper': real)
    requires lower' <= lower && upper <= upper'
    ensures forall l :: l in ExceedanceLines(pairs, lower', upper') ==> l in ExceedanceLines(pairs, lower, upper)
  {
    if pairs != [] {
      WiderLimitsSubset(pairs[..|pairs| - 1], lower, upper, lower', upper');
    }
  }

  /** The loop over the zipped pairs: it counts the residuals outside the
      limits and appends one line for each, and replaces the section by the
      "none" line when the count stays zero. */
  method ReportExceedances(pairs: seq<Pair>, lower: real, upper: real, corrected: bool)
    returns (count: nat, lines: seq<Line>)
    ensures count == |OutsidePositions(pairs, lower, upper)|
    ensures count == 0 <==> forall k :: 0 <= k < |pairs| ==> lower <= pairs[k].1 <= upper
    ensures lines == ExceedanceReport(pairs, lower, upper, corrected)
    ensures count == 0 ==> lines == [NoneExceed]
    ensures count > 0 ==> |lines| == count + 1 && lines[0] == Header(corrected)
  {
    lines := [Header(corrected)];
    count := 0;
    var i := 0;
    while i < |pairs|
      invariant 0 <= i <= |pairs|
      invariant lines == [Header(corrected)] + ExceedanceLines(pairs[..i], lower, upper)
      invariant count == |ExceedanceLines(pairs[..i], lower, upper)|
    {
      var (theme, residual) := pairs[i];
      assert pairs[..i + 1][..i] == pairs[..i];
      if residual > upper || residual < lower {
        lines := lines + [Exceedance(theme, residual)];
        count := count + 1;
      }
      i := i + 1;
    }
    if count == 0 {
      lines := [NoneExceed];
    }
    assert pairs[..i] == pairs;
    ExceedanceLinesMatch(pairs, lower, upper);
    NoExceedanceIff(pairs, lower, upper);
  }
}
