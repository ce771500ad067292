/** The chi-square goodness-of-fit statistic from its textbook formula, and how
    the standardized residuals the report classifies relate to it. The report
    itself takes the statistic from the statistics library; this module states
    what that value means. */
module Statistic {
  import opened Proportions
  import opened RealArith

  /** Every expected proportion is positive, the domain of the formula. */
  predicate PositiveExpected(e: seq<real>) {
    forall i :: 0 <= i < |e| ==> e[i] > 0.0
  }

  /** The contribution (o - e)^2 / e of one category. */
  function Term(o: real, e: real): real
    requires e > 0.0
  {
    (o - e) * (o - e) / e
  }

  /** The sum over categories of their contributions. */
  function ChiSquare(o: seq<real>, e: seq<real>): (r: real)
    requires |o| == |e| && PositiveExpected(e)
    ensures r >= 0.0
  {
    if o == [] then 0.0
    else
      TermFacts(o[0], e[0]);
      Term(o[0], e[0]) + ChiSquare(o[1..], e[1..])
  }

  /** A category contributes nothing exactly when it is observed as expected,
      and never contributes a negative amount. */
  lemma TermFacts(o: real, e: real)
    requires e > 0.0
    ensures Term(o, e) >= 0.0
    ensures Term(o, e) == 0.0 <==> o == e
  {
    var d := o - e;
    var m := d * d;
    SquareFacts(d, m);
    QuotientFacts(m, e, Term(o, e));
  }

  /** The statistic vanishes exactly when every observed proportion equals the
      expected one. */
  lemma {:induction false} ChiSquareZeroIff(o: seq<real>, e: seq<real>)
    requires |o| == |e| && PositiveExpected(e)
    ensures ChiSquare(o, e) == 0.0 <==> o == e
  {
    if o != [] {
      TermFacts(o[0], e[0]);
      ChiSquareZeroIff(o[1..], e[1..]);
      if o[0] == e[0] && o[1..] == e[1..] {
        assert o == [o[0]] + o[1..] && e == [e[0]] + e[1..];
      }
    }
  }

  /** Each res[i] is a standardized residual (o[i] - e[i]) / sqrt(e[i]):
      its square is the i-th term of the statistic. */
  predicate StandardResiduals(res: seq<real>, o: seq<real>, e: seq<real>) {
    |res| == |o| == |e| && PositiveExpected(e) &&
    forall i :: 0 <= i < |res| ==> res[i] * res[i] == Term(o[i], e[i])
  }

  function Squares(s: seq<real>): (r: seq<real>)
    ensures |r| == |s|
  {
    if s == [] then [] else [s[0] * s[0]] + Squares(s[1..])
  }

  /** The squared standardized residuals add up to the statistic. */
  lemma {:induction false} SquaredResidualsSum(res: seq<real>, o: seq<real>, e: seq<real>)
    requires StandardResiduals(res, o, e)
    ensures Sum(Squares(res)) == ChiSquare(o, e)
  {
    if res != [] {
      assert StandardResiduals(res[1..], o[1..], e[1..]) by {
        forall i | 0 <= i < |res| - 1
          ensures res[1..][i] * res[1..][i] == Term(o[1..][i], e[1..][i])
        {
          assert res[1..][i] == res[i + 1] && o[1..][i] == o[i + 1] && e[1..][i] == e[i + 1];
        }
      }
      SquaredResidualsSum(res[1..], o[1..], e[1..]);
    }
  }
}
