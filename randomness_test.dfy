/** The randomness test of processAlgorithm: extraction, normalisation, the
    chi-square test with and without Bonferroni correction, and the two reports.
    The statistics library is a parameter. */
module RandomnessTest {
  import opened Filtering
  import opened Features
  import opened Proportions
  import opened Statistic
  import opened Significance
  import opened Exceedances

  /** The numerical routines the script borrows from its libraries. */
  datatype Library = Library(
    chiSquare: (seq<real>, seq<real>) -> (real, real),  // scipy.stats.chisquare(observed, f_exp=expected): (statistic, p-value)
    ppf: real -> real,                                   // scipy.stats.norm.ppf
    residual: (real, real) -> real)                      // (observed - expected) / sqrt(expected) in floating point

  /** One of the two reports pushed to the feedback log, its content without
      the number formatting. */
  datatype Report = Report(
    corrected: bool,
    statistic: real,
    pValue: real,
    alpha: real,
    limits: Limits,
    exceedances: seq<Line>,
    decision: Decision)

  /** Line 70: the standardized residual of each category. */
  function Residuals(observed: seq<real>, expected: seq<real>, lib: Library): (r: seq<real>)
    requires |observed| == |expected|
    ensures |r| == |expected|
    ensures forall i :: 0 <= i < |r| ==> r[i] == lib.residual(observed[i], expected[i])
  {
    if expected == [] then []
    else [lib.residual(observed[0], expected[0])] + Residuals(observed[1..], expected[1..], lib)
  }

  /** Line 71: labels zipped with the residuals of the normalised columns. */
  function Pairs(expected0: seq<real>, observed0: seq<real>, labels: seq<FieldValue>, lib: Library): (r: seq<Pair>)
    requires |expected0| == |observed0|
    ensures |r| == if |labels| <= |expected0| then |labels| else |expected0|
    ensures forall k :: 0 <= k < |r| ==>
      r[k] == (labels[k], lib.residual(Normalized(observed0)[k], Normalized(expected0)[k]))
  {
    Zip(labels, Residuals(Normalized(observed0), Normalized(expected0), lib))
  }

  /** Lines 54-118 on extracted columns: both reports, or the division by zero
      of line 60 when no feature contributed a value. */
  function Evaluation(expected0: seq<real>, observed0: seq<real>, labels: seq<FieldValue>, alpha: real, lib: Library)
    : (r: Outcome<(Report, Report)>)
    requires |expected0| == |observed0|
    ensures r.Ok? <==> |expected0| > 0
    ensures r.Ok? ==>
      var plain, bonferroni := r.value.0, r.value.1;
      var pairs := Pairs(expected0, observed0, labels, lib);
      var (chi2, p) := lib.chiSquare(Normalized(observed0), Normalized(expected0));
      // the uncorrected report
      !plain.corrected && plain.statistic == chi2 && plain.pValue == p && plain.alpha == alpha &&
      plain.limits == CriticalValues(alpha, lib.ppf) &&
      plain.exceedances == ExceedanceReport(pairs, plain.limits.lower, plain.limits.upper, false) &&
      (plain.decision == Reject <==> p < alpha) &&
      // the Bonferroni-corrected report
      bonferroni.corrected && bonferroni.statistic == chi2 &&
      Bonferroni(p, alpha, |expected0|) == Ok(Correction(bonferroni.pValue, bonferroni.alpha)) &&
      bonferroni.limits == CriticalValues(bonferroni.alpha, lib.ppf) &&
      bonferroni.exceedances == ExceedanceReport(pairs, bonferroni.limits.lower, bonferroni.limits.upper, true) &&
      (bonferroni.decision == Reject <==> bonferroni.pValue < bonferroni.alpha)
  {
    var expected, observed := Normalized(expected0), Normalized(observed0);
    var (chi2, p) := lib.chiSquare(observed, expected);
    match Bonferroni(p, alpha, |expected|)
    case ZeroDivisionError => ZeroDivisionError
    case Ok(c) =>
      var pairs := Pairs(expected0, observed0, labels, lib);
      Ok((PlainReport(pairs, chi2, p, alpha, lib), CorrectedReport(pairs, chi2, c, lib)))
  }

  /** Lines 62-88: the report without correction. */
  function PlainReport(pairs: seq<Pair>, chi2: real, p: real, alpha: real, lib: Library): (r: Report)
    ensures !r.corrected && r.statistic == chi2 && r.pValue == p && r.alpha == alpha
    ensures r.limits == CriticalValues(alpha, lib.ppf)
    ensures r.exceedances == ExceedanceReport(pairs, r.limits.lower, r.limits.upper, false)
    ensures r.decision == Reject <==> p < alpha
  {
    var limits := CriticalValues(alpha, lib.ppf);
    Report(false, chi2, p, alpha, limits, ExceedanceReport(pairs, limits.lower, limits.upper, false), Decide(p, alpha))
  }

  /** Lines 96-118: the report with the Bonferroni correction c. */
  function CorrectedReport(pairs: seq<Pair>, chi2: real, c: Correction, lib: Library): (r: Report)
    ensures r.corrected && r.statistic == chi2 && r.pValue == c.pValue && r.alpha == c.alpha
    ensures r.limits == CriticalValues(c.alpha, lib.ppf)
    ensures r.exceedances == ExceedanceReport(pairs, r.limits.lower, r.limits.upper, true)
    ensures r.decision == Reject <==> c.pValue < c.alpha
  {
    var limits := CriticalValues(c.alpha, lib.ppf);
    Report(true, chi2, c.pValue, c.alpha, limits, ExceedanceReport(pairs, limits.lower, limits.upper, true),
           Decide(c.pValue, c.alpha))
  }

  /** processAlgorithm from the feature loop to the second report. */
  method ProcessAlgorithm(features: seq<Feature>, alpha: real, lib: Library) returns (r: Outcome<(Report, Report)>)
    ensures r == Evaluation(ExpectedOf(features), ObservedOf(features), Labels(features), alpha, lib)
    ensures r.Ok? <==> exists i :: 0 <= i < |features| && Kept(features[i])
  {
    var expected, observed, labels := Extract(features);
    r := RunTests(expected, observed, labels, alpha, lib);
    if r.Ok? {
      var i := KeptIndices(features)[0];
      assert Kept(features[i]);
    } else if i :| 0 <= i < |features| && Kept(features[i]) {
      PositionsExact(features, Kept, i);
      assert false;
    }
  }

  /** Lines 54-118: normalisation, the test, the correction and the two
      residual loops on the extracted columns. */
  method RunTests(expected0: seq<real>, observed0: seq<real>, labels: seq<FieldValue>, alpha: real, lib: Library)
    returns (r: Outcome<(Report, Report)>)
    requires |expected0| == |observed0|
    ensures r == Evaluation(expected0, observed0, labels, alpha, lib)
  {
    var expected := Normalized(expected0);
    var observed := Normalized(observed0);
    var (chi2, p) := lib.chiSquare(observed, expected);
    var numTests := |expected|;
    var correction := Bonferroni(p, alpha, numTests);
    if correction.ZeroDivisionError? {
      r := ZeroDivisionError;
    } else {
      var bonferroniLimits := CriticalValues(correction.value.alpha, lib.ppf);
      var alphaLimits := CriticalValues(alpha, lib.ppf);
      var pairs := Zip(labels, Residuals(observed, expected, lib));
      var count, lines := ReportExceedances(pairs, alphaLimits.lower, alphaLimits.upper, false);
      var plain := Report(false, chi2, p, alpha, alphaLimits, lines, Decide(p, alpha));
      var bonferroniCount, bonferroniLines := ReportExceedances(pairs, bonferroniLimits.lower, bonferroniLimits.upper, true);
      var bonferroni := Report(true, chi2, correction.value.pValue, correction.value.alpha, bonferroniLimits,
                               bonferroniLines, Decide(correction.value.pValue, correction.value.alpha));
      r := Ok((plain, bonferroni));
    }
  }

  /** With a non-negative p-value, a rejection by the
      corrected test implies a rejection by the uncorrected one. */
  lemma CorrectedRejectionImpliesPlain(expected0: seq<real>, observed0: seq<real>, labels: seq<FieldValue>, alpha: real, lib: Library)
    requires |expected0| == |observed0| && |expected0| > 0
    requires lib.chiSquare(Normalized(observed0), Normalized(expected0)).1 >= 0.0
    ensures var r := Evaluation(expected0, observed0, labels, alpha, lib);
      r.value.1.decision == Reject ==> r.value.0.decision == Reject
  {
    var r := Evaluation(expected0, observed0, labels, alpha, lib);
    var p := lib.chiSquare(Normalized(observed0), Normalized(expected0)).1;
    BonferroniConservative(p, alpha, |expected0|, Correction(r.value.1.pValue, r.value.1.alpha));
  }

  /** For a strictly increasing quantile function and 0 < alpha < 1 the
      corrected report lists no more exceeding themes than the uncorrected
      one. */
  lemma CorrectedReportsFewerExceedances(expected0: seq<real>, observed0: seq<real>, labels: seq<FieldValue>, alpha: real, lib: Library)
    requires |expected0| == |observed0| && |expected0| > 0
    requires StrictlyIncreasing(lib.ppf) && 0.0 < alpha < 1.0
    ensures var r := Evaluation(expected0, observed0, labels, alpha, lib);
      |r.value.1.exceedances| <= |r.value.0.exceedances|
  {
    var r := Evaluation(expected0, observed0, labels, alpha, lib);
    var pairs := Pairs(expected0, observed0, labels, lib);
    var plain, corrected := r.value.0.limits, r.value.1.limits;
    BonferroniWidensLimits(alpha, |expected0|, lib.ppf);
    WiderLimitsFewerExceedances(pairs, plain.lower, plain.upper, corrected.lower, corrected.upper);
    ExceedanceLinesMatch(pairs, plain.lower, plain.upper);
    ExceedanceLinesMatch(pairs, corrected.lower, corrected.upper);
  }

  /** Under the same conditions every theme the corrected report names as
      exceeding is named, with the same residual, by the uncorrected report. */
  lemma CorrectedExceedancesAmongPlain(expected0: seq<real>, observed0: seq<real>, labels: seq<FieldValue>, alpha: real, lib: Library)
    requires |expected0| == |observed0| && |expected0| > 0
    requires StrictlyIncreasing(lib.ppf) && 0.0 < alpha < 1.0
    ensures var r := Evaluation(expected0, observed0, labels, alpha, lib);
      forall l :: l in r.value.1.exceedances && l.Exceedance? ==> l in r.value.0.exceedances
  {
    var r := Evaluation(expected0, observed0, labels, alpha, lib);
    var pairs := Pairs(expected0, observed0, labels, lib);
    var plain, corrected := r.value.0.limits, r.value.1.limits;
    BonferroniWidensLimits(alpha, |expected0|, lib.ppf);
    WiderLimitsSubset(pairs, plain.lower, plain.upper, corrected.lower, corrected.upper);
  }

  /** When the library's residual is the standardized residual and every
      expected proportion is positive, the squared residuals the reports
      classify add up to the textbook chi-square statistic. */
  lemma ResidualsMatchStatistic(expected0: seq<real>, observed0: seq<real>, lib: Library)
    requires |expected0| == |observed0| && PositiveExpected(Normalized(expected0))
    requires forall o, e :: e > 0.0 ==> lib.residual(o, e) * lib.residual(o, e) == Term(o, e)
    ensures var observed, expected := Normalized(observed0), Normalized(expected0);
      Sum(Squares(Residuals(observed, expected, lib))) == ChiSquare(observed, expected)
  {
    var observed, expected := Normalized(observed0), Normalized(expected0);
    SquaredResidualsSum(Residuals(observed, expected, lib), observed, expected);
  }

  /** A layer whose first feature (theme "A") has a missing expected value. */
  const MisalignedLayer := [Feature(Null, Int(5), Text("A")), Feature(Int(1), Int(9), Text("B")), Feature(Int(9), Int(1), Text("C"))]

  /** The prefixes of MisalignedLayer the column functions unfold to. */
  lemma MisalignedLayerPrefixes()
    ensures MisalignedLayer[..2] == [MisalignedLayer[0], MisalignedLayer[1]]
    ensures MisalignedLayer[..2][..1] == [MisalignedLayer[0]] && MisalignedLayer[..2][..1][..0] == []
    ensures !Kept(MisalignedLayer[0]) && Kept(MisalignedLayer[1]) && Kept(MisalignedLayer[2])
  {
  }

  /** The columns the feature loop extracts from MisalignedLayer. */
  lemma MisalignedLayerColumns()
    ensures KeptIndices(MisalignedLayer) == [1, 2]
    ensures ExpectedOf(MisalignedLayer) == [1.0, 9.0] && ObservedOf(MisalignedLayer) == [9.0, 1.0]
    ensures Labels(MisalignedLayer) == [Text("A"), Text("B"), Text("C")]
  {
    var fs := MisalignedLayer;
    MisalignedLayerPrefixes();
    assert Positions(fs[..2][..1], Kept) == [];
    assert Positions(fs[..2], Kept) == [1];
    assert ExpectedOf(fs[..2]) == [1.0] && ObservedOf(fs[..2]) == [9.0];
  }

  lemma MisalignedLayerProportions()
    ensures Normalized([1.0, 9.0]) == [0.1, 0.9] && Normalized([9.0, 1.0]) == [0.9, 0.1]
  {
    assert Sum([9.0]) == 9.0 && Sum([1.0]) == 1.0;
    assert DivideAll([9.0], 10.0) == [0.9] && DivideAll([1.0], 10.0) == [0.1];
  }

  /** The residuals of the normalised columns of MisalignedLayer. */
  lemma MisalignedLayerResiduals(lib: Library)
    requires lib.residual(0.9, 0.1) == 2.53 && lib.residual(0.1, 0.9) == -0.84
    ensures Residuals([0.9, 0.1], [0.1, 0.9], lib) == [2.53, -0.84]
  {
    assert [0.9, 0.1][1..] == [0.1] && [0.1, 0.9][1..] == [0.9];
    assert Residuals([0.1], [0.9], lib) == [-0.84];
  }

  /** The zipped pairs of the columns of MisalignedLayer. */
  lemma MisalignedLayerPairs(expected0: seq<real>, observed0: seq<real>, labels: seq<FieldValue>, lib: Library)
    requires expected0 == [1.0, 9.0] && observed0 == [9.0, 1.0] && labels == [Text("A"), Text("B"), Text("C")]
    requires lib.residual(0.9, 0.1) == 2.53 && lib.residual(0.1, 0.9) == -0.84
    ensures Pairs(expected0, observed0, labels, lib) == [(Text("A"), 2.53), (Text("B"), -0.84)]
  {
    MisalignedLayerProportions();
    MisalignedLayerResiduals(lib);
    var residuals := [2.53, -0.84];
    assert labels[1..] == [Text("B"), Text("C")] && residuals[1..] == [-0.84];
    assert Zip(labels[1..], residuals[1..]) == [(Text("B"), -0.84)];
  }

  /** With two categories, the residual sections of the two reports are those
      of the pairs at the limits for alpha and alpha / 2. */
  lemma SectionsOfTwoCategories(expected0: seq<real>, observed0: seq<real>, labels: seq<FieldValue>, alpha: real, lib: Library)
    requires |expected0| == |observed0| == 2
    ensures var r, pairs := Evaluation(expected0, observed0, labels, alpha, lib), Pairs(expected0, observed0, labels, lib);
      var plain, corrected := CriticalValues(alpha, lib.ppf), CriticalValues(alpha / 2.0, lib.ppf);
      r.Ok? &&
      r.value.0.exceedances == ExceedanceReport(pairs, plain.lower, plain.upper, false) &&
      r.value.1.exceedances == ExceedanceReport(pairs, corrected.lower, corrected.upper, true)
  {
  }

  /** Of those pairs only the first lies outside limits of magnitude between
      1.96 and 2.24. */
  lemma MisalignedLayerSection(limit: real, corrected: bool)
    requires 1.96 <= limit <= 2.24
    ensures ExceedanceReport([(Text("A"), 2.53), (Text("B"), -0.84)], -limit, limit, corrected)
      == [Header(corrected), Exceedance(Text("A"), 2.53)]
  {
    var pairs: seq<Pair> := [(Text("A"), 2.53), (Text("B"), -0.84)];
    assert pairs[..1] == [pairs[0]] && pairs[..1][..0] == [];
    assert ExceedanceLines(pairs[..1], -limit, limit) == [Exceedance(Text("A"), 2.53)];
    assert ExceedanceLines(pairs, -limit, limit) == [Exceedance(Text("A"), 2.53)];
  }

  /** As written, labels are not filtered. In MisalignedLayer the first
      residual is computed from the values of theme "B", exceeds the limits,
      and is reported under theme "A" by both reports. The residuals 2.53 and
      -0.84 are (0.9 - 0.1) / sqrt(0.1) and (0.1 - 0.9) / sqrt(0.9) rounded to
      two places. */
  lemma PairsMisaligned(alpha: real, lib: Library)
    requires lib.residual(0.9, 0.1) == 2.53 && lib.residual(0.1, 0.9) == -0.84
    requires CriticalValues(alpha, lib.ppf) == Limits(1.96, -1.96)
    requires CriticalValues(alpha / 2.0, lib.ppf) == Limits(2.24, -2.24)
    ensures var fs := MisalignedLayer;
      var r := Evaluation(ExpectedOf(fs), ObservedOf(fs), Labels(fs), alpha, lib);
      KeptIndices(fs) == [1, 2] && fs[1].theme == Text("B") &&
      Normalized(ObservedOf(fs)) == [ToReal(fs[1].observed) / 10.0, ToReal(fs[2].observed) / 10.0] &&
      r.Ok? &&
      r.value.0.exceedances == [Header(false), Exceedance(Text("A"), 2.53)] &&
      r.value.1.exceedances == [Header(true), Exceedance(Text("A"), 2.53)]
  {
    var fs := MisalignedLayer;
    MisalignedLayerColumns();
    MisalignedLayerProportions();
    MisalignedLayerPairs(ExpectedOf(fs), ObservedOf(fs), Labels(fs), lib);
    MisalignedLayerSection(1.96, false);
    MisalignedLayerSection(2.24, true);
    SectionsOfTwoCategories(ExpectedOf(fs), ObservedOf(fs), Labels(fs), alpha, lib);
  }

  /** Corrected: with the filtered labels, pair k carries the theme of the
      k-th contributing feature, the same feature whose values entry k of both
      columns holds, and no residual is left unpaired. */
  lemma KeptPairsAligned(fs: seq<Feature>, lib: Library)
    ensures |ExpectedOf(fs)| == |ObservedOf(fs)|
    ensures var pairs := Pairs(ExpectedOf(fs), ObservedOf(fs), KeptLabels(fs), lib);
      |pairs| == |KeptIndices(fs)| &&
      forall k :: 0 <= k < |pairs| ==>
        var f := fs[KeptIndices(fs)[k]];
        pairs[k].0 == f.theme &&
        ExpectedOf(fs)[k] == ToReal(f.expected) && ObservedOf(fs)[k] == ToReal(f.observed) &&
        pairs[k].1 == lib.residual(Normalized(ObservedOf(fs))[k], Normalized(ExpectedOf(fs))[k])
  {
    ColumnsFromKeptFeatures(fs);
    KeptLabelsAligned(fs);
  }

  /** When the library's statistic is the textbook one, both reports carry the
      same non-negative statistic, and it is zero exactly when the normalised
      observed column equals the normalised expected one. */
  lemma ReportedStatistic(expected0: seq<real>, observed0: seq<real>, labels: seq<FieldValue>, alpha: real, lib: Library)
    requires |expected0| == |observed0| && |expected0| > 0
    requires PositiveExpected(Normalized(expected0))
    requires lib.chiSquare(Normalized(observed0), Normalized(expected0)).0 == ChiSquare(Normalized(observed0), Normalized(expected0))
    ensures var r := Evaluation(expected0, observed0, labels, alpha, lib);
      r.value.0.statistic == r.value.1.statistic && r.value.0.statistic >= 0.0 &&
      (r.value.0.statistic == 0.0 <==> Normalized(observed0) == Normalized(expected0))
  {
    ChiSquareZeroIff(Normalized(observed0), Normalized(expected0));
  }
}
