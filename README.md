# Spatial randomness test, part 2: chi-square goodness-of-fit with Bonferroni correction

This project models the numerical core of the QGIS processing algorithm
`TesteAleatoriedadeProcessingAlgorithm` (`chisquare_bf.py`). Part 1 of the
workflow (`overlay_process.py`) prepares, for each analysis polygon ("theme"),
an expected value, the polygon's share of the total area (field
`expected_vals`, formula `$area/sum($area)` at overlay_process.py:171), and an
observed value, its share of the points (field `observed_vals`, formula
`"NUMPOINTS"/sum("NUMPOINTS")` at overlay_process.py:187). Both columns are
stored with three decimals. On such input the normalisation below mostly
rescales columns that already sum to about 1. It changes a column noticeably
only when features are filtered out, which is the situation of the first
Findings row. The algorithm then:

1. walks the features of the layer and collects the label of every feature
   into one list. It collects the expected and observed values into two more
   lists, but only from features where both values are numeric;
2. normalises both columns to proportions of their totals;
3. runs the chi-square test once as is and once with Bonferroni correction:
   the p-value is multiplied by n and alpha is divided by n, where n is the
   number of values;
4. zips the labels with the standardized residuals and lists every residual
   strictly outside the two-sided normal critical limits. If there are none,
   it prints a single "none" line instead;
5. rejects the null hypothesis when the p-value is strictly below alpha.

The Dafny modules follow these steps:

- `Filtering`: the positions of the elements a filter keeps, in order.
- `Features`: attribute values, the feature loop `Extract`, and the specification functions for the columns it builds.
- `Proportions`: `Sum` and `Normalized`.
- `Statistic`: the textbook chi-square statistic, and how the standardized residuals relate to it.
- `Significance`: `CriticalValues`, `Bonferroni`, `Decide`.
- `Exceedances`: `Zip` and the residual loop `ReportExceedances`.
- `RandomnessTest`: the whole run `ProcessAlgorithm`, its test part `RunTests`, their specification `Evaluation`, and the relations between the two reports.
- `RealArith`: small lemmas about real products and quotients.

The library routines are fields of a `Library` value:

- `scipy.stats.chisquare`, which gives the statistic and the p-value;
- `scipy.stats.norm.ppf`;
- the floating-point residual `(o - e) / sqrt(e)`.

The model proves what the script does with their results. Where a property
depends on what these routines compute, the lemma states that as a hypothesis:
`StrictlyIncreasing(ppf)`, `Symmetric(ppf)`, a non-negative p-value, or a
residual whose square is `(o - e)^2 / e`.

Python's `bool` is a subclass of `int`, so a boolean attribute passes the
`isinstance(x, (int, float))` test. `float(True)` is `1.0`. The model keeps
this behaviour (`FieldValue.Bool`).

`zip(label, res_std)` at line 71 pairs labels and residuals by position, as
if the lists were parallel. The code does not keep them parallel: the label
list gets an entry for every feature, so it is longer whenever a feature is
filtered out. The model follows the code (see Findings).

## Model

| member | source | states |
|---|---|---|
| Filtering.PositionsExact | chisquare_bf.py:50-52 | an index is kept exactly when its element passes the filter; with `Positions`' own contract (ascending, in bounds) this is "kept in input order, nothing else" |
| Features.ExpectedOf | chisquare_bf.py:50-51 | the expected column has one entry per feature whose two values are both numeric |
| Features.ObservedOf | chisquare_bf.py:50-52 | the observed column has one entry per such feature |
| Features.Labels | chisquare_bf.py:49 | the label column has one entry per feature, and entry i is feature i's label |
| Features.ColumnsFromKeptFeatures | chisquare_bf.py:46-52 | entry k of the expected column and entry k of the observed column both come from the k-th contributing feature: a feature enters both columns or neither |
| Features.Extract | chisquare_bf.py:42-52 | the loop builds exactly `ExpectedOf`, `ObservedOf`, `Labels`; expected and observed have equal length, which is at most the label count, and the label count equals the feature count |
| Features.KeptLabels | chisquare_bf.py:49-52 | corrected label column, the label appended inside the numeric branch: one label per contributing feature, as many as there are values; `KeptLabelsAligned` states which label sits at each position |
| Features.KeptLabelsAligned | chisquare_bf.py:49-52 | corrected label column: one label per contributing feature, the k-th being the label of the k-th contributing feature |
| Features.LabelsAgreeWithoutFiltering | chisquare_bf.py:49-52 | when every feature is numeric the label column as written and the corrected one coincide |
| Proportions.Normalized | chisquare_bf.py:31-33 | same length; a zero total returns the list unchanged; otherwise each result times the total gives back the input value |
| Proportions.NormalizedIsDivision | chisquare_bf.py:32-33 | when the total is non-zero, element i of the result is value i divided by the total |
| Proportions.ShareIsQuotient | chisquare_bf.py:33 | a share r of a non-zero total t (r * t = v) is the quotient v / t, so the product form of `Normalized`'s contract and the division of line 33 agree |
| Proportions.NormalizedSumsToOne | chisquare_bf.py:32-33 | when the total is non-zero the proportions sum to 1 |
| Proportions.NormalizedIdempotent | chisquare_bf.py:31-33 | normalising twice equals normalising once |
| Proportions.NormalizedAreProportions | chisquare_bf.py:31-33 | non-negative values with a non-zero total become proportions in [0, 1] |
| Statistic.ChiSquare | chisquare_bf.py:57 | the statistic defined as the sum of (o - e)^2 / e is non-negative |
| Statistic.ChiSquareZeroIff | chisquare_bf.py:57 | the statistic is zero exactly when the observed column equals the expected one |
| Statistic.SquaredResidualsSum | chisquare_bf.py:70 | the squares of standardized residuals add up to the statistic |
| Significance.CriticalValues | chisquare_bf.py:25-28 | `critical_values`: the upper limit is the quantile at 1 - alpha / 2 and the lower limit the quantile at alpha / 2 of the given quantile function; no contract of its own, its order and symmetry are the two lemmas below |
| Significance.CriticalValuesOrdered | chisquare_bf.py:25-28 | for 0 < alpha < 1 and an increasing quantile function, lower limit < upper limit |
| Significance.CriticalValuesSymmetric | chisquare_bf.py:25-28 | with a symmetric quantile function, upper limit = -lower limit |
| Significance.Bonferroni | chisquare_bf.py:58-60 | the corrected values exist exactly when n > 0, and then corrected p = p * n and corrected alpha * n = alpha; n = 0 is the ZeroDivisionError |
| Significance.BonferroniWidensLimits | chisquare_bf.py:60-63 | the critical interval at alpha / n contains the one at alpha |
| Significance.Decide | chisquare_bf.py:85-88 | the decision rejects exactly when the p-value is strictly below alpha; a p-value equal to alpha does not reject |
| Significance.CorrectedRejectIff | chisquare_bf.py:115-118 | the corrected test rejects exactly when p * n * n < alpha |
| Significance.CorrectedDecisionFacts | chisquare_bf.py:58-60 | a decision on the corrected values of n tests sees p * n and the alpha whose n-fold is alpha, and rejects exactly when p * n < alpha / n, that is when p * n * n < alpha |
| Significance.DoubleCorrectionMissesRejection | chisquare_bf.py:115-118 | as written: with p = 0.015, n = 2 and alpha = 0.05, p < alpha / n holds, but the corrected comparison p * n < alpha / n fails, so the test does not reject |
| Significance.BonferroniDecision | chisquare_bf.py:115-118 | corrected: the Bonferroni test rejects exactly when p * n < alpha, and equivalently exactly when p < alpha / n |
| Significance.BonferroniDecisionConservative | chisquare_bf.py:115-118 | corrected: for p >= 0, whatever the Bonferroni test rejects, the uncorrected test rejects too |
| Significance.BonferroniConservative | chisquare_bf.py:115-118 | for p >= 0 and any alpha: when the decision on the values `Bonferroni` yields rejects, the uncorrected decision rejects too |
| Exceedances.Zip | chisquare_bf.py:71 | min(len(labels), len(residuals)) pairs, pair k is (labels[k], residuals[k]) |
| Exceedances.ExceedanceReport | chisquare_bf.py:73-82 | the residual section is the single "none" line exactly when every residual lies within [lower, upper]; otherwise it is the header followed by one line for each pair strictly outside the limits, in input order |
| Exceedances.ExceedanceLinesMatch | chisquare_bf.py:76-79 | line k reports the k-th pair whose residual is strictly outside the limits, in input order |
| Exceedances.NoExceedanceIff | chisquare_bf.py:76-82 | the count is zero exactly when every residual lies in the closed interval [lower, upper]; a residual equal to a limit is not counted |
| Exceedances.WiderLimitsFewerExceedances | chisquare_bf.py:105-108 | wider limits never count more exceedances |
| Exceedances.WiderLimitsSubset | chisquare_bf.py:105-108 | every line reported under wider limits is also reported under narrower ones |
| Exceedances.ReportExceedances | chisquare_bf.py:73-82 | the loop's count is the number of pairs strictly outside the limits, and it is zero exactly when all residuals lie within them; the lines are the single "none" line when the count is 0, otherwise the header plus `count` exceedance lines |
| RandomnessTest.Residuals | chisquare_bf.py:70 | one residual per category, computed from that category's observed and expected proportion |
| RandomnessTest.Pairs | chisquare_bf.py:70-71 | min(len(labels), n) pairs; pair k is label k with the library residual of the k-th normalised observed and expected values |
| RandomnessTest.PlainReport | chisquare_bf.py:62-88 | the uncorrected report: not marked corrected; it carries the given statistic, p-value and alpha, the limits at that alpha, the residual section at those limits, and rejects exactly when p < alpha |
| RandomnessTest.CorrectedReport | chisquare_bf.py:96-118 | the corrected report: marked corrected; it carries the given statistic and the corrected p-value and alpha, the limits at the corrected alpha, the residual section at those limits, and rejects exactly when corrected p < corrected alpha |
| RandomnessTest.Evaluation | chisquare_bf.py:54-118 | the two reports are built by `PlainReport` and `CorrectedReport`; both reports exist exactly when n > 0. Uncorrected report: p, alpha, limits at alpha, exceedances at those limits, reject iff p < alpha. Corrected report: the p-value and alpha that `Bonferroni` yields for n tests (p * n, and the alpha whose n-fold is the input alpha), limits at that alpha, exceedances at those limits, reject iff corrected p < corrected alpha. Both carry the library statistic |
| RandomnessTest.RunTests | chisquare_bf.py:54-118 | the normalisation, the test, the correction and the two residual loops produce exactly `Evaluation` of the extracted columns |
| RandomnessTest.ProcessAlgorithm | chisquare_bf.py:35-122 | the feature loop followed by `RunTests`: the run is `Evaluation` of the extracted columns, and it ends in the division by zero exactly when no feature has two numeric values |
| RandomnessTest.CorrectedRejectionImpliesPlain | chisquare_bf.py:85-118 | with a non-negative p-value and any alpha, whenever the corrected report rejects, so does the uncorrected one |
| RandomnessTest.CorrectedReportsFewerExceedances | chisquare_bf.py:102-111 | with an increasing quantile function and 0 < alpha < 1, the corrected residual section is no longer than the uncorrected one |
| RandomnessTest.CorrectedExceedancesAmongPlain | chisquare_bf.py:102-111 | under the same conditions every exceedance line of the corrected report appears in the uncorrected one |
| RandomnessTest.ReportedStatistic | chisquare_bf.py:57 | if the library statistic is the textbook one on positive expected proportions, both reports carry the same statistic; it is non-negative, and zero exactly when the normalised observed column equals the normalised expected one |
| RandomnessTest.ResidualsMatchStatistic | chisquare_bf.py:57-70 | if the library's residual squares to (o - e)^2 / e and the expected proportions are positive, the squared residuals sum to the textbook statistic |
| RandomnessTest.PairsMisaligned | chisquare_bf.py:46-79 | as written, for the layer (NULL, 5, "A"), (1, 9, "B"), (9, 1, "C"): the first residual comes from the values of theme "B" (normalised 0.9 against 0.1). Given residuals of 2.53 and -0.84 and limits of 1.96 and 2.24, both reports print that residual under theme "A" |
| RandomnessTest.KeptPairsAligned | chisquare_bf.py:46-71 | corrected: with the filtered labels, pair k carries the label of the same feature that holds entry k of both columns, and every residual gets a label |

## Findings

| source | as written | input that shows it | evidently intended | confidence | as-written member | corrected member |
|---|---|---|---|---|---|---|
| chisquare_bf.py:49 | `label.append` runs for every feature, but the two values are appended only when both are numeric; `zip(label, res_std)` at line 71 then pairs the k-th label with the k-th residual | features (NULL, 5, "A"), (1, 9, "B"), (9, 1, "C"): the normalised columns are [0.1, 0.9] and [0.9, 0.1]. The first residual, about 2.53, comes from "B" and exceeds 1.96, but the report prints it under theme 'A' | append the label inside the numeric branch, next to the two values | not executed; high, the pairing follows from list positions alone | RandomnessTest.PairsMisaligned | RandomnessTest.KeptPairsAligned |
| chisquare_bf.py:115 | the corrected p-value `p_valor * num_tests` is compared with the corrected alpha `alpha / num_tests`, so the correction is applied twice: the test rejects only when p * n * n < alpha | p = 0.015, n = 2, alpha = 0.05: p < alpha / n, yet the corrected test does not reject | compare the corrected p-value with alpha, or the p-value with the corrected alpha | not executed; high, it follows from the comparison alone | Significance.DoubleCorrectionMissesRejection | Significance.BonferroniDecision |

`ProcessAlgorithm` models the code as written, with the unfiltered labels.
`Evaluation` takes the label column as a parameter. The corrected run is
`Evaluation(ExpectedOf(fs), ObservedOf(fs), KeptLabels(fs), alpha, lib)`.
`KeptPairsAligned` states the intended pairing for that run.
`LabelsAgreeWithoutFiltering` shows that the two runs agree whenever no
feature is filtered out.

Likewise `Evaluation` keeps the decision of line 115 as written,
`Decide(p * n, alpha / n)`. `CorrectedDecisionFacts` and `CorrectedRejectIff`
state what that decision means. The intended decision is `BonferroniDecision(p, alpha, n)`.

## Left out

- `overlay_process.py`: it only sets up parameters and calls host algorithms (hull, minimum bounding geometry, buffer, clip, aggregate, count points, field calculator), so it is not part of this model.
- The library numerics are abstract `Library` fields: the chi-square p-value and statistic, `norm.ppf`, and the square root inside the standardized residual. The lemmas state the properties of these routines they need as hypotheses; no model of the routines is given.
- scipy's own argument checks (for example, its error when the two columns have different totals) are library behaviour and are not modelled.
- IEEE double arithmetic is left out; values are Dafny reals. The model has no rounding, NaN or infinity. A float attribute that is NaN counts as numeric in the source; here it is an ordinary real.
- A zero expected proportion makes numpy divide by zero in the residual. The result is whatever `Library.residual` returns. `Statistic.ChiSquare` is defined only for positive expected proportions.
- Message text and number formatting (`:.3f`, `:.4f`, `:.6f`) are modelled as structure: `Report` fields and `Line` values, not characters.
- `feedback.pushInfo` is not modelled. The two reports are returned instead of being logged.
- Parameter accessors (`parameterAsVectorLayer`, `parameterAsString`, `parameterAsDouble`), `initAlgorithm` and the plugin metadata methods are not modelled. A layer is given as a sequence of features, each reduced to its expected, observed and label values.
- Host errors for a missing or wrong field name are not modelled.
