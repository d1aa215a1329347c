/**
 * A node of the regression tree (`RegressionNode` in regressor.py): the sum
 * of squared residuals, the per-column split search `calc_ssr_to_feature`,
 * the calibration `_bestSplit`, and the node itself, a class whose split
 * fields and children are updated in place and whose `predictedVal` is the
 * mean label of its rows.
 */
module RegressionNode {
  import opened Wrappers
  import opened Score
  import opened Table
  import opened Reals
  import opened DecisionNode
  import opened DecisionTree

  /** The label constants the regressor imports: `labelNumericName` and `labelNumericIndex`. */
  datatype NumericLabel = NumericLabel(labelName: string, labelIndex: nat)

  /** A node's rows fit its column names, and the numeric label column is one of them. */
  ghost predicate Shaped(data: seq<Row>, names: seq<string>, lab: NumericLabel) {
    WellFormed(data, names) && lab.labelIndex < |names|
  }

  // -------------------------------------------------------------------- SSR

  /** The sum of the squared deviations of the values in `s` from `m`. */
  function SquaredDeviations(s: seq<real>, m: real): real {
    if s == [] then 0.0 else (s[0] - m) * (s[0] - m) + SquaredDeviations(s[1..], m)
  }

  /** Squared deviations are never negative, and they vanish exactly when every value equals `m`. */
  lemma {:induction false} SquaredDeviationsZero(s: seq<real>, m: real)
    ensures 0.0 <= SquaredDeviations(s, m)
    ensures SquaredDeviations(s, m) == 0.0 <==> forall i :: 0 <= i < |s| ==> s[i] == m
  {
    if s != [] {
      SquaredDeviationsZero(s[1..], m);
      SquareNonneg(s[0] - m);
      ProductZero(s[0] - m, s[0] - m);
      assert forall i :: 1 <= i < |s| ==> s[i] == s[1..][i - 1];
    }
  }

  /** A column whose values all equal `c` sums to `|s| * c`. */
  lemma {:induction false} SumConstant(s: seq<real>, c: real)
    requires forall i :: 0 <= i < |s| ==> s[i] == c
    ensures Sum(s) == |s| as real * c
  {
    if s != [] {
      SumConstant(s[1..], c);
    }
  }

  /** The mean of a non-empty column whose values all equal `c` is `c`. */
  lemma MeanConstant(s: seq<real>, c: real)
    requires s != [] && forall i :: 0 <= i < |s| ==> s[i] == c
    ensures Mean(s) == c
  {
    SumConstant(s, c);
  }

  /**
   * `calc_ssr(data)`: the squared deviations of the label column from its
   * mean, the mean of an empty column counting as 0. It is never negative.
   */
  function CalcSsr(data: seq<Row>, lab: NumericLabel): (ssr: real)
    requires forall r :: r in data ==> lab.labelIndex < |r|
    ensures 0.0 <= ssr
  {
    var values := Column(data, lab.labelIndex);
    var avg := if |values| > 0 then Mean(values) else 0.0;
    SquaredDeviationsZero(values, avg);
    SquaredDeviations(values, avg)
  }

  /** Every row carries the same label. */
  ghost predicate ConstantLabel(data: seq<Row>, lab: NumericLabel)
    requires forall r :: r in data ==> lab.labelIndex < |r|
  {
    forall r1, r2 :: r1 in data && r2 in data ==> r1[lab.labelIndex] == r2[lab.labelIndex]
  }

  /**
   * The SSR is 0 exactly when every row carries the same label; in
   * particular it is 0 for an empty or single-row input.
   */
  lemma SsrZero(data: seq<Row>, lab: NumericLabel)
    requires forall r :: r in data ==> lab.labelIndex < |r|
    ensures CalcSsr(data, lab) == 0.0 <==> ConstantLabel(data, lab)
    ensures |data| <= 1 ==> CalcSsr(data, lab) == 0.0
  {
    var j := lab.labelIndex;
    var values := Column(data, j);
    var avg := if |values| > 0 then Mean(values) else 0.0;
    SquaredDeviationsZero(values, avg);
    if data != [] {
      if ConstantLabel(data, lab) {
        assert forall i :: 0 <= i < |values| ==> values[i] == values[0] by {
          forall i | 0 <= i < |values| ensures values[i] == values[0] {
            assert data[i] in data && data[0] in data;
          }
        }
        MeanConstant(values, values[0]);
      }
      if CalcSsr(data, lab) == 0.0 {
        forall r1, r2 | r1 in data && r2 in data ensures r1[j] == r2[j] {
          var i1 :| 0 <= i1 < |data| && data[i1] == r1;
          var i2 :| 0 <= i2 < |data| && data[i2] == r2;
          assert values[i1] == avg && values[i2] == avg;
        }
      }
    }
  }

  // ----------------------------------------------------------- split search

  /**
   * The two groups of a two-valued column, `class_right` holding the rows
   * equal to its smaller value and `class_left` those equal to its larger
   * one, scored by the sum of their SSRs, which is never negative.
   */
  function CategoricalSsr(data: seq<Row>, lab: NumericLabel, j: nat): (ssr: real)
    requires forall r :: r in data ==> j < |r| && lab.labelIndex < |r|
    requires |Distinct(Column(data, j))| >= 2
    ensures 0.0 <= ssr
  {
    var col := Column(data, j);
    CalcSsr(Select(data, j, Eq(FirstValue(col))), lab) + CalcSsr(Select(data, j, Eq(SecondValue(col))), lab)
  }

  /**
   * The SSR of a threshold split: `class_right`, the rows `>= t`, plus
   * `class_left`, the rows `< t`; never negative.
   */
  function ThresholdSsr(data: seq<Row>, lab: NumericLabel, j: nat, t: real): (ssr: real)
    requires forall r :: r in data ==> j < |r| && lab.labelIndex < |r|
    ensures 0.0 <= ssr
  {
    CalcSsr(Select(data, j, Ge(t)), lab) + CalcSsr(Select(data, j, Lt(t)), lab)
  }

  /**
   * The candidates the numeric loop visits: for every pair of consecutive
   * rows in stored order (the `argsort` result is discarded), the SSR at
   * their midpoint and the midpoint itself.
   */
  function SsrCandidates(data: seq<Row>, lab: NumericLabel, j: nat): (cs: seq<(Score, Score)>)
    requires forall r :: r in data ==> j < |r| && lab.labelIndex < |r|
    ensures |cs| == if |data| == 0 then 0 else |data| - 1
    ensures forall i :: 0 <= i < |cs| ==> cs[i] == (Fin(ThresholdSsr(data, lab, j, Midpoint(data, j, i))), Fin(Midpoint(data, j, i)))
  {
    var n := if |data| == 0 then 0 else |data| - 1;
    seq(n, i requires 0 <= i < n => (Fin(ThresholdSsr(data, lab, j, Midpoint(data, j, i))), Fin(Midpoint(data, j, i))))
  }

  /**
   * `calc_ssr_to_feature(j)`, as `(min_ssr, best_avarage)`: `(inf, inf)` for
   * a column with fewer than two distinct values; the two groups' SSR and
   * the value 0 for a column with exactly two; otherwise the scan from
   * `(inf, inf)` over the midpoints keeping the first strict minimum. The
   * score is finite exactly when the column has two values or more, and a
   * finite score is not negative and comes with a finite value.
   */
  function SsrToFeature(data: seq<Row>, lab: NumericLabel, j: nat): (r: (Score, Score))
    requires forall r :: r in data ==> j < |r| && lab.labelIndex < |r|
    ensures r.0.Fin? <==> |Distinct(Column(data, j))| >= 2
    ensures r.0.Fin? ==> r.1.Fin? && 0.0 <= r.0.v
  {
    var n := |Distinct(Column(data, j))|;
    if n <= 2 then
      if n < 2 then (Inf, Inf)
      else (Fin(CategoricalSsr(data, lab, j)), Fin(0.0))
    else
      var cs := SsrCandidates(data, lab, j);
      DistinctAtMostLength(Column(data, j));
      ScanIsFirstStrictMin(cs, (Inf, Inf));
      assert AtMost(Scan(cs, (Inf, Inf)).0, cs[0].0);
      Scan(cs, (Inf, Inf))
  }

  /** A column with more than two distinct values has more than two rows. */
  lemma {:induction false} DistinctAtMostLength(s: seq<real>)
    ensures |Distinct(s)| <= |s|
  {
    if s != [] {
      DistinctAtMostLength(s[1..]);
    }
  }

  /**
   * What `calc_ssr_to_feature` returns: `(inf, inf)` for fewer than two
   * values; the value 0 for exactly two; and for more than two, the first
   * midpoint whose SSR is strictly below every earlier one and no larger
   * than any later one, so that its score is at most every candidate's.
   */
  lemma SsrToFeatureSpec(data: seq<Row>, lab: NumericLabel, j: nat)
    requires forall r :: r in data ==> j < |r| && lab.labelIndex < |r|
    ensures var r, n := SsrToFeature(data, lab, j), |Distinct(Column(data, j))|;
      && (n < 2 ==> r == (Inf, Inf))
      && (n == 2 ==> r.1 == Fin(0.0))
      && (n > 2 ==>
            var cs := SsrCandidates(data, lab, j);
            && (forall i :: 0 <= i < |cs| ==> AtMost(r.0, cs[i].0))
            && exists i :: FirstStrictMin(cs, i, Inf) && r == cs[i])
  {
    var col := Column(data, j);
    if |Distinct(col)| > 2 {
      var cs := SsrCandidates(data, lab, j);
      DistinctAtMostLength(col);
      ScanIsFirstStrictMin(cs, (Inf, Inf));
      assert AtMost(Scan(cs, (Inf, Inf)).0, cs[0].0);
    }
  }

  /** `calc_ssr_to_feature`: the loop over consecutive rows updating `min_ssr` and `best_avarage`. */
  method CalcSsrToFeature(data: seq<Row>, lab: NumericLabel, j: nat) returns (minSsr: Score, bestAverage: Score)
    requires forall r :: r in data ==> j < |r| && lab.labelIndex < |r|
    ensures (minSsr, bestAverage) == SsrToFeature(data, lab, j)
  {
    var col := Column(data, j);
    var n := |Distinct(col)|;
    if n <= 2 {
      if n < 2 {
        minSsr, bestAverage := Inf, Inf;
      } else {
        var classRight := Select(data, j, Eq(FirstValue(col)));
        var classLeft := Select(data, j, Eq(SecondValue(col)));
        minSsr := Fin(CalcSsr(classRight, lab) + CalcSsr(classLeft, lab));
        bestAverage := Fin(0.0);
      }
      return;
    }
    minSsr, bestAverage := ScanMidpoints(data, lab, j);
  }

  /**
   * The numeric branch of `calc_ssr_to_feature`: from `(inf, inf)`, keep the
   * first midpoint of consecutive rows with the strictly smallest SSR.
   */
  method ScanMidpoints(data: seq<Row>, lab: NumericLabel, j: nat) returns (minSsr: Score, bestAverage: Score)
    requires forall r :: r in data ==> j < |r| && lab.labelIndex < |r|
    ensures (minSsr, bestAverage) == Scan(SsrCandidates(data, lab, j), (Inf, Inf))
  {
    // The code sorts a copy of the rows by column j and throws the copy away, so the scan uses stored order.
    ghost var cs := SsrCandidates(data, lab, j);
    minSsr, bestAverage := Inf, Inf;
    var i := 0;
    while i + 1 < |data|
      invariant 0 <= i <= |cs|
      invariant (minSsr, bestAverage) == Scan(cs[..i], (Inf, Inf))
    {
      var average := Midpoint(data, j, i);
      var featureSsr := ThresholdSsr(data, lab, j, average);
      assert cs[i] == (Fin(featureSsr), Fin(average));
      ScanStep(cs, i, (Inf, Inf));
      if Less(Fin(featureSsr), minSsr) {
        minSsr := Fin(featureSsr);
        bestAverage := Fin(average);
      }
      i := i + 1;
    }
    assert cs[..i] == cs;
  }


  // ------------------------------------------------------------ calibration

  /**
   * What `_bestSplit` learns about one column: whether it examines it, the
   * score it compares against `min_ssr`, and the `featureVal` it stores if
   * the column wins.
   */
  datatype ColumnInfo = ColumnInfo(eligible: bool, score: Score, winVal: Score)

  /** A column that can win (its score is finite) has a finite value to store. */
  predicate Storable(col: ColumnInfo) {
    col.score.Fin? ==> col.winVal.Fin?
  }

  /** Column `i` as `_bestSplit` sees it: examined or not, and scored by `calc_ssr_to_feature(i)`. */
  function Summary(data: seq<Row>, names: seq<string>, lab: NumericLabel, i: nat): (col: ColumnInfo)
    requires Shaped(data, names, lab) && i < |names|
    ensures Storable(col)
  {
    var r := SsrToFeature(data, lab, i);
    SsrToFeatureSpec(data, lab, i);
    ColumnInfo(Eligible(names, lab.labelName, i), r.0, r.1)
  }

  /** Every column of a node, in order. */
  function Summaries(data: seq<Row>, names: seq<string>, lab: NumericLabel): (cols: seq<ColumnInfo>)
    requires Shaped(data, names, lab)
    ensures |cols| == |names|
    ensures forall i :: 0 <= i < |cols| ==> cols[i] == Summary(data, names, lab, i)
  {
    seq(|names|, i requires 0 <= i < |names| => Summary(data, names, lab, i))
  }

  /** The node fields `_bestSplit` updates, plus its running minimum `min_ssr`. */
  datatype Calibration = Calibration(rule: SplitRule, ssr: real, minSsr: Score)

  /**
   * One pass of the loop in `_bestSplit` over column `i`: an examined
   * column whose score beats `min_ssr` becomes the split. The running
   * minimum never rises, and the fields change only when this column is
   * examined and strictly beats the minimum, and then they are this
   * column's.
   */
  function CalibrateStep(c: Calibration, name: string, i: nat, col: ColumnInfo): (r: Calibration)
    requires Storable(col)
    ensures AtMost(r.minSsr, c.minSsr)
    ensures || r == c
            || (col.eligible && Less(col.score, c.minSsr) && r.rule.featureName == name && r.rule.featureIndex == i
                && r.minSsr == col.score && r.minSsr == Fin(r.ssr))
  {
    if col.eligible && Less(col.score, c.minSsr) then Calibration(SplitRule(name, i, col.winVal.v), col.score.v, col.score)
    else c
  }

  /** The columns of a node, each with something to store if it wins. */
  ghost predicate Columns(names: seq<string>, cols: seq<ColumnInfo>) {
    |cols| == |names| && forall i :: 0 <= i < |cols| ==> Storable(cols[i])
  }

  /**
   * The calibration after `_bestSplit` has examined columns `0 .. k-1`,
   * starting from the node's fields. Once the running minimum is finite
   * the stored `ssr` is the minimum, as the loop keeps `self.ssr` and
   * `min_ssr` equal; while it is infinite the fields are the starting ones.
   */
  function CalibrateUpTo(names: seq<string>, cols: seq<ColumnInfo>, rule: SplitRule, ssr: real, k: nat): (c: Calibration)
    requires Columns(names, cols) && k <= |names|
    ensures c.minSsr.Fin? ==> c.minSsr == Fin(c.ssr)
    ensures c.minSsr.Inf? ==> c == Calibration(rule, ssr, Inf)
  {
    if k == 0 then Calibration(rule, ssr, Inf)
    else CalibrateStep(CalibrateUpTo(names, cols, rule, ssr, k - 1), names[k - 1], k - 1, cols[k - 1])
  }

  /** The node's fields after `_bestSplit`. */
  function BestSplitResult(data: seq<Row>, names: seq<string>, lab: NumericLabel, rule: SplitRule, ssr: real): Calibration
    requires Shaped(data, names, lab)
  {
    CalibrateUpTo(names, Summaries(data, names, lab), rule, ssr, |names|)
  }

  /** The column a calibration has chosen, or -1 while the running minimum is still infinite. */
  function Winner(c: Calibration): int {
    if c.minSsr.Fin? then c.rule.featureIndex else -1
  }

  /**
   * After examining columns `0 .. k-1`: the running minimum is at most every
   * examined column's score. If no column won, the minimum is still
   * infinite and the split fields are the starting ones. Otherwise the
   * winner is an examined column whose name, index, value and score are
   * stored, and every examined column before it scored strictly worse: the
   * first column reaching the minimum wins.
   */
  lemma {:induction false} CalibrateWinner(names: seq<string>, cols: seq<ColumnInfo>, rule: SplitRule, ssr: real, k: nat)
    requires Columns(names, cols) && k <= |names|
    ensures var c := CalibrateUpTo(names, cols, rule, ssr, k);
      var w := Winner(c);
      && w < k
      && (forall i :: 0 <= i < k && cols[i].eligible ==> AtMost(c.minSsr, cols[i].score))
      && (w < 0 ==> c == Calibration(rule, ssr, Inf))
      && (w >= 0 ==>
            && cols[w].eligible && c.rule.featureName == names[w] && c.rule.featureIndex == w
            && Fin(c.rule.featureVal) == cols[w].winVal
            && c.minSsr == cols[w].score && Fin(c.ssr) == c.minSsr
            && (forall i :: 0 <= i < w && cols[i].eligible ==> Less(c.minSsr, cols[i].score)))
  {
    if k > 0 {
      CalibrateWinner(names, cols, rule, ssr, k - 1);
      var p := CalibrateUpTo(names, cols, rule, ssr, k - 1);
      var c := CalibrateUpTo(names, cols, rule, ssr, k);
      var i := k - 1;
      if cols[i].eligible && Less(cols[i].score, p.minSsr) {
        forall i' | 0 <= i' < i && cols[i'].eligible ensures Less(c.minSsr, cols[i'].score) {
          LessTransitive(c.minSsr, p.minSsr, cols[i'].score);
        }
      }
    }
  }

  /**
   * `_bestSplit` on a node: a column wins exactly when some examined column
   * has at least two distinct values. The winner is never column 0 or the
   * label column; its name, index and value are stored, with an SSR that is
   * not negative and a value that is 0 for a two-valued column and a
   * midpoint of two consecutive rows otherwise. When nothing wins, the split
   * fields keep their starting values.
   */
  lemma BestSplitChoosesColumn(data: seq<Row>, names: seq<string>, lab: NumericLabel, rule: SplitRule, ssr: real)
    requires Shaped(data, names, lab)
    ensures var c := BestSplitResult(data, names, lab, rule, ssr);
      var w := Winner(c);
      && w < |names|
      && (w >= 0 <==> exists i :: 0 <= i < |names| && Eligible(names, lab.labelName, i) && |Distinct(Column(data, i))| >= 2)
      && (w >= 0 ==>
            && Eligible(names, lab.labelName, w) && c.rule.featureIndex == w && c.rule.featureName == names[w]
            && 0.0 <= c.ssr
            && (|Distinct(Column(data, w))| == 2 ==> c.rule.featureVal == 0.0)
            && (|Distinct(Column(data, w))| > 2 ==> exists i :: 0 <= i && i + 1 < |data| && c.rule.featureVal == Midpoint(data, w, i)))
      && (w < 0 ==> c.rule == rule && c.ssr == ssr)
  {
    var cols := Summaries(data, names, lab);
    CalibrateWinner(names, cols, rule, ssr, |names|);
    var c := BestSplitResult(data, names, lab, rule, ssr);
    var w := Winner(c);
    if w >= 0 {
      WinnerValue(data, names, lab, w, c);
    } else {
      forall i | 0 <= i < |names| && Eligible(names, lab.labelName, i) ensures |Distinct(Column(data, i))| < 2 {
        assert AtMost(c.minSsr, cols[i].score);
        SsrToFeatureSpec(data, lab, i);
      }
    }
  }

  /** The value a winning column stores: 0 for a two-valued column, a midpoint of consecutive rows otherwise. */
  lemma WinnerValue(data: seq<Row>, names: seq<string>, lab: NumericLabel, w: nat, c: Calibration)
    requires Shaped(data, names, lab) && w < |names|
    requires c.minSsr.Fin? && c.minSsr == Summary(data, names, lab, w).score && Fin(c.ssr) == c.minSsr
    requires Fin(c.rule.featureVal) == Summary(data, names, lab, w).winVal
    ensures |Distinct(Column(data, w))| >= 2 && 0.0 <= c.ssr
    ensures |Distinct(Column(data, w))| == 2 ==> c.rule.featureVal == 0.0
    ensures |Distinct(Column(data, w))| > 2 ==> exists i :: 0 <= i && i + 1 < |data| && c.rule.featureVal == Midpoint(data, w, i)
  {
    SsrToFeatureSpec(data, lab, w);
    if |Distinct(Column(data, w))| > 2 {
      var cs := SsrCandidates(data, lab, w);
      var k :| FirstStrictMin(cs, k, Inf) && SsrToFeature(data, lab, w) == cs[k];
      assert k + 1 < |data| && c.rule.featureVal == Midpoint(data, w, k);
    }
  }

  // ---------------------------------------------------------------- the node

  /** `predictedVal = mean(data[:, labelNumericIndex])`: `None` for a node without rows, whose mean is undefined. */
  function MeanLabel(data: seq<Row>, lab: NumericLabel): (m: Option<real>)
    requires forall r :: r in data ==> lab.labelIndex < |r|
    ensures m.Some? <==> data != []
  {
    if data == [] then None else Some(Mean(Column(data, lab.labelIndex)))
  }

  /** The mean label lies between the smallest and the largest label, and equals the label when all rows share it. */
  lemma {:induction false} MeanLabelRange(data: seq<Row>, lab: NumericLabel)
    requires forall r :: r in data ==> lab.labelIndex < |r|
    requires data != []
    ensures var m, j := MeanLabel(data, lab).value, lab.labelIndex;
      && (exists r :: r in data && r[j] <= m)
      && (exists r :: r in data && m <= r[j])
      && (ConstantLabel(data, lab) ==> m == data[0][j])
  {
    var j := lab.labelIndex;
    var values := Column(data, j);
    var m := Mean(values);
    MeanBetween(values);
    var lo :| 0 <= lo < |values| && values[lo] <= m;
    var hi :| 0 <= hi < |values| && m <= values[hi];
    assert data[lo] in data && data[hi] in data;
    if ConstantLabel(data, lab) {
      assert forall i :: 0 <= i < |values| ==> values[i] == values[0] by {
        forall i | 0 <= i < |values| ensures values[i] == values[0] {
          assert data[i] in data && data[0] in data;
        }
      }
      MeanConstant(values, values[0]);
    }
  }

  /** Some value is at most the mean and some value is at least it. */
  lemma MeanBetween(s: seq<real>)
    requires s != []
    ensures exists i :: 0 <= i < |s| && s[i] <= Mean(s)
    ensures exists i :: 0 <= i < |s| && Mean(s) <= s[i]
  {
    var m, n := Mean(s), |s| as real;
    assert Sum(s) == m * n;
    if forall i :: 0 <= i < |s| ==> m < s[i] {
      SumAbove(s, m);
    }
    if forall i :: 0 <= i < |s| ==> s[i] < m {
      SumBelow(s, m);
    }
  }

  /** Values all above `x` sum to more than `|s| * x`. */
  lemma {:induction false} SumAbove(s: seq<real>, x: real)
    requires s != [] && forall i :: 0 <= i < |s| ==> x < s[i]
    ensures |s| as real * x < Sum(s)
  {
    if |s| > 1 {
      SumAbove(s[1..], x);
      assert (|s| - 1) as real * x + x == |s| as real * x;
    }
  }

  /** Values all below `x` sum to less than `|s| * x`. */
  lemma {:induction false} SumBelow(s: seq<real>, x: real)
    requires s != [] && forall i :: 0 <= i < |s| ==> s[i] < x
    ensures Sum(s) < |s| as real * x
  {
    if |s| > 1 {
      SumBelow(s[1..], x);
      assert (|s| - 1) as real * x + x == |s| as real * x;
    }
  }

  /** `ssr = 0` is the "uncalibrated" value of a fresh node. */
  const InitialSsr: real := 0.0

  /**
   * `RegressionNode`: the base node fields (rows, column names, depth,
   * `samples`, id, children, split descriptor) plus `ssr` and the
   * `predictedVal` fixed at construction.
   */
  class RegressionNode {
    const data: seq<Row>
    const names: seq<string>
    const labels: NumericLabel
    const depth: nat
    const samples: nat
    const id: nat
    const predictedVal: Option<real>
    var left: RegressionNode?
    var right: RegressionNode?
    var featureName: string
    var featureIndex: nat
    var featureVal: real
    var ssr: real
    ghost var Repr: set<RegressionNode>

    /**
     * The node predicts the mean label of its rows and owns its two
     * subtrees, which share no node and read the same columns; it has both
     * children or none.
     */
    ghost predicate Valid()
      reads this, Repr
      decreases Repr
    {
      && this in Repr
      && Shaped(data, names, labels)
      && featureIndex < |names|
      && predictedVal == MeanLabel(data, labels)
      && (left == null <==> right == null)
      && (left != null ==>
            && left in Repr && right in Repr
            && left.Repr <= Repr && right.Repr <= Repr
            && this !in left.Repr && this !in right.Repr
            && left.Repr !! right.Repr
            && left.names == names && right.names == names
            && left.labels == labels && right.labels == labels
            && left.Valid() && right.Valid())
    }

    function Rule(): SplitRule
      reads this
    {
      SplitRule(featureName, featureIndex, featureVal)
    }

    /** The state the constructor leaves: no children, the default descriptor and `ssr = 0`. */
    ghost predicate Unfitted()
      reads this
    {
      left == null && right == null && Rule() == InitialRule && ssr == InitialSsr && Repr == {this}
    }

    /** The subtree rooted here, as a value. */
    ghost function Model(): (t: Tree)
      reads this, Repr
      requires Valid()
      ensures Readable(t) && t.info.data == data && t.info.depth == depth
      ensures t.Leaf? <==> left == null
      decreases Repr
    {
      var info := NodeInfo(data, depth, Rule(), ssr, predictedVal);
      if left == null then Leaf(info) else Internal(info, left.Model(), right.Model())
    }

    /**
     * The constructor: no children, depth 0 unless given, the default split
     * descriptor, `samples` the number of rows, the next id from the shared
     * counter, `ssr = 0` and `predictedVal` the mean label.
     */
    constructor (data: seq<Row>, names: seq<string>, labels: NumericLabel, counter: NodeCounter, depth: nat := 0)
      requires Shaped(data, names, labels)
      modifies counter
      ensures Valid() && Unfitted()
      ensures this.data == data && this.names == names && this.labels == labels && this.depth == depth
      ensures samples == |data| && predictedVal == MeanLabel(data, labels)
      ensures id == old(counter.cnt) && counter.cnt == old(counter.cnt) + 1
    {
      var next := counter.Next();
      this.data := data;
      this.names := names;
      this.labels := labels;
      this.depth := depth;
      left, right := null, null;
      featureName, featureIndex, featureVal := "", 0, 0.0;
      samples := |data|;
      id := next;
      ssr := InitialSsr;
      predictedVal := MeanLabel(data, labels);
      Repr := {this};
    }

    /**
     * `_bestSplit`: examine every column but column 0 and the label column,
     * updating the split descriptor and `ssr` as `BestSplitResult` describes.
     */
    method BestSplit()
      requires Valid()
      modifies this`featureName, this`featureIndex, this`featureVal, this`ssr
      ensures Valid()
      ensures var c := BestSplitResult(data, names, labels, old(Rule()), old(ssr));
        Rule() == c.rule && ssr == c.ssr
    {
      ghost var rule0, ssr0 := Rule(), ssr;
      var minSsr := Inf;
      for i := 0 to |names|
        invariant Calibration(Rule(), ssr, minSsr) == CalibrateUpTo(names, Summaries(data, names, labels), rule0, ssr0, i)
        invariant Valid()
      {
        minSsr := PassColumn(i, minSsr);
      }
    }

    /**
     * One pass of the `_bestSplit` loop: columns 0 and the label column are
     * skipped; any other column is scored by `calc_ssr_to_feature`, and a
     * score below `min_ssr` makes it the split.
     */
    method PassColumn(i: nat, minSsr: Score) returns (newMin: Score)
      requires Valid() && i < |names|
      modifies this`featureName, this`featureIndex, this`featureVal, this`ssr
      ensures Valid()
      ensures Calibration(Rule(), ssr, newMin)
        == CalibrateStep(Calibration(old(Rule()), old(ssr), minSsr), names[i], i, Summary(data, names, labels, i))
    {
      newMin := minSsr;
      if i != 0 && names[i] != labels.labelName {
        var score, bestAverage := CalcSsrToFeature(data, labels, i);
        assert Summary(data, names, labels, i) == ColumnInfo(true, score, bestAverage);
        newMin := ExamineColumn(i, ColumnInfo(true, score, bestAverage), minSsr);
      }
    }

    /** The update half of one pass of `_bestSplit` over an examined column: a score below `min_ssr` makes it the split. */
    method ExamineColumn(i: nat, col: ColumnInfo, minSsr: Score) returns (newMin: Score)
      requires Valid() && i < |names| && col.eligible && Storable(col)
      modifies this`featureName, this`featureIndex, this`featureVal, this`ssr
      ensures Valid()
      ensures Calibration(Rule(), ssr, newMin) == CalibrateStep(Calibration(old(Rule()), old(ssr), minSsr), names[i], i, col)
    {
      newMin := minSsr;
      if Less(col.score, minSsr) {
        newMin := col.score;
        ssr := col.score.v;
        featureName := names[i];
        featureIndex := i;
        featureVal := col.winVal.v;
      }
    }
  }

  /** A node over well-formed data whose footprint is itself plus two disjoint valid subtrees over its columns is valid. */
  lemma JoinValid(node: RegressionNode)
    requires Shaped(node.data, node.names, node.labels) && node.featureIndex < |node.names|
    requires node.predictedVal == MeanLabel(node.data, node.labels)
    requires node.left != null && node.right != null && node.left.Valid() && node.right.Valid()
    requires node.left.names == node.names && node.right.names == node.names
    requires node.left.labels == node.labels && node.right.labels == node.labels
    requires node !in node.left.Repr && node !in node.right.Repr && node.left.Repr !! node.right.Repr
    requires node.Repr == {node} + node.left.Repr + node.right.Repr
    ensures node.Valid()
  {
  }

  /** A valid subtree none of whose nodes has changed is still valid and still has the same model. */
  twostate lemma ModelFrame(node: RegressionNode)
    requires old(node.Valid()) && unchanged(node) && unchanged(node.Repr)
    ensures node.Valid() && node.Model() == old(node.Model())
  {
  }
}
