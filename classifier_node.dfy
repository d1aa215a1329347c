/**
 * A node of the classification tree (ClassifierNode.py): class counting, the
 * weighted two-sided Gini impurity, the midpoint scan over a numeric column,
 * the calibration `_bestSplit` that picks the node's split descriptor, and
 * `make_leaf`. The node itself is a class whose split fields, children and
 * predicted class are updated in place.
 */
module ClassifierNode {
  import opened Wrappers
  import opened Score
  import opened Table
  import opened Reals
  import opened DecisionNode
  import opened DecisionTree

  /** A class label; the model encodes labels as numbers like every other cell. */
  type Label = real

  /** The labelling constants the code imports: `labelName`, `labelIndex`, `cls_x` and `cls_y`. */
  datatype ClassLabels = ClassLabels(labelName: string, labelIndex: nat, clsX: Label, clsY: Label)

  /** A node's rows fit its column names, and the label column is one of them. */
  ghost predicate Shaped(data: seq<Row>, names: seq<string>, lab: ClassLabels) {
    WellFormed(data, names) && lab.labelIndex < |names|
  }

  // ---------------------------------------------------------------- counting

  /** `count_class_num(c)`: the number of rows whose label is `c`. */
  function CountClassNum(data: seq<Row>, lab: ClassLabels, c: Label): (n: nat)
    requires forall r :: r in data ==> lab.labelIndex < |r|
    ensures n <= |data|
    ensures n == 0 <==> forall r :: r in data ==> r[lab.labelIndex] != c
  {
    CountEq(data, lab.labelIndex, c)
  }

  /** The rows carrying only the two class labels. */
  ghost predicate TwoLabelRows(data: seq<Row>, lab: ClassLabels)
    requires forall r :: r in data ==> lab.labelIndex < |r|
  {
    forall r :: r in data ==> r[lab.labelIndex] == lab.clsX || r[lab.labelIndex] == lab.clsY
  }

  /** When every label is `cls_x` or `cls_y` (and they differ), the two counts add up to the row count. */
  lemma {:induction false} CountsCoverRows(data: seq<Row>, lab: ClassLabels)
    requires forall r :: r in data ==> lab.labelIndex < |r|
    requires lab.clsX != lab.clsY && TwoLabelRows(data, lab)
    ensures CountClassNum(data, lab, lab.clsX) + CountClassNum(data, lab, lab.clsY) == |data|
  {
    if data != [] {
      CountsCoverRows(data[1..], lab);
      assert Select(data, lab.labelIndex, Eq(lab.clsX))
        == (if data[0][lab.labelIndex] == lab.clsX then [data[0]] else []) + Select(data[1..], lab.labelIndex, Eq(lab.clsX));
      assert Select(data, lab.labelIndex, Eq(lab.clsY))
        == (if data[0][lab.labelIndex] == lab.clsY then [data[0]] else []) + Select(data[1..], lab.labelIndex, Eq(lab.clsY));
    }
  }

  /** Two different labels together count at most every row. */
  lemma {:induction false} CountsAtMostRows(data: seq<Row>, lab: ClassLabels)
    requires forall r :: r in data ==> lab.labelIndex < |r|
    ensures lab.clsX != lab.clsY ==> CountClassNum(data, lab, lab.clsX) + CountClassNum(data, lab, lab.clsY) <= |data|
  {
    if data != [] {
      CountsAtMostRows(data[1..], lab);
      assert Select(data, lab.labelIndex, Eq(lab.clsX))
        == (if data[0][lab.labelIndex] == lab.clsX then [data[0]] else []) + Select(data[1..], lab.labelIndex, Eq(lab.clsX));
      assert Select(data, lab.labelIndex, Eq(lab.clsY))
        == (if data[0][lab.labelIndex] == lab.clsY then [data[0]] else []) + Select(data[1..], lab.labelIndex, Eq(lab.clsY));
    }
  }

  // ------------------------------------------------------------- impurity

  /** `2p(1-p)`, the two-class Gini impurity of a side whose `cls_y` fraction is `p`. */
  function TwoPQ(p: real): real {
    2.0 * p * (1.0 - p)
  }

  /** A fraction `k / n` of a non-empty side lies in [0, 1], and is 0 or 1 exactly for `k == 0` or `k == n`. */
  lemma FractionBounds(k: nat, n: nat)
    requires 0 < n && k <= n
    ensures var p := k as real / n as real;
      0.0 <= p <= 1.0 && (p == 0.0 <==> k == 0) && (p == 1.0 <==> k == n)
  {
    var p := k as real / n as real;
    QuotientBounds(k as real, n as real, 1.0);
    assert p * (n as real) == k as real;
  }

  /** The impurity of a side holding `k` of its `n` rows in `cls_y` lies in [0, 1/2] and is 0 exactly for a pure side. */
  lemma TwoPQBounds(k: nat, n: nat)
    requires 0 < n && k <= n
    ensures var g := TwoPQ(k as real / n as real); 0.0 <= g <= 0.5 && (g == 0.0 <==> k == 0 || k == n)
  {
    var p := k as real / n as real;
    FractionBounds(k, n);
    ProductNonneg(p, 1.0 - p);
    SquareNonneg(p - 0.5);
    assert 0.25 - p * (1.0 - p) == (p - 0.5) * (p - 0.5);
    ProductZero(p, 1.0 - p);
    assert TwoPQ(p) == 2.0 * (p * (1.0 - p));
  }

  /** A size-weighted average of two impurities in [0, 1/2] is in [0, 1/2], and is 0 exactly when both are. */
  lemma WeightedAverageBounds(a: real, b: real, x: real, y: real)
    requires a > 0.0 && b > 0.0 && 0.0 <= x <= 0.5 && 0.0 <= y <= 0.5
    ensures 0.0 <= (a * x + b * y) / (a + b) <= 0.5
    ensures (a * x + b * y) / (a + b) == 0.0 <==> x == 0.0 && y == 0.0
  {
    ProductNonneg(a, x);
    ProductNonneg(b, y);
    ProductNonneg(a, 0.5 - x);
    ProductNonneg(b, 0.5 - y);
    ProductZero(a, x);
    ProductZero(b, y);
    assert a * x + b * y <= 0.5 * (a + b);
    QuotientBounds(a * x + b * y, a + b, 0.5);
  }

  /** The two groups `calc_gini_impurity` scores: `r` and `l`. */
  datatype GiniSides = GiniSides(r: seq<Row>, l: seq<Row>)

  /**
   * Without a threshold, `r` holds the rows equal to `unique(col)[0]` and `l`
   * those equal to `unique(col)[1]`; with a threshold `t`, `r` holds the rows
   * `>= t` and `l` the rows `< t`.
   */
  function ImpuritySides(data: seq<Row>, j: nat, threshold: Option<real>): GiniSides
    requires forall r :: r in data ==> j < |r|
    requires threshold.None? ==> |Distinct(Column(data, j))| >= 2
  {
    match threshold
    case None =>
      var col := Column(data, j);
      GiniSides(Select(data, j, Eq(FirstValue(col))), Select(data, j, Eq(SecondValue(col))))
    case Some(t) => GiniSides(Select(data, j, Ge(t)), Select(data, j, Lt(t)))
  }

  /**
   * The size-weighted average of the two groups' `2p(1-p)`, for a group `r`
   * of `nr` rows holding `kr` of class `cls_y` and a group `l` of `nl` rows
   * holding `kl`. It lies in [0, 1/2] and is 0 exactly when both groups are
   * pure.
   */
  function WeightedGini(nr: nat, kr: nat, nl: nat, kl: nat): (w: real)
    requires 0 < nr && 0 < nl
    ensures kr <= nr && kl <= nl ==>
      0.0 <= w <= 0.5 && (w == 0.0 <==> (kr == 0 || kr == nr) && (kl == 0 || kl == nl))
  {
    var a, b := nr as real, nl as real;
    var giniL := TwoPQ(kl as real / b);
    var giniR := TwoPQ(kr as real / a);
    if kr <= nr && kl <= nl then
      TwoPQBounds(kr, nr);
      TwoPQBounds(kl, nl);
      WeightedAverageBounds(a, b, giniR, giniL);
      (a * giniR + b * giniL) / (a + b)
    else (a * giniR + b * giniL) / (a + b)
  }

  /**
   * The score of two groups: `inf` exactly when one is empty; otherwise their
   * weighted impurity, which lies in [0, 1/2] and is 0 exactly when both
   * groups are pure.
   */
  function SidesGini(s: GiniSides, lab: ClassLabels): (g: Score)
    requires forall r :: r in s.r ==> lab.labelIndex < |r|
    requires forall r :: r in s.l ==> lab.labelIndex < |r|
    ensures g == Inf <==> s.r == [] || s.l == []
    ensures g.Fin? ==> 0.0 <= g.v <= 0.5
    ensures g.Fin? ==> (g.v == 0.0 <==> PureSide(s.r, lab) && PureSide(s.l, lab))
  {
    var lP := CountClassNum(s.l, lab, lab.clsY);
    var rP := CountClassNum(s.r, lab, lab.clsY);
    if |s.r| == 0 || |s.l| == 0 then Inf
    else Fin(WeightedGini(|s.r|, rP, |s.l|, lP))
  }

  /**
   * `calc_gini_impurity(j, threshold)`: the score of the two groups the
   * threshold (or the two values) makes; `inf` exactly when one group is
   * empty, otherwise a value in [0, 1/2] that is 0 exactly when both groups
   * are pure.
   */
  function GiniImpurity(data: seq<Row>, lab: ClassLabels, j: nat, threshold: Option<real>): (g: Score)
    requires forall r :: r in data ==> j < |r| && lab.labelIndex < |r|
    requires threshold.None? ==> |Distinct(Column(data, j))| >= 2
    ensures var s := ImpuritySides(data, j, threshold);
      && (g == Inf <==> s.r == [] || s.l == [])
      && (g.Fin? ==> 0.0 <= g.v <= 0.5)
      && (g.Fin? ==> (g.v == 0.0 <==> PureSide(s.r, lab) && PureSide(s.l, lab)))
  {
    SidesGini(ImpuritySides(data, j, threshold), lab)
  }

  /** A side is pure when it is all `cls_y` or has no `cls_y`. */
  ghost predicate PureSide(side: seq<Row>, lab: ClassLabels)
    requires forall r :: r in side ==> lab.labelIndex < |r|
  {
    var k := CountClassNum(side, lab, lab.clsY);
    k == 0 || k == |side|
  }

  /** Without a threshold and with exactly two distinct values, the two groups split the rows by value. */
  lemma CategoricalSidesPartition(data: seq<Row>, j: nat)
    requires forall r :: r in data ==> j < |r|
    requires |Distinct(Column(data, j))| == 2
    ensures var s := ImpuritySides(data, j, None);
      && multiset(s.r) + multiset(s.l) == multiset(data)
      && s.r != [] && s.l != []
  {
    var col := Column(data, j);
    var a, b := FirstValue(col), SecondValue(col);
    var s := ImpuritySides(data, j, None);
    assert s == GiniSides(Select(data, j, Eq(a)), Select(data, j, Eq(b)));
    SelectPartitions(data, j, Eq(a));
    SelectSameTest(data, j, Ne(a), Eq(b), col);
    assert a in col && b in col;
    var ia :| 0 <= ia < |col| && col[ia] == a;
    var ib :| 0 <= ib < |col| && col[ib] == b;
    assert data[ia] in data && data[ia][j] == a;
    assert data[ib] in data && data[ib][j] == b;
    assert data[ia] in s.r && data[ib] in s.l;
  }

  /** On a two-valued column, "not the first value" and "the second value" select the same rows. */
  lemma {:induction false} SelectSameTest(data: seq<Row>, j: nat, t1: Test, t2: Test, col: seq<real>)
    requires forall r :: r in data ==> j < |r|
    requires col == Column(data, j) && |Distinct(col)| == 2
    requires t1 == Ne(FirstValue(col)) && t2 == Eq(SecondValue(col))
    ensures Select(data, j, t1) == Select(data, j, t2)
  {
    SelectSameTestOn(data, j, t1, t2, col);
  }

  lemma {:induction false} SelectSameTestOn(data: seq<Row>, j: nat, t1: Test, t2: Test, col: seq<real>)
    requires forall r :: r in data ==> j < |r|
    requires forall r :: r in data ==> r[j] in col
    requires |Distinct(col)| == 2
    requires t1 == Ne(FirstValue(col)) && t2 == Eq(SecondValue(col))
    ensures Select(data, j, t1) == Select(data, j, t2)
  {
    if data != [] {
      ExactlyTwoValues(col, data[0][j]);
      SelectSameTestOn(data[1..], j, t1, t2, col);
    }
  }

  // ------------------------------------------------------- numeric scan

  /**
   * The candidates `calc_gini_numeric_feature` visits: for every pair of
   * consecutive rows in stored order (the `argsort` result is discarded), the
   * impurity at their midpoint and the midpoint itself.
   */
  function GiniCandidates(data: seq<Row>, lab: ClassLabels, j: nat): (cs: seq<(Score, Score)>)
    requires forall r :: r in data ==> j < |r| && lab.labelIndex < |r|
    ensures |cs| == if |data| == 0 then 0 else |data| - 1
    ensures forall i :: 0 <= i < |cs| ==> cs[i] == (GiniImpurity(data, lab, j, Some(Midpoint(data, j, i))), Fin(Midpoint(data, j, i)))
  {
    var n := if |data| == 0 then 0 else |data| - 1;
    seq(n, i requires 0 <= i < n => (GiniImpurity(data, lab, j, Some(Midpoint(data, j, i))), Fin(Midpoint(data, j, i))))
  }

  /**
   * What `calc_gini_numeric_feature(j)` returns: the scan from `(1, inf)`
   * keeping the first strict minimum. Its score never exceeds 1, and a score
   * below 1 comes with a finite threshold.
   */
  function NumericGini(data: seq<Row>, lab: ClassLabels, j: nat): (r: (Score, Score))
    requires forall r :: r in data ==> j < |r| && lab.labelIndex < |r|
    ensures AtMost(r.0, Fin(1.0))
    ensures Less(r.0, Fin(1.0)) ==> r.1.Fin?
  {
    var cs := GiniCandidates(data, lab, j);
    ScanIsFirstStrictMin(cs, (Fin(1.0), Inf));
    Scan(cs, (Fin(1.0), Inf))
  }

  /**
   * The numeric scan returns `(1, inf)` when no midpoint scores below 1;
   * otherwise it returns the first midpoint of consecutive stored rows whose
   * impurity is strictly below 1 and below every earlier candidate and no
   * larger than any later one. Either way its score is at most every
   * candidate's.
   */
  lemma NumericGiniFirstMin(data: seq<Row>, lab: ClassLabels, j: nat)
    requires forall r :: r in data ==> j < |r| && lab.labelIndex < |r|
    ensures var cs := GiniCandidates(data, lab, j);
      var r := NumericGini(data, lab, j);
      && (forall i :: 0 <= i < |cs| ==> AtMost(r.0, cs[i].0))
      && (r == (Fin(1.0), Inf) || exists i :: FirstStrictMin(cs, i, Fin(1.0)) && r == cs[i])
      && (Less(r.0, Fin(1.0)) ==> exists i :: 0 <= i < |cs| && r.1 == Fin(Midpoint(data, j, i)))
  {
    ScanIsFirstStrictMin(GiniCandidates(data, lab, j), (Fin(1.0), Inf));
  }

  /** `calc_gini_numeric_feature`: the loop over consecutive rows updating `best_gini` and `best_threshold`. */
  method CalcGiniNumericFeature(data: seq<Row>, lab: ClassLabels, j: nat) returns (bestGini: Score, bestThreshold: Score)
    requires forall r :: r in data ==> j < |r| && lab.labelIndex < |r|
    ensures (bestGini, bestThreshold) == NumericGini(data, lab, j)
    ensures Less(bestGini, Fin(1.0)) ==> bestThreshold.Fin?
  {
    // The code sorts a copy of the rows by column j and throws the copy away, so the scan uses stored order.
    ghost var cs := GiniCandidates(data, lab, j);
    bestGini, bestThreshold := Fin(1.0), Inf;
    var i := 0;
    while i + 1 < |data|
      invariant 0 <= i <= |cs|
      invariant (bestGini, bestThreshold) == Scan(cs[..i], (Fin(1.0), Inf))
    {
      var threshold := Midpoint(data, j, i);
      var gini := GiniImpurity(data, lab, j, Some(threshold));
      assert cs[i] == (gini, Fin(threshold));
      ScanStep(cs, i, (Fin(1.0), Inf));
      if Less(gini, bestGini) {
        bestGini := gini;
        bestThreshold := Fin(threshold);
      }
      i := i + 1;
    }
    assert cs[..i] == cs;
  }

  // ------------------------------------------------------- calibration

  /** Column `i` has exactly two distinct values in the node's rows. */
  predicate TwoValued(data: seq<Row>, i: nat)
    requires forall r :: r in data ==> i < |r|
  {
    |Distinct(Column(data, i))| == 2
  }

  /**
   * What `_bestSplit` learns about one column: whether it examines it at
   * all, whether it is two-valued, the impurity it compares against
   * `min_gini`, and the `featureVal` it stores if the column wins.
   */
  datatype ColumnInfo = ColumnInfo(eligible: bool, twoValued: bool, score: Score, winVal: Score)

  /** A column that can win (its score is below 1) has a finite value to store. */
  predicate Storable(col: ColumnInfo) {
    Less(col.score, Fin(1.0)) ==> col.winVal.Fin?
  }

  /**
   * Column `i` as `_bestSplit` sees it: a two-valued column is scored by
   * `calc_gini_impurity(i, None)` and stores 1 on winning; any other column
   * is scored by `calc_gini_numeric_feature(i)` and stores its threshold.
   */
  function Summary(data: seq<Row>, names: seq<string>, lab: ClassLabels, i: nat): (col: ColumnInfo)
    requires Shaped(data, names, lab) && i < |names|
    ensures Storable(col)
  {
    if TwoValued(data, i) then ColumnInfo(Eligible(names, lab.labelName, i), true, GiniImpurity(data, lab, i, None), Fin(1.0))
    else
      var r := NumericGini(data, lab, i);
      ColumnInfo(Eligible(names, lab.labelName, i), false, r.0, r.1)
  }

  /** Every column of a node, in order. */
  function Summaries(data: seq<Row>, names: seq<string>, lab: ClassLabels): (cols: seq<ColumnInfo>)
    requires Shaped(data, names, lab)
    ensures |cols| == |names|
    ensures forall i :: 0 <= i < |cols| ==> cols[i] == Summary(data, names, lab, i)
    ensures Columns(names, cols)
  {
    seq(|names|, i requires 0 <= i < |names| => Summary(data, names, lab, i))
  }

  /**
   * A column's score is either exactly 1 (a numeric column none of whose
   * midpoints beats 1) or a finite impurity in [0, 1/2]; a two-valued
   * column always has both groups non-empty, so its score is finite.
   */
  lemma SummaryScoreRange(data: seq<Row>, names: seq<string>, lab: ClassLabels, i: nat)
    requires Shaped(data, names, lab) && i < |names|
    ensures var s := Summary(data, names, lab, i).score;
      s == Fin(1.0) || (s.Fin? && 0.0 <= s.v <= 0.5)
  {
    if TwoValued(data, i) {
      CategoricalSidesPartition(data, i);
    } else {
      NumericGiniFirstMin(data, lab, i);
      var cs := GiniCandidates(data, lab, i);
      var r := NumericGini(data, lab, i);
      if r != (Fin(1.0), Inf) {
        var k :| FirstStrictMin(cs, k, Fin(1.0)) && r == cs[k];
      }
    }
  }

  /**
   * The scoring half of one pass of `_bestSplit`: a two-valued column is
   * scored by `calc_gini_impurity(i, None)` and would store 1; any other
   * column by `calc_gini_numeric_feature(i)`, storing its threshold.
   */
  method ScoreColumn(data: seq<Row>, names: seq<string>, lab: ClassLabels, i: nat)
      returns (twoValued: bool, score: Score, winVal: Score)
    requires Shaped(data, names, lab) && i < |names|
    ensures Summary(data, names, lab, i) == ColumnInfo(Eligible(names, lab.labelName, i), twoValued, score, winVal)
  {
    if |Distinct(Column(data, i))| == 2 {
      twoValued := true;
      score := GiniImpurity(data, lab, i, None);
      winVal := Fin(1.0);
    } else {
      twoValued := false;
      score, winVal := CalcGiniNumericFeature(data, lab, i);
    }
  }

  /** The node fields `_bestSplit` updates, plus its running minimum `min_gini`. */
  datatype Calibration = Calibration(rule: SplitRule, gini: real, minGini: Score)

  /**
   * One pass of the loop in `_bestSplit` over column `i`: an examined
   * two-valued column first resets `featureVal` to 0; an examined column
   * whose score beats `min_gini` then becomes the split. The running
   * minimum never rises, and the stored column, `gini` and the minimum
   * change only when this column is examined and strictly beats the
   * minimum, and then they are this column's.
   */
  function CalibrateStep(c: Calibration, name: string, i: nat, col: ColumnInfo): (r: Calibration)
    requires AtMost(c.minGini, Fin(1.0)) && Storable(col)
    ensures AtMost(r.minGini, c.minGini)
    ensures || (r.rule.featureName == c.rule.featureName && r.rule.featureIndex == c.rule.featureIndex
                && r.gini == c.gini && r.minGini == c.minGini)
            || (col.eligible && Less(col.score, c.minGini) && r.rule.featureName == name && r.rule.featureIndex == i
                && r.minGini == col.score && r.minGini == Fin(r.gini))
  {
    if !col.eligible then c
    else
      var c0 := if col.twoValued then c.(rule := c.rule.(featureVal := 0.0)) else c;
      if Less(col.score, c.minGini) then Calibration(SplitRule(name, i, col.winVal.v), col.score.v, col.score)
      else c0
  }

  /** The columns of a node, each with something to store if it wins. */
  ghost predicate Columns(names: seq<string>, cols: seq<ColumnInfo>) {
    |cols| == |names| && forall i :: 0 <= i < |cols| ==> Storable(cols[i])
  }

  /**
   * The calibration after `_bestSplit` has examined columns `0 .. k-1`,
   * starting from the node's fields. The running minimum starts at 1 and
   * never rises above it, and once it has dropped below 1 the stored `gini`
   * is the minimum, as the loop keeps `self.gini` and `min_gini` equal.
   */
  function CalibrateUpTo(names: seq<string>, cols: seq<ColumnInfo>, rule: SplitRule, gini: real, k: nat): (c: Calibration)
    requires Columns(names, cols) && k <= |names|
    ensures AtMost(c.minGini, Fin(1.0))
    ensures Less(c.minGini, Fin(1.0)) ==> c.minGini == Fin(c.gini)
  {
    if k == 0 then Calibration(rule, gini, Fin(1.0))
    else CalibrateStep(CalibrateUpTo(names, cols, rule, gini, k - 1), names[k - 1], k - 1, cols[k - 1])
  }

  /** The node's fields after `_bestSplit`. */
  function BestSplitResult(data: seq<Row>, names: seq<string>, lab: ClassLabels, rule: SplitRule, gini: real): Calibration
    requires Shaped(data, names, lab)
  {
    CalibrateUpTo(names, Summaries(data, names, lab), rule, gini, |names|)
  }

  /** The column a calibration has chosen, or -1 while the running minimum is still 1. */
  function Winner(c: Calibration): int {
    if Less(c.minGini, Fin(1.0)) then c.rule.featureIndex else -1
  }

  /**
   * After examining columns `0 .. k-1`: the running minimum is at most every
   * examined column's score. If no column won, the minimum is still 1 and the
   * name, index and impurity are the starting ones. Otherwise the winner is
   * an examined column, its name and index are stored, the stored impurity
   * is its score, and every examined column before it scored strictly worse:
   * the first column reaching the minimum wins.
   */
  lemma {:induction false} CalibrateWinner(names: seq<string>, cols: seq<ColumnInfo>, rule: SplitRule, gini: real, k: nat)
    requires Columns(names, cols) && k <= |names|
    ensures var c := CalibrateUpTo(names, cols, rule, gini, k);
      var w := Winner(c);
      && w < k
      && (forall i :: 0 <= i < k && cols[i].eligible ==> AtMost(c.minGini, cols[i].score))
      && (w < 0 ==>
            c.minGini == Fin(1.0) && c.rule.featureName == rule.featureName
            && c.rule.featureIndex == rule.featureIndex && c.gini == gini)
      && (w >= 0 ==>
            && cols[w].eligible && c.rule.featureIndex == w && c.rule.featureName == names[w]
            && c.minGini == cols[w].score && Fin(c.gini) == c.minGini
            && (forall i :: 0 <= i < w && cols[i].eligible ==> Less(c.minGini, cols[i].score)))
  {
    if k > 0 {
      CalibrateWinner(names, cols, rule, gini, k - 1);
      var p := CalibrateUpTo(names, cols, rule, gini, k - 1);
      var c := CalibrateUpTo(names, cols, rule, gini, k);
      var i := k - 1;
      if cols[i].eligible && Less(cols[i].score, p.minGini) {
        LessTransitive(c.minGini, p.minGini, Fin(1.0));
        forall i' | 0 <= i' < i && cols[i'].eligible ensures Less(c.minGini, cols[i'].score) {
          LessTransitive(c.minGini, p.minGini, cols[i'].score);
        }
      }
    }
  }

  /** Some examined two-valued column lies strictly between `from` and `k`. */
  ghost predicate TwoValuedBetween(cols: seq<ColumnInfo>, from: int, k: nat)
    requires k <= |cols|
  {
    if k <= from + 1 || k == 0 then false
    else TwoValuedBetween(cols, from, k - 1) || (cols[k - 1].eligible && cols[k - 1].twoValued)
  }

  /**
   * Where `featureVal` ends up: 0 whenever an examined two-valued column
   * came after the winner (or anywhere, when nothing won), even though that
   * column did not win; otherwise the winner's value (1 for a two-valued
   * column, the scan's threshold for a numeric one), or the starting value
   * when nothing won.
   */
  lemma {:induction false} CalibrateFeatureVal(names: seq<string>, cols: seq<ColumnInfo>, rule: SplitRule, gini: real, k: nat)
    requires Columns(names, cols) && k <= |names|
    ensures var c := CalibrateUpTo(names, cols, rule, gini, k);
      var w := Winner(c);
      && w < k
      && (TwoValuedBetween(cols, w, k) ==> c.rule.featureVal == 0.0)
      && (!TwoValuedBetween(cols, w, k) && w >= 0 ==> Fin(c.rule.featureVal) == cols[w].winVal)
      && (!TwoValuedBetween(cols, w, k) && w < 0 ==> c.rule.featureVal == rule.featureVal)
  {
    CalibrateWinner(names, cols, rule, gini, k);
    if k > 0 {
      CalibrateFeatureVal(names, cols, rule, gini, k - 1);
      CalibrateWinner(names, cols, rule, gini, k - 1);
      var p := CalibrateUpTo(names, cols, rule, gini, k - 1);
      var c := CalibrateUpTo(names, cols, rule, gini, k);
      var i := k - 1;
      if cols[i].eligible && Less(cols[i].score, p.minGini) {
        // column i is the new winner and nothing comes after it
        LessTransitive(c.minGini, p.minGini, Fin(1.0));
        assert Winner(c) == i;
      } else {
        assert Winner(c) == Winner(p);
      }
    }
  }

  /**
   * `_bestSplit` on a node: the split it stores always names a real column
   * (column 0 and the label column are never chosen), and a winning column
   * leaves an impurity in [0, 1/2].
   */
  lemma BestSplitChoosesColumn(data: seq<Row>, names: seq<string>, lab: ClassLabels, rule: SplitRule, gini: real)
    requires Shaped(data, names, lab) && rule.featureIndex < |names|
    ensures var c := BestSplitResult(data, names, lab, rule, gini);
      var w := Winner(c);
      && c.rule.featureIndex < |names|
      && (w >= 0 ==> Eligible(names, lab.labelName, w) && c.rule.featureName == names[w] && 0.0 <= c.gini <= 0.5)
      && (w < 0 ==> c.rule.featureName == rule.featureName && c.rule.featureIndex == rule.featureIndex && c.gini == gini)
  {
    var cols := Summaries(data, names, lab);
    CalibrateWinner(names, cols, rule, gini, |names|);
    var c := BestSplitResult(data, names, lab, rule, gini);
    var w := Winner(c);
    if w >= 0 {
      SummaryScoreRange(data, names, lab, w);
    }
  }

  // ------------------------------------------------------------- leaves

  /**
   * `make_leaf`: `cls_x` when it outnumbers `cls_y`, and `cls_y` otherwise
   * (ties included). The leaf predicts one of the two classes, and no less
   * frequent than either of them.
   */
  function LeafClass(data: seq<Row>, lab: ClassLabels): (c: Label)
    requires forall r :: r in data ==> lab.labelIndex < |r|
    ensures c == lab.clsX || c == lab.clsY
    ensures CountClassNum(data, lab, c) >= CountClassNum(data, lab, lab.clsX)
    ensures CountClassNum(data, lab, c) >= CountClassNum(data, lab, lab.clsY)
  {
    if CountClassNum(data, lab, lab.clsX) > CountClassNum(data, lab, lab.clsY) then lab.clsX else lab.clsY
  }

  /**
   * The leaf rule of `DTClassifier._fit`: `cls_x` when it outnumbers all
   * other rows, and `cls_y` otherwise. The leaf predicts one of the two
   * classes, and a `cls_x` leaf holds more `cls_x` rows than `cls_y` rows.
   */
  function MajorityClass(data: seq<Row>, lab: ClassLabels): (c: Label)
    requires forall r :: r in data ==> lab.labelIndex < |r|
    ensures c == lab.clsX || c == lab.clsY
    ensures lab.clsX != lab.clsY && c == lab.clsX ==>
      CountClassNum(data, lab, lab.clsX) > CountClassNum(data, lab, lab.clsY)
  {
    var classA := CountClassNum(data, lab, lab.clsX);
    var classB := |data| - classA;
    if classA > classB then
      CountsAtMostRows(data, lab);
      lab.clsX
    else lab.clsY
  }

  /**
   * On rows labelled only `cls_x` or `cls_y`, the two leaf rules agree: the
   * majority class, ties going to `cls_y`. A pure node predicts its label.
   */
  lemma LeafRulesAgree(data: seq<Row>, lab: ClassLabels)
    requires forall r :: r in data ==> lab.labelIndex < |r|
    requires lab.clsX != lab.clsY && TwoLabelRows(data, lab)
    ensures LeafClass(data, lab) == MajorityClass(data, lab)
    ensures var nx := CountClassNum(data, lab, lab.clsX);
      LeafClass(data, lab) == if nx > |data| - nx then lab.clsX else lab.clsY
    ensures data != [] && CountClassNum(data, lab, lab.clsX) == |data| ==> LeafClass(data, lab) == lab.clsX
    ensures CountClassNum(data, lab, lab.clsX) == 0 ==> LeafClass(data, lab) == lab.clsY
  {
    CountsCoverRows(data, lab);
  }

  // ------------------------------------------------------------- the node

  /** `gini = 1` is the "uncalibrated" value of a fresh node. */
  const InitialGini: real := 1.0

  /**
   * `ClassifierNode`: the base node fields (rows, column names, depth,
   * `samples`, id, children, split descriptor) plus `gini` and
   * `predictedClass` (`None` for the empty string).
   */
  class ClassifierNode {
    const data: seq<Row>
    const names: seq<string>
    const labels: ClassLabels
    const depth: nat
    const samples: nat
    const id: nat
    var left: ClassifierNode?
    var right: ClassifierNode?
    var featureName: string
    var featureIndex: nat
    var featureVal: real
    var gini: real
    var predictedClass: Option<Label>
    ghost var Repr: set<ClassifierNode>

    /** The node owns its two subtrees, which share no node and read the same columns; it has both children or none. */
    ghost predicate Valid()
      reads this, Repr
      decreases Repr
    {
      && this in Repr
      && Shaped(data, names, labels)
      && featureIndex < |names|
      && (left == null <==> right == null)
      && (left != null ==>
            && left in Repr && right in Repr
            && left.Repr <= Repr && right.Repr <= Repr
            && this !in left.Repr && this !in right.Repr
            && left.Repr !! right.Repr
            && left.names == names && right.names == names
            && left.labels == labels && right.labels == labels
            && left.Valid() && right.Valid())
    }

    function Rule(): SplitRule
      reads this
    {
      SplitRule(featureName, featureIndex, featureVal)
    }

    /** The state the constructor leaves: no children, the default descriptor, `gini = 1`, no class. */
    ghost predicate Unfitted()
      reads this
    {
      left == null && right == null && Rule() == InitialRule && gini == InitialGini
      && predictedClass == None && Repr == {this}
    }

    /** The subtree rooted here, as a value. */
    ghost function Model(): (t: Tree)
      reads this, Repr
      requires Valid()
      ensures Readable(t) && t.info.data == data && t.info.depth == depth
      ensures t.Leaf? <==> left == null
      decreases Repr
    {
      var info := NodeInfo(data, depth, Rule(), gini, predictedClass);
      if left == null then Leaf(info) else Internal(info, left.Model(), right.Model())
    }

    /**
     * The constructor: no children, depth 0 unless given, the default split
     * descriptor, `samples` the number of rows, the next id from the shared
     * counter, `gini = 1` and no predicted class.
     */
    constructor (data: seq<Row>, names: seq<string>, labels: ClassLabels, counter: NodeCounter, depth: nat := 0)
      requires Shaped(data, names, labels)
      modifies counter
      ensures Valid() && Unfitted()
      ensures this.data == data && this.names == names && this.labels == labels && this.depth == depth
      ensures samples == |data|
      ensures id == old(counter.cnt) && counter.cnt == old(counter.cnt) + 1
    {
      var next := counter.Next();
      this.data := data;
      this.names := names;
      this.labels := labels;
      this.depth := depth;
      left, right := null, null;
      featureName, featureIndex, featureVal := "", 0, 0.0;
      samples := |data|;
      id := next;
      gini := InitialGini;
      predictedClass := None;
      Repr := {this};
    }

    /**
     * `_bestSplit`: examine every column but column 0 and the label column,
     * updating the split descriptor and `gini` as `BestSplitResult` describes.
     */
    method BestSplit()
      requires Valid()
      modifies this`featureName, this`featureIndex, this`featureVal, this`gini
      ensures Valid()
      ensures var c := BestSplitResult(data, names, labels, old(Rule()), old(gini));
        Rule() == c.rule && gini == c.gini
    {
      ghost var rule0, gini0 := Rule(), gini;
      var minGini := Fin(1.0);
      for i := 0 to |names|
        invariant Calibration(Rule(), gini, minGini) == CalibrateUpTo(names, Summaries(data, names, labels), rule0, gini0, i)
        invariant Valid()
      {
        minGini := PassColumn(i, minGini);
      }
    }

    /** One pass of the `_bestSplit` loop: columns 0 and the label column are skipped, any other is scored and examined. */
    method PassColumn(i: nat, minGini: Score) returns (newMin: Score)
      requires Valid() && i < |names| && AtMost(minGini, Fin(1.0))
      modifies this`featureName, this`featureIndex, this`featureVal, this`gini
      ensures Valid()
      ensures Calibration(Rule(), gini, newMin)
        == CalibrateStep(Calibration(old(Rule()), old(gini), minGini), names[i], i, Summary(data, names, labels, i))
    {
      newMin := minGini;
      if i != 0 && names[i] != labels.labelName {
        var twoValued, g, threshold := ScoreColumn(data, names, labels, i);
        newMin := ExamineColumn(i, ColumnInfo(true, twoValued, g, threshold), minGini);
      }
    }

    /**
     * The update half of one pass of `_bestSplit` over an examined column: a
     * two-valued column resets `featureVal` to 0, and a column whose score
     * beats `min_gini` becomes the split.
     */
    method ExamineColumn(i: nat, col: ColumnInfo, minGini: Score) returns (newMin: Score)
      requires Valid() && i < |names| && col.eligible && Storable(col) && AtMost(minGini, Fin(1.0))
      modifies this`featureName, this`featureIndex, this`featureVal, this`gini
      ensures Valid()
      ensures Calibration(Rule(), gini, newMin) == CalibrateStep(Calibration(old(Rule()), old(gini), minGini), names[i], i, col)
    {
      if col.twoValued {
        featureVal := 0.0;
      }
      newMin := minGini;
      if Less(col.score, minGini) {
        newMin := col.score;
        featureName := names[i];
        featureIndex := i;
        featureVal := col.winVal.v;
        gini := col.score.v;
      }
    }

    /** `make_leaf`: store the class `LeafClass` picks. */
    method MakeLeaf()
      requires Valid()
      modifies this`predictedClass
      ensures Valid()
      ensures predictedClass == Some(LeafClass(data, labels))
    {
      var pA, pB := CountClassNum(data, labels, labels.clsX), CountClassNum(data, labels, labels.clsY);
      predictedClass := Some(if pA > pB then labels.clsX else labels.clsY);
    }
  }

  /** A node over well-formed data whose footprint is itself plus two disjoint valid subtrees over its columns is valid. */
  lemma JoinValid(node: ClassifierNode)
    requires Shaped(node.data, node.names, node.labels) && node.featureIndex < |node.names|
    requires node.left != null && node.right != null && node.left.Valid() && node.right.Valid()
    requires node.left.names == node.names && node.right.names == node.names
    requires node.left.labels == node.labels && node.right.labels == node.labels
    requires node !in node.left.Repr && node !in node.right.Repr && node.left.Repr !! node.right.Repr
    requires node.Repr == {node} + node.left.Repr + node.right.Repr
    ensures node.Valid()
  {
  }

  /** A valid subtree none of whose nodes has changed is still valid and still has the same model. */
  twostate lemma ModelFrame(node: ClassifierNode)
    requires old(node.Valid()) && unchanged(node) && unchanged(node.Repr)
    ensures node.Valid() && node.Model() == old(node.Model())
  {
  }
}
