/**
 * The classification metrics of metrics/classification.py: `confusion_matrix`
 * one-hot encodes the true and the predicted labels against `cls_x` and
 * counts the four combinations; `common_metrics` turns the counts into six
 * ratios. The code names the counts its own way: `FP` counts true positives
 * that were predicted negative and `FN` true negatives that were predicted
 * positive, the reverse of the usual names; the model keeps the code's.
 * `labelName` is accepted and never read, so it is not a parameter here.
 */
module ClassificationMetrics {
  import opened Wrappers
  import opened Reals

  /** The dictionary `confusion_matrix` returns. */
  datatype Confusion = Confusion(tp: nat, tn: nat, fp: nat, fn: nat)

  /**
   * Why the metrics fail: the two label lists differ in length (the data
   * frame cannot be built), or a ratio has a zero denominator.
   */
  datatype MetricError = LengthMismatch | ZeroDivision

  /** The dictionary `common_metrics` returns. */
  datatype Metrics = Metrics(accuracy: real, recall: real, specificity: real, precision: real, f1: real, auc: real)

  /** The one-hot encoding: a label is positive exactly when it equals `cls_x`. */
  predicate Positive<T(==)>(x: T, clsX: T) {
    x == clsX
  }

  /** The counts over the first `k` label pairs; every pair is counted exactly once. */
  function CountUpTo<T(==)>(yTrue: seq<T>, yPred: seq<T>, clsX: T, k: nat): (c: Confusion)
    requires |yTrue| == |yPred| && k <= |yTrue|
    ensures c.tp + c.tn + c.fp + c.fn == k
  {
    if k == 0 then Confusion(0, 0, 0, 0)
    else
      var c := CountUpTo(yTrue, yPred, clsX, k - 1);
      var t, p := Positive(yTrue[k - 1], clsX), Positive(yPred[k - 1], clsX);
      if t && p then c.(tp := c.tp + 1)
      else if t then c.(fp := c.fp + 1)
      else if p then c.(fn := c.fn + 1)
      else c.(tn := c.tn + 1)
  }

  /**
   * `confusion_matrix`: the counts over all label pairs, or a failure when
   * the lists differ in length.
   */
  function ConfusionMatrix<T(==)>(yTrue: seq<T>, yPred: seq<T>, clsX: T): (r: Result<Confusion, MetricError>)
    ensures r.Ok? <==> |yTrue| == |yPred|
    ensures r.Err? ==> r.error == LengthMismatch
  {
    if |yTrue| != |yPred| then Err(LengthMismatch) else Ok(CountUpTo(yTrue, yPred, clsX, |yTrue|))
  }

  // ---------------------------------------------------- what the counts mean

  /** The positions below `k` whose true label has one-hot value `t` and whose prediction has `p`. */
  ghost function Where<T>(yTrue: seq<T>, yPred: seq<T>, clsX: T, k: nat, t: bool, p: bool): set<nat>
    requires |yTrue| == |yPred| && k <= |yTrue|
  {
    set i: nat | i < k && Positive(yTrue[i], clsX) == t && Positive(yPred[i], clsX) == p
  }

  /** One more position either joins a set of positions or does not. */
  lemma WhereStep<T>(yTrue: seq<T>, yPred: seq<T>, clsX: T, k: nat, t: bool, p: bool)
    requires |yTrue| == |yPred| && k < |yTrue|
    ensures |Where(yTrue, yPred, clsX, k + 1, t, p)|
      == |Where(yTrue, yPred, clsX, k, t, p)|
         + (if Positive(yTrue[k], clsX) == t && Positive(yPred[k], clsX) == p then 1 else 0)
  {
    var before, after := Where(yTrue, yPred, clsX, k, t, p), Where(yTrue, yPred, clsX, k + 1, t, p);
    assert k !in before;
    if Positive(yTrue[k], clsX) == t && Positive(yPred[k], clsX) == p {
      assert after == before + {k};
    } else {
      assert after == before;
    }
  }

  /**
   * TP counts the positions where both labels are `cls_x`, TN those where
   * neither is, FP those where only the true label is, and FN those where
   * only the prediction is.
   */
  lemma {:induction false} CountsArePositions<T>(yTrue: seq<T>, yPred: seq<T>, clsX: T, k: nat)
    requires |yTrue| == |yPred| && k <= |yTrue|
    ensures var c := CountUpTo(yTrue, yPred, clsX, k);
      && c.tp == |Where(yTrue, yPred, clsX, k, true, true)|
      && c.tn == |Where(yTrue, yPred, clsX, k, false, false)|
      && c.fp == |Where(yTrue, yPred, clsX, k, true, false)|
      && c.fn == |Where(yTrue, yPred, clsX, k, false, true)|
  {
    if k > 0 {
      CountsArePositions(yTrue, yPred, clsX, k - 1);
      WhereStep(yTrue, yPred, clsX, k - 1, true, true);
      WhereStep(yTrue, yPred, clsX, k - 1, false, false);
      WhereStep(yTrue, yPred, clsX, k - 1, true, false);
      WhereStep(yTrue, yPred, clsX, k - 1, false, true);
    }
  }

  /**
   * TP + FP is the number of true labels equal to `cls_x` and TN + FN the number of
   * the others, TP + FN the number of predictions equal to `cls_x` and
   * TN + FP the number of the others.
   */
  lemma {:induction false} CountsAddUp<T>(yTrue: seq<T>, yPred: seq<T>, clsX: T, k: nat)
    requires |yTrue| == |yPred| && k <= |yTrue|
    ensures var c := CountUpTo(yTrue, yPred, clsX, k);
      && c.tp + c.fp == multiset(yTrue[..k])[clsX]
      && c.tn + c.fn == k - multiset(yTrue[..k])[clsX]
      && c.tp + c.fn == multiset(yPred[..k])[clsX]
      && c.tn + c.fp == k - multiset(yPred[..k])[clsX]
  {
    if k > 0 {
      CountsAddUp(yTrue, yPred, clsX, k - 1);
      PrefixMultiplicity(yTrue, clsX, k);
      PrefixMultiplicity(yPred, clsX, k);
    }
  }

  /** Extending a prefix by one element adds one occurrence of `x` exactly when that element is `x`. */
  lemma PrefixMultiplicity<T>(s: seq<T>, x: T, k: nat)
    requires 0 < k <= |s|
    ensures multiset(s[..k])[x] == multiset(s[..k - 1])[x] + (if s[k - 1] == x then 1 else 0)
  {
    assert s[..k] == s[..k - 1] + [s[k - 1]];
  }

  /** No position is counted false (FP or FN) exactly when every one-hot prediction matches the truth. */
  lemma NoFalseCounts<T>(yTrue: seq<T>, yPred: seq<T>, clsX: T)
    requires |yTrue| == |yPred|
    ensures var c := CountUpTo(yTrue, yPred, clsX, |yTrue|);
      c.fp + c.fn == 0 <==> forall i :: 0 <= i < |yTrue| ==> (Positive(yTrue[i], clsX) <==> Positive(yPred[i], clsX))
  {
    var n := |yTrue|;
    CountsArePositions(yTrue, yPred, clsX, n);
    var fps, fns := Where(yTrue, yPred, clsX, n, true, false), Where(yTrue, yPred, clsX, n, false, true);
    if forall i :: 0 <= i < n ==> (Positive(yTrue[i], clsX) <==> Positive(yPred[i], clsX)) {
      assert fps == {};
      assert fns == {};
    } else {
      var i :| 0 <= i < n && !(Positive(yTrue[i], clsX) <==> Positive(yPred[i], clsX));
      assert i in fps + fns;
    }
  }

  // ------------------------------------------------------------ the ratios

  /**
   * `common_metrics` on a confusion matrix. Each ratio is computed
   * unguarded, so any zero denominator fails; the F1 and "auc" denominators
   * are zero only when one of the others is. Every ratio lies in [0, 1],
   * and accuracy is 1 exactly when FP and FN are both zero.
   */
  function Ratios(c: Confusion): (r: Result<Metrics, MetricError>)
    ensures r.Err? <==> c.tp + c.tn + c.fp + c.fn == 0 || c.tp + c.fn == 0 || c.tn + c.fp == 0 || c.tp + c.fp == 0
    ensures r.Err? ==> r.error == ZeroDivision
    ensures r.Ok? ==> var m := r.value;
      && 0.0 <= m.accuracy <= 1.0 && 0.0 <= m.recall <= 1.0 && 0.0 <= m.specificity <= 1.0
      && 0.0 <= m.precision <= 1.0 && 0.0 <= m.f1 <= 1.0 && 0.0 <= m.auc <= 1.0
      && (m.accuracy == 1.0 <==> c.fp == 0 && c.fn == 0)
  {
    var total := c.tp + c.tn + c.fp + c.fn;
    if total == 0 || c.tp + c.fn == 0 || c.tn + c.fp == 0 || c.tp + c.fp == 0
       || 2 * c.tp + c.fp + c.fn == 0 || c.tp + c.fn + c.fp == 0 then
      Err(ZeroDivision)
    else
      var d := (c.tp + c.fn + c.fp) as real;
      QuotientBounds(c.tp as real + 0.5 * c.fp as real, d, 1.0);
      Ok(Metrics(
        Fraction(c.tp + c.tn, total),
        Fraction(c.tp, c.tp + c.fn),
        Fraction(c.tn, c.tn + c.fp),
        Fraction(c.tp, c.tp + c.fp),
        Fraction(2 * c.tp, 2 * c.tp + c.fp + c.fn),
        (c.tp as real + 0.5 * c.fp as real) / d))
  }

  /**
   * `common_metrics`: the ratios of the confusion matrix of the two label
   * lists. Lists of different lengths fail as such, and every ratio of a
   * success lies in [0, 1].
   */
  function CommonMetrics<T(==)>(yTrue: seq<T>, yPred: seq<T>, clsX: T): (r: Result<Metrics, MetricError>)
    ensures r.Err? && r.error == LengthMismatch <==> |yTrue| != |yPred|
    ensures r.Ok? ==> var m := r.value;
      && 0.0 <= m.accuracy <= 1.0 && 0.0 <= m.recall <= 1.0 && 0.0 <= m.specificity <= 1.0
      && 0.0 <= m.precision <= 1.0 && 0.0 <= m.f1 <= 1.0 && 0.0 <= m.auc <= 1.0
  {
    match ConfusionMatrix(yTrue, yPred, clsX)
    case Err(e) => Err(e)
    case Ok(c) => Ratios(c)
  }

  /**
   * `common_metrics` succeeds exactly when the lists have the same length,
   * some true label is `cls_x`, and some prediction is `cls_x` and some is
   * not. Its accuracy is then 1 exactly when every one-hot prediction
   * matches the truth.
   */
  lemma CommonMetricsSpec<T>(yTrue: seq<T>, yPred: seq<T>, clsX: T)
    ensures CommonMetrics(yTrue, yPred, clsX).Ok? <==>
      && |yTrue| == |yPred|
      && 0 < multiset(yTrue)[clsX]
      && 0 < multiset(yPred)[clsX] < |yPred|
    ensures CommonMetrics(yTrue, yPred, clsX).Ok? ==>
      (CommonMetrics(yTrue, yPred, clsX).value.accuracy == 1.0
       <==> forall i :: 0 <= i < |yTrue| ==> (Positive(yTrue[i], clsX) <==> Positive(yPred[i], clsX)))
  {
    if |yTrue| == |yPred| {
      var n := |yTrue|;
      CountsAddUp(yTrue, yPred, clsX, n);
      assert yTrue[..n] == yTrue && yPred[..n] == yPred;
      NoFalseCounts(yTrue, yPred, clsX);
    }
  }
}
