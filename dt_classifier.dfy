/**
 * The classification tree (`DTClassifier` in DTClassifier.py, built on the
 * shared `DecisionTree` logic of _abstract.py): the recursive fit that
 * calibrates, partitions and grows nodes; prediction by walking a sample
 * down the tree; and `evaluate`, which tallies a confusion count over a
 * test table. `Build` is the fitted tree as a value; the `DTClassifier`
 * class grows the same tree in place and is proved to produce it.
 */
module DTClassifier {
  import opened Wrappers
  import opened Score
  import opened Table
  import opened DecisionNode
  import opened DecisionTree
  import opened ClassifierNode
  import opened Reals

  // ------------------------------------------------------------- fitting

  /**
   * What `_bestSplit` leaves in a fresh node: the stored column exists, and
   * either an examined column won (its name is stored and the impurity lies
   * in [0, 1/2]) or none did and the node keeps `featureName = ""`,
   * `featureIndex = 0` and `gini = 1`.
   */
  ghost predicate SplitChosen(rule: SplitRule, gini: real, names: seq<string>, lab: ClassLabels) {
    var fi := rule.featureIndex;
    && fi < |names|
    && ((Eligible(names, lab.labelName, fi) && rule.featureName == names[fi] && 0.0 <= gini <= 0.5)
        || (rule.featureName == "" && fi == 0 && gini == InitialGini))
  }

  /**
   * A calibration of fresh nodes: defined on every node that fits the
   * column names, and choosing its split as `_bestSplit` does.
   */
  ghost predicate Chooses(cal: seq<Row> --> Calibration, names: seq<string>, lab: ClassLabels) {
    && (forall d :: Shaped(d, names, lab) ==> cal.requires(d))
    && (forall d {:trigger cal(d)} :: Shaped(d, names, lab) ==> SplitChosen(cal(d).rule, cal(d).gini, names, lab))
  }

  /** `_bestSplit` run on a fresh node holding `d`. */
  ghost function FitCalibrator(names: seq<string>, lab: ClassLabels): seq<Row> --> Calibration {
    d requires Shaped(d, names, lab) => BestSplitResult(d, names, lab, InitialRule, InitialGini)
  }

  /** `cal` agrees with `_bestSplit` on every node that fits the column names. */
  ghost predicate IsBestSplit(cal: seq<Row> --> Calibration, names: seq<string>, lab: ClassLabels) {
    forall d {:trigger BestSplitResult(d, names, lab, InitialRule, InitialGini)} :: Shaped(d, names, lab) ==>
      cal.requires(d) && cal(d) == BestSplitResult(d, names, lab, InitialRule, InitialGini)
  }

  /** `_bestSplit` on a fresh node picks an examined column or none. */
  lemma FitCalibratorChooses(names: seq<string>, lab: ClassLabels)
    ensures Chooses(FitCalibrator(names, lab), names, lab)
    ensures IsBestSplit(FitCalibrator(names, lab), names, lab)
  {
    forall d | Shaped(d, names, lab)
      ensures SplitChosen(BestSplitResult(d, names, lab, InitialRule, InitialGini).rule, BestSplitResult(d, names, lab, InitialRule, InitialGini).gini, names, lab)
    {
      BestSplitChoosesColumn(d, names, lab, InitialRule, InitialGini);
    }
  }

  /**
   * `grow` stands for `Build` with `cal` and the tree's bounds: for every
   * well-formed node data and depth it yields the tree `Build` grows. (The
   * methods that fit a tree are specified through `grow`, so that their
   * proofs unfold `Build` only where they name it.)
   */
  ghost predicate Grows(grow: (seq<Row>, nat) -> Tree, names: seq<string>, lab: ClassLabels,
                        cal: seq<Row> --> Calibration, maxDepth: int, minSample: int)
  {
    && Chooses(cal, names, lab)
    && forall d, depth {:trigger Build(d, names, lab, cal, depth, maxDepth, minSample)} ::
         Shaped(d, names, lab) ==> grow(d, depth) == Build(d, names, lab, cal, depth, maxDepth, minSample)
  }

  /** `Build` with `cal` and the bounds fixed, made total by an empty leaf for data `Build` does not accept. */
  ghost function Grower(names: seq<string>, lab: ClassLabels, cal: seq<Row> --> Calibration, maxDepth: int, minSample: int)
    : (seq<Row>, nat) -> Tree
  {
    (d: seq<Row>, depth: nat) =>
      if Shaped(d, names, lab) && Chooses(cal, names, lab) then Build(d, names, lab, cal, depth, maxDepth, minSample)
      else Leaf(NodeInfo(d, depth, InitialRule, InitialGini, None))
  }

  /**
   * The tree `DTClassifier._fit` grows from a fresh node holding `data` at
   * `depth`, with `cal` calibrating each node (the fit uses
   * `FitCalibrator`). A node that passes `_can_split` (its `gini` is still
   * the fresh 1 at that point, so the `gini != 0` test always passes) is
   * grown as `SplitTree` says; a node that fails `_can_split` becomes a leaf
   * predicting the majority class.
   */
  function Build(data: seq<Row>, names: seq<string>, lab: ClassLabels, cal: seq<Row> --> Calibration,
                 depth: nat, maxDepth: int, minSample: int): (t: Tree)
    requires Shaped(data, names, lab) && Chooses(cal, names, lab)
    ensures t.info.data == data && t.info.depth == depth && Readable(t)
    decreases Budget(maxDepth, depth), 1
  {
    if NodeCanSplit(maxDepth, minSample, depth, data) && InitialGini != 0.0 then
      SplitTree(data, names, lab, cal, depth, maxDepth, minSample)
    else Leaf(NodeInfo(data, depth, InitialRule, InitialGini, Some(MajorityClass(data, lab))))
  }

  /**
   * The base `DecisionTree._fit` on a node that may be split: `_split`
   * calibrates and partitions it; the node gets children `left = dfB` and
   * `right = dfA`, each grown by `Build` one level deeper, when both sides
   * are non-empty, and becomes a `make_leaf` leaf otherwise.
   */
  function SplitTree(data: seq<Row>, names: seq<string>, lab: ClassLabels, cal: seq<Row> --> Calibration,
                     depth: nat, maxDepth: int, minSample: int): (t: Tree)
    requires Shaped(data, names, lab) && Chooses(cal, names, lab)
    requires NodeCanSplit(maxDepth, minSample, depth, data)
    ensures t.info.data == data && t.info.depth == depth && Readable(t)
    decreases Budget(maxDepth, depth), 0
  {
    var c := cal(data);
    var s := Partition(data, c.rule);
    if |s.dfA| > 0 && |s.dfB| > 0 then
      PartitionWellFormed(data, names, c.rule);
      Internal(NodeInfo(data, depth, c.rule, c.gini, None),
               Build(s.dfB, names, lab, cal, depth + 1, maxDepth, minSample),
               Build(s.dfA, names, lab, cal, depth + 1, maxDepth, minSample))
    else Leaf(NodeInfo(data, depth, c.rule, c.gini, Some(LeafClass(data, lab))))
  }

  /** The tree `fit` grows from a fresh root holding `data`: `Build` from depth 0 with `_bestSplit` calibrating every node. */
  ghost function FittedTree(data: seq<Row>, names: seq<string>, lab: ClassLabels, maxDepth: int, minSample: int): Tree
    requires Shaped(data, names, lab)
  {
    FitCalibratorChooses(names, lab);
    Build(data, names, lab, FitCalibrator(names, lab), 0, maxDepth, minSample)
  }

  /** `SplitTree` on a node: calibrate, partition, then split or make a leaf. */
  lemma BuildSplits(data: seq<Row>, names: seq<string>, lab: ClassLabels, cal: seq<Row> --> Calibration,
      depth: nat, maxDepth: int, minSample: int, c: Calibration, s: Sides)
    requires Shaped(data, names, lab) && Chooses(cal, names, lab)
    requires NodeCanSplit(maxDepth, minSample, depth, data)
    requires c == cal(data) && s == Partition(data, c.rule)
    requires Shaped(s.dfA, names, lab) && Shaped(s.dfB, names, lab)
    ensures SplitTree(data, names, lab, cal, depth, maxDepth, minSample)
      == if s.dfA != [] && s.dfB != [] then
           Internal(NodeInfo(data, depth, c.rule, c.gini, None),
                    Build(s.dfB, names, lab, cal, depth + 1, maxDepth, minSample),
                    Build(s.dfA, names, lab, cal, depth + 1, maxDepth, minSample))
         else Leaf(NodeInfo(data, depth, c.rule, c.gini, Some(LeafClass(data, lab))))
  {
  }

  /** The fitted tree splits every internal node's rows between its two children. */
  lemma {:induction false} BuildSplitsPartition(data: seq<Row>, names: seq<string>, lab: ClassLabels, cal: seq<Row> --> Calibration,
      depth: nat, maxDepth: int, minSample: int)
    requires Shaped(data, names, lab) && Chooses(cal, names, lab)
    ensures SplitsPartition(Build(data, names, lab, cal, depth, maxDepth, minSample), maxDepth, minSample)
    decreases Budget(maxDepth, depth)
  {
    if NodeCanSplit(maxDepth, minSample, depth, data) {
      var c := cal(data);
      var s := Partition(data, c.rule);
      PartitionWellFormed(data, names, c.rule);
      PartitionSides(data, c.rule);
      assert Build(data, names, lab, cal, depth, maxDepth, minSample) == SplitTree(data, names, lab, cal, depth, maxDepth, minSample);
      if s.dfA != [] && s.dfB != [] {
        BuildSplitsPartition(s.dfB, names, lab, cal, depth + 1, maxDepth, minSample);
        BuildSplitsPartition(s.dfA, names, lab, cal, depth + 1, maxDepth, minSample);
      }
    }
  }

  /**
   * `maxDepth` bounds the fitted tree: grown from `depth`, it is at most
   * `maxDepth - depth` splits high, and grown from a depth within `maxDepth`
   * no node of it is deeper than `maxDepth`. Every child holds strictly
   * fewer rows than its parent.
   */
  lemma BuildHeight(data: seq<Row>, names: seq<string>, lab: ClassLabels, cal: seq<Row> --> Calibration,
      depth: nat, maxDepth: int, minSample: int)
    requires Shaped(data, names, lab) && Chooses(cal, names, lab)
    ensures Height(Build(data, names, lab, cal, depth, maxDepth, minSample)) <= Budget(maxDepth, depth)
    ensures depth <= maxDepth ==> DepthsWithin(Build(data, names, lab, cal, depth, maxDepth, minSample), maxDepth)
    ensures ChildrenShrink(Build(data, names, lab, cal, depth, maxDepth, minSample))
  {
    var t := Build(data, names, lab, cal, depth, maxDepth, minSample);
    BuildSplitsPartition(data, names, lab, cal, depth, maxDepth, minSample);
    SplitsBoundHeight(t, maxDepth, minSample);
    SplitsShrink(t, maxDepth, minSample);
    if depth <= maxDepth {
      SplitsKeepDepth(t, maxDepth, minSample);
    }
  }

  /** Leaves predict `cls_x` or `cls_y`; internal nodes keep the empty `predictedClass`. */
  ghost predicate LeavesPredict(t: Tree, lab: ClassLabels) {
    match t
    case Leaf(info) => info.prediction == Some(lab.clsX) || info.prediction == Some(lab.clsY)
    case Internal(info, l, r) => info.prediction.None? && LeavesPredict(l, lab) && LeavesPredict(r, lab)
  }

  lemma {:induction false} BuildLeavesPredict(data: seq<Row>, names: seq<string>, lab: ClassLabels, cal: seq<Row> --> Calibration,
      depth: nat, maxDepth: int, minSample: int)
    requires Shaped(data, names, lab) && Chooses(cal, names, lab)
    ensures LeavesPredict(Build(data, names, lab, cal, depth, maxDepth, minSample), lab)
    decreases Budget(maxDepth, depth)
  {
    if NodeCanSplit(maxDepth, minSample, depth, data) {
      var c := cal(data);
      var s := Partition(data, c.rule);
      PartitionWellFormed(data, names, c.rule);
      assert Build(data, names, lab, cal, depth, maxDepth, minSample) == SplitTree(data, names, lab, cal, depth, maxDepth, minSample);
      if s.dfA != [] && s.dfB != [] {
        BuildLeavesPredict(s.dfB, names, lab, cal, depth + 1, maxDepth, minSample);
        BuildLeavesPredict(s.dfA, names, lab, cal, depth + 1, maxDepth, minSample);
      }
    }
  }

  /**
   * What `_bestSplit` left in each internal node: either a column won, and
   * the node names an examined column and carries an impurity in [0, 1/2];
   * or none did, and the node still has `featureName = ""`,
   * `featureIndex = 0` and `gini = 1`.
   */
  ghost predicate CalibratedSplits(t: Tree, names: seq<string>, lab: ClassLabels) {
    match t
    case Leaf(_) => true
    case Internal(info, l, r) =>
      && SplitChosen(info.rule, info.impurity, names, lab)
      && CalibratedSplits(l, names, lab) && CalibratedSplits(r, names, lab)
  }

  lemma {:induction false} BuildCalibratedSplits(data: seq<Row>, names: seq<string>, lab: ClassLabels, cal: seq<Row> --> Calibration,
      depth: nat, maxDepth: int, minSample: int)
    requires Shaped(data, names, lab) && Chooses(cal, names, lab)
    ensures CalibratedSplits(Build(data, names, lab, cal, depth, maxDepth, minSample), names, lab)
    decreases Budget(maxDepth, depth)
  {
    if NodeCanSplit(maxDepth, minSample, depth, data) {
      var c := cal(data);
      var s := Partition(data, c.rule);
      PartitionWellFormed(data, names, c.rule);
      assert Build(data, names, lab, cal, depth, maxDepth, minSample) == SplitTree(data, names, lab, cal, depth, maxDepth, minSample);
      if s.dfA != [] && s.dfB != [] {
        BuildCalibratedSplits(s.dfB, names, lab, cal, depth + 1, maxDepth, minSample);
        BuildCalibratedSplits(s.dfA, names, lab, cal, depth + 1, maxDepth, minSample);
      }
    }
  }

  // ------------------------------------------------------------ prediction

  /** A tree whose leaves predict classes stores nothing else in its leaves. */
  lemma {:induction false} LeafPredictionsAreClasses(t: Tree, lab: ClassLabels)
    requires LeavesPredict(t, lab)
    ensures LeafPredictions(t) <= {Some(lab.clsX), Some(lab.clsY)}
  {
    if t.Internal? {
      LeafPredictionsAreClasses(t.left, lab);
      LeafPredictionsAreClasses(t.right, lab);
    }
  }

  /**
   * `_predict` on a tree whose leaves predict classes returns `cls_x` or
   * `cls_y` for any sample it can route, never the empty `predictedClass`
   * of an internal node.
   */
  lemma PredictIsLeafClass(t: Tree, lab: ClassLabels, samp: Sample)
    requires Readable(t) && LeavesPredict(t, lab)
    ensures PredictTree(t, samp).Ok? ==>
      PredictTree(t, samp).value == Some(lab.clsX) || PredictTree(t, samp).value == Some(lab.clsY)
  {
    LeafPredictionsAreClasses(t, lab);
  }

  /** `predict` on a fitted classifier answers `cls_x` or `cls_y` for every sample it can route. */
  lemma FittedPredictsClass(data: seq<Row>, names: seq<string>, lab: ClassLabels, maxDepth: int, minSample: int, samp: Sample)
    requires Shaped(data, names, lab)
    ensures var r := PredictTree(FittedTree(data, names, lab, maxDepth, minSample), samp);
      r.Ok? ==> r.value == Some(lab.clsX) || r.value == Some(lab.clsY)
  {
    FitCalibratorChooses(names, lab);
    var cal := FitCalibrator(names, lab);
    BuildLeavesPredict(data, names, lab, cal, 0, maxDepth, minSample);
    PredictIsLeafClass(Build(data, names, lab, cal, 0, maxDepth, minSample), lab, samp);
  }

  /** With distinct column names, a tree in which every split found a winning column is routable. */
  lemma {:induction false} CalibratedRoutable(t: Tree, names: seq<string>, lab: ClassLabels)
    requires Readable(t) && CalibratedSplits(t, names, lab) && DistinctNames(names)
    requires NoFallbackSplit(t)
    ensures Routable(t, names)
  {
    CalibratedNamed(t, names, lab);
    NamedSplitsRoutable(t, names);
  }

  /** A split that found a winner keeps an impurity below 1 and stores the winner's name, so a tree without `gini = 1` splits means every split names its column. */
  lemma {:induction false} CalibratedNamed(t: Tree, names: seq<string>, lab: ClassLabels)
    requires CalibratedSplits(t, names, lab) && NoFallbackSplit(t)
    ensures NamedSplits(t, names)
  {
    if t.Internal? {
      CalibratedNamed(t.left, names, lab);
      CalibratedNamed(t.right, names, lab);
    }
  }

  /** No internal node kept `gini = 1`: every split found a winning column. */
  ghost predicate NoFallbackSplit(t: Tree) {
    match t
    case Leaf(_) => true
    case Internal(info, l, r) => info.impurity != InitialGini && NoFallbackSplit(l) && NoFallbackSplit(r)
  }

  // ------------------------------------------------------------ evaluation

  /** The four counts `evaluate` keeps: true positives, true negatives, false positives, false negatives. */
  datatype Tally = Tally(tp: nat, tn: nat, fp: nat, fn: nat)

  function Total(t: Tally): nat {
    t.tp + t.tn + t.fp + t.fn
  }

  /**
   * Why `evaluate` fails: predicting a row fails, a row has no label column
   * (KeyError), or a ratio has a zero denominator (ZeroDivisionError).
   */
  datatype EvalError = PredictFailed(cause: PredictError) | MissingLabel(name: string) | AmbiguousLabel(name: string) | ZeroDivision

  /** The dictionary `evaluate` returns. */
  datatype Metrics = Metrics(accuracy: real, sensitivity: real, specificity: real, precision: real)

  /** `s[labelName]` as one value: the row's label, read by column name. */
  function LabelOf(samp: Sample, lab: ClassLabels): (r: Option<Label>)
    ensures r.Some? ==> lab.labelName in samp.names
  {
    match Lookup(samp.names, lab.labelName)
    case Err(_) => None
    case Ok(j) => if j < |samp.values| then Some(samp.values[j]) else None
  }

  /**
   * A row's label can be read exactly when one column has the label's name
   * and the row has a cell for it, and it is that cell.
   */
  lemma LabelReadable(samp: Sample, lab: ClassLabels)
    ensures LabelOf(samp, lab).Some? <==>
      multiset(samp.names)[lab.labelName] == 1 && Lookup(samp.names, lab.labelName).Ok? && Lookup(samp.names, lab.labelName).value < |samp.values|
    ensures LabelOf(samp, lab).Some? ==> LabelOf(samp, lab).value == samp.values[Lookup(samp.names, lab.labelName).value]
  {
    LookupOnce(samp.names, lab.labelName);
  }

  /**
   * Why a row's label cannot be read: a label column named more than once
   * makes `s[labelName]` a Series, whose comparison raises; otherwise the
   * name or its cell is missing.
   */
  function LabelFailure(samp: Sample, lab: ClassLabels): (e: EvalError)
    ensures e.AmbiguousLabel? <==> multiset(samp.names)[lab.labelName] > 1
  {
    if multiset(samp.names)[lab.labelName] > 1 then AmbiguousLabel(lab.labelName) else MissingLabel(lab.labelName)
  }

  /**
   * One pass of the `evaluate` loop on a row labelled `actual` and predicted
   * `predicted`: exactly one count goes up; it is a true count exactly when
   * the prediction equals the label, and a positive count exactly when the
   * prediction is `cls_x` (an empty `predictedClass` equals no label).
   */
  function Count(t: Tally, actual: Label, predicted: Option<Label>, clsX: Label): (r: Tally)
    ensures Total(r) == Total(t) + 1
    ensures t.tp <= r.tp && t.tn <= r.tn && t.fp <= r.fp && t.fn <= r.fn
    ensures r.tp + r.tn == t.tp + t.tn + 1 <==> predicted == Some(actual)
    ensures r.tp + r.fp == t.tp + t.fp + 1 <==> predicted == Some(clsX)
  {
    if predicted == Some(actual) then
      if predicted == Some(clsX) then t.(tp := t.tp + 1) else t.(tn := t.tn + 1)
    else
      if predicted == Some(clsX) then t.(fp := t.fp + 1) else t.(fn := t.fn + 1)
  }

  /** One row of `evaluate`: predict it, then read its label, then count it as one more row. */
  function CountRow(tree: Tree, t: Tally, samp: Sample, lab: ClassLabels): (r: Result<Tally, EvalError>)
    requires Readable(tree)
    ensures r.Ok? ==> Total(r.value) == Total(t) + 1
  {
    match PredictTree(tree, samp)
    case Err(e) => Err(PredictFailed(e))
    case Ok(p) =>
      match LabelOf(samp, lab)
      case None => Err(LabelFailure(samp, lab))
      case Some(a) => Ok(Count(t, a, p, lab.clsX))
  }

  /** The counts after the loop has run over `rows`, or the first failure; a completed tally counts every row once. */
  function TallyRows(tree: Tree, rows: seq<Sample>, lab: ClassLabels): (r: Result<Tally, EvalError>)
    requires Readable(tree)
    ensures r.Ok? ==> Total(r.value) == |rows|
    decreases |rows|
  {
    if rows == [] then Ok(Tally(0, 0, 0, 0))
    else
      match TallyRows(tree, rows[..|rows| - 1], lab)
      case Err(e) => Err(e)
      case Ok(t) => CountRow(tree, t, rows[|rows| - 1], lab)
  }

  /** The loop's step: one more row is counted on top of the counts so far. */
  lemma TallyStep(tree: Tree, rows: seq<Sample>, i: nat, lab: ClassLabels, t: Tally)
    requires Readable(tree) && i < |rows|
    requires TallyRows(tree, rows[..i], lab) == Ok(t)
    ensures TallyRows(tree, rows[..i + 1], lab) == CountRow(tree, t, rows[i], lab)
  {
    assert rows[..i + 1][..i] == rows[..i];
  }

  /** The loop gets through every row exactly when every row can be predicted and carries a label. */
  lemma {:induction false} TallyOk(tree: Tree, rows: seq<Sample>, lab: ClassLabels)
    requires Readable(tree)
    ensures TallyRows(tree, rows, lab).Ok?
      <==> forall i :: 0 <= i < |rows| ==> PredictTree(tree, rows[i]).Ok? && LabelOf(rows[i], lab).Some?
    decreases |rows|
  {
    if rows != [] {
      var pre := rows[..|rows| - 1];
      TallyOk(tree, pre, lab);
      if TallyRows(tree, pre, lab).Ok? {
        CountRowOk(tree, TallyRows(tree, pre, lab).value, rows[|rows| - 1], lab);
      }
      ReadableRowsSplit(tree, rows, pre, lab);
    }
  }

  /** Every row can be predicted and has a label exactly when the rows before the last can, and the last one can. */
  lemma ReadableRowsSplit(tree: Tree, rows: seq<Sample>, pre: seq<Sample>, lab: ClassLabels)
    requires Readable(tree) && rows != [] && pre == rows[..|rows| - 1]
    ensures (forall i :: 0 <= i < |rows| ==> PredictTree(tree, rows[i]).Ok? && LabelOf(rows[i], lab).Some?)
      <==> (forall i :: 0 <= i < |pre| ==> PredictTree(tree, pre[i]).Ok? && LabelOf(pre[i], lab).Some?)
           && PredictTree(tree, rows[|rows| - 1]).Ok? && LabelOf(rows[|rows| - 1], lab).Some?
  {
    assert forall i :: 0 <= i < |pre| ==> pre[i] == rows[i];
  }

  /** A row is counted exactly when it can be predicted and carries a label. */
  lemma CountRowOk(tree: Tree, t: Tally, samp: Sample, lab: ClassLabels)
    requires Readable(tree)
    ensures CountRow(tree, t, samp, lab).Ok? <==> PredictTree(tree, samp).Ok? && LabelOf(samp, lab).Some?
  {
  }

  /**
   * A completed tally has no false count exactly when every row's
   * prediction is its label.
   */
  lemma {:induction false} TallyExact(tree: Tree, rows: seq<Sample>, lab: ClassLabels)
    requires Readable(tree)
    ensures TallyRows(tree, rows, lab).Ok? ==>
      (TallyRows(tree, rows, lab).value.fp + TallyRows(tree, rows, lab).value.fn == 0
       <==> forall i :: 0 <= i < |rows| ==> PredictTree(tree, rows[i]) == Ok(LabelOf(rows[i], lab)))
    decreases |rows|
  {
    if rows != [] && TallyRows(tree, rows, lab).Ok? {
      var n := |rows| - 1;
      var pre := rows[..n];
      TallyExact(tree, pre, lab);
      var t := TallyRows(tree, pre, lab).value;
      assert TallyRows(tree, rows, lab) == CountRow(tree, t, rows[n], lab);
      CountExact(tree, t, rows[n], lab);
      ExactRowsSplit(tree, rows, pre, lab);
    }
  }

  /** Every row is predicted as its label exactly when the rows before the last are, and the last one is. */
  lemma ExactRowsSplit(tree: Tree, rows: seq<Sample>, pre: seq<Sample>, lab: ClassLabels)
    requires Readable(tree) && rows != [] && pre == rows[..|rows| - 1]
    ensures (forall i :: 0 <= i < |rows| ==> PredictTree(tree, rows[i]) == Ok(LabelOf(rows[i], lab)))
      <==> (forall i :: 0 <= i < |pre| ==> PredictTree(tree, pre[i]) == Ok(LabelOf(pre[i], lab)))
           && PredictTree(tree, rows[|rows| - 1]) == Ok(LabelOf(rows[|rows| - 1], lab))
  {
    assert forall i :: 0 <= i < |pre| ==> pre[i] == rows[i];
  }

  /** A counted row adds no false count exactly when it is predicted as its label. */
  lemma CountExact(tree: Tree, t: Tally, samp: Sample, lab: ClassLabels)
    requires Readable(tree) && CountRow(tree, t, samp, lab).Ok?
    ensures t.fp + t.fn <= CountRow(tree, t, samp, lab).value.fp + CountRow(tree, t, samp, lab).value.fn
    ensures CountRow(tree, t, samp, lab).value.fp + CountRow(tree, t, samp, lab).value.fn == t.fp + t.fn
      <==> PredictTree(tree, samp) == Ok(LabelOf(samp, lab))
  {
    var p, a := PredictTree(tree, samp).value, LabelOf(samp, lab).value;
    assert CountRow(tree, t, samp, lab) == Ok(Count(t, a, p, lab.clsX));
  }

  /** A failure stops the loop: once a prefix fails, the whole run fails the same way. */
  lemma {:induction false} TallyErrSticks(tree: Tree, rows: seq<Sample>, k: nat, lab: ClassLabels)
    requires Readable(tree) && k <= |rows|
    requires TallyRows(tree, rows[..k], lab).Err?
    ensures TallyRows(tree, rows, lab) == TallyRows(tree, rows[..k], lab)
    decreases |rows| - k
  {
    if k < |rows| {
      var pre := rows[..|rows| - 1];
      assert pre[..k] == rows[..k];
      TallyErrSticks(tree, pre, k, lab);
      assert TallyRows(tree, rows, lab) == TallyRows(tree, pre, lab);
    } else {
      assert rows[..k] == rows;
    }
  }

  /**
   * The four ratios of `evaluate`. The code divides unguarded, so any zero
   * denominator raises; an empty tally is already caught by the recall
   * denominator. Each ratio lies in [0, 1], and accuracy is 1 exactly when
   * there is no false count.
   */
  function Summarize(t: Tally): (r: Result<Metrics, EvalError>)
    ensures r.Err? <==> t.tp + t.fn == 0 || t.tn + t.fp == 0 || t.tp + t.fp == 0
    ensures r.Err? ==> r.error == ZeroDivision
    ensures r.Ok? ==> var m := r.value;
      && 0.0 <= m.accuracy <= 1.0 && 0.0 <= m.sensitivity <= 1.0
      && 0.0 <= m.specificity <= 1.0 && 0.0 <= m.precision <= 1.0
      && (m.accuracy == 1.0 <==> t.fp == 0 && t.fn == 0)
  {
    var total := t.tp + t.tn + t.fp + t.fn;
    if total == 0 || t.tp + t.fn == 0 || t.tn + t.fp == 0 || t.tp + t.fp == 0 then Err(ZeroDivision)
    else
      Ok(Metrics(Fraction(t.tp + t.tn, total), Fraction(t.tp, t.tp + t.fn),
                 Fraction(t.tn, t.tn + t.fp), Fraction(t.tp, t.tp + t.fp)))
  }

  /**
   * `evaluate` on a fitted tree, as a value: tally every row, then take the
   * ratios. A success has at least one row, and every ratio lies in [0, 1].
   */
  function Evaluation(tree: Tree, rows: seq<Sample>, lab: ClassLabels): (r: Result<Metrics, EvalError>)
    requires Readable(tree)
    ensures r.Ok? ==> rows != []
    ensures r.Ok? ==> var m := r.value;
      && 0.0 <= m.accuracy <= 1.0 && 0.0 <= m.sensitivity <= 1.0
      && 0.0 <= m.specificity <= 1.0 && 0.0 <= m.precision <= 1.0
  {
    match TallyRows(tree, rows, lab)
    case Err(e) => Err(e)
    case Ok(t) => Summarize(t)
  }

  /**
   * `evaluate` succeeds only when every row can be predicted and has a
   * label, and its accuracy is then 1 exactly when every row is predicted
   * as its label.
   */
  lemma EvaluationExact(tree: Tree, rows: seq<Sample>, lab: ClassLabels)
    requires Readable(tree)
    ensures Evaluation(tree, rows, lab).Ok? ==>
      forall i :: 0 <= i < |rows| ==> PredictTree(tree, rows[i]).Ok? && LabelOf(rows[i], lab).Some?
    ensures Evaluation(tree, rows, lab).Ok? ==>
      (Evaluation(tree, rows, lab).value.accuracy == 1.0
       <==> forall i :: 0 <= i < |rows| ==> PredictTree(tree, rows[i]) == Ok(LabelOf(rows[i], lab)))
  {
    TallyOk(tree, rows, lab);
    TallyExact(tree, rows, lab);
  }

  // ------------------------------------------------------------ the tree

  /**
   * Once the right child of a valid node has been fitted in place (it grew
   * only by fresh nodes, nothing else changed) and the node's footprint
   * has been recomputed, the node is valid again and its left child is as
   * it was.
   */
  twostate lemma RightRejoined(node: ClassifierNode)
    requires old(node.Valid()) && old(node.left) != null
    requires node.left == old(node.left) && node.right == old(node.right)
    requires node.featureIndex == old(node.featureIndex)
    requires unchanged(old(node.left)) && unchanged(old(node.left).Repr)
    requires node.right.Valid() && node.right.names == node.names && node.right.labels == node.labels
    requires fresh(node.right.Repr - old(node.right.Repr))
    requires node.Repr == {node} + node.left.Repr + node.right.Repr
    ensures node.Valid() && node.left.Model() == old(node.left.Model())
  {
    ModelFrame(node.left);
    JoinValid(node);
  }

  /**
   * `DTClassifier`: the root node, the column names and label settings its
   * nodes read, the two fit limits, and the shared node-id counter.
   */
  class DTClassifier {
    const root: ClassifierNode
    const names: seq<string>
    const labels: ClassLabels
    const maxDepth: int
    const minSample: int
    const counter: NodeCounter

    /** The root is a well-formed node over the tree's columns, at depth 0. */
    ghost predicate Valid()
      reads this, root, root.Repr
    {
      root.Valid() && root.names == names && root.labels == labels && root.depth == 0
    }

    /** The constructor: the limits and a fresh, unfitted root at depth 0 holding `data`. */
    constructor (data: seq<Row>, names: seq<string>, labels: ClassLabels, maxDepth: int, minSample: int, counter: NodeCounter)
      requires Shaped(data, names, labels)
      modifies counter
      ensures Valid() && fresh(root) && root.Unfitted() && root.data == data && root.depth == 0
      ensures this.names == names && this.labels == labels && this.counter == counter
      ensures this.maxDepth == maxDepth && this.minSample == minSample
    {
      this.names := names;
      this.labels := labels;
      this.maxDepth := maxDepth;
      this.minSample := minSample;
      this.counter := counter;
      root := new ClassifierNode(data, names, labels, counter);
    }

    /**
     * `_split`: calibrate the node, partition its rows and, when both sides
     * are non-empty, hang a fresh right child on `dfA` and then a fresh left
     * child on `dfB`, one level deeper; otherwise make the node a leaf.
     */
    method Split(node: ClassifierNode, ghost cal: seq<Row> --> Calibration)
      requires node.Valid() && node.Unfitted() && node.names == names && node.labels == labels
      requires Chooses(cal, names, labels) && IsBestSplit(cal, names, labels)
      modifies node, counter
      ensures node.Valid() && fresh(node.Repr - {node})
      ensures node.Rule() == cal(node.data).rule && node.gini == cal(node.data).gini
      ensures var s := Partition(node.data, node.Rule());
        if s.dfA != [] && s.dfB != [] then
          && node.left != null && node.right != null
          && node.left.Unfitted() && node.right.Unfitted()
          && node.left.data == s.dfB && node.right.data == s.dfA
          && node.left.depth == node.depth + 1 && node.right.depth == node.depth + 1
          && node.predictedClass == None
        else node.left == null && node.predictedClass == Some(LeafClass(node.data, labels))
    {
      Calibrate(node, cal);
      Grow(node);
    }

    /** The `node._bestSplit()` call of `_split` on a fresh node: the node now holds `cal`'s split. */
    method Calibrate(node: ClassifierNode, ghost cal: seq<Row> --> Calibration)
      requires node.Valid() && node.Unfitted() && node.names == names && node.labels == labels
      requires Chooses(cal, names, labels) && IsBestSplit(cal, names, labels)
      modifies node`featureName, node`featureIndex, node`featureVal, node`gini
      ensures node.Valid() && node.left == null && node.right == null && node.Repr == {node}
      ensures node.predictedClass == None
      ensures node.Rule() == cal(node.data).rule && node.gini == cal(node.data).gini
    {
      node.BestSplit();
      assert BestSplitResult(node.data, names, labels, InitialRule, InitialGini) == cal(node.data);
    }

    /** The rest of `_split`: partition by the stored split and grow two children, or make a leaf. */
    method Grow(node: ClassifierNode)
      requires node.Valid() && node.left == null && node.right == null && node.Repr == {node}
      requires node.predictedClass == None && node.names == names && node.labels == labels
      modifies node, counter
      ensures node.Valid() && fresh(node.Repr - {node})
      ensures node.Rule() == old(node.Rule()) && node.gini == old(node.gini)
      ensures var s := Partition(node.data, node.Rule());
        if s.dfA != [] && s.dfB != [] then
          && node.left != null && node.right != null
          && node.left.Unfitted() && node.right.Unfitted()
          && node.left.data == s.dfB && node.right.data == s.dfA
          && node.left.depth == node.depth + 1 && node.right.depth == node.depth + 1
          && node.predictedClass == None
        else node.left == null && node.predictedClass == Some(LeafClass(node.data, labels))
    {
      var s := Partition(node.data, node.Rule());
      if |s.dfA| > 0 && |s.dfB| > 0 {
        PartitionWellFormed(node.data, names, node.Rule());
        AttachChildren(node, s.dfA, s.dfB);
      } else {
        node.MakeLeaf();
      }
    }

    /** `node.right = ClassifierNode(dfA, depth + 1)` and then `node.left = ClassifierNode(dfB, depth + 1)`. */
    method AttachChildren(node: ClassifierNode, dfA: seq<Row>, dfB: seq<Row>)
      requires node.Valid() && node.left == null && node.right == null && node.Repr == {node}
      requires node.names == names && node.labels == labels
      requires Shaped(dfA, names, labels) && Shaped(dfB, names, labels)
      modifies node`left, node`right, node`Repr, counter
      ensures node.Valid() && fresh(node.Repr - {node})
      ensures node.left != null && node.right != null
      ensures node.left.Unfitted() && node.right.Unfitted()
      ensures node.left.data == dfB && node.right.data == dfA
      ensures node.left.depth == node.depth + 1 && node.right.depth == node.depth + 1
    {
      var r := new ClassifierNode(dfA, names, labels, counter, node.depth + 1);
      var l := new ClassifierNode(dfB, names, labels, counter, node.depth + 1);
      node.right := r;
      node.left := l;
      node.Repr := {node, l, r};
    }

    /**
     * `_fit`: a node that passes `_can_split` and still has a non-zero
     * `gini` is split and its children fitted; any other node becomes a leaf
     * predicting the majority class. The subtree grown is `Build` of the node.
     */
    method FitNode(node: ClassifierNode, ghost cal: seq<Row> --> Calibration, ghost grow: (seq<Row>, nat) -> Tree)
      requires node.Valid() && node.Unfitted() && node.names == names && node.labels == labels
      requires IsBestSplit(cal, names, labels) && Grows(grow, names, labels, cal, maxDepth, minSample)
      modifies node, counter
      ensures node.Valid() && fresh(node.Repr - {node})
      ensures node.Model() == grow(node.data, node.depth)
      decreases Budget(maxDepth, node.depth), 4
    {
      assert grow(node.data, node.depth) == Build(node.data, names, labels, cal, node.depth, maxDepth, minSample);
      if CanSplit(maxDepth, minSample, Some(NodeSize(node.depth, |node.data|))) && node.gini != 0.0 {
        FitSplit(node, cal, grow);
      } else {
        var classA := CountClassNum(node.data, labels, labels.clsX);
        var classB := |node.data| - classA;
        node.predictedClass := Some(if classA > classB then labels.clsX else labels.clsY);
      }
    }

    /** The base `DecisionTree._fit`: `_split(node)`, then `_fit` on each child that exists. */
    method FitSplit(node: ClassifierNode, ghost cal: seq<Row> --> Calibration, ghost grow: (seq<Row>, nat) -> Tree)
      requires node.Valid() && node.Unfitted() && node.names == names && node.labels == labels
      requires IsBestSplit(cal, names, labels) && Grows(grow, names, labels, cal, maxDepth, minSample)
      requires NodeCanSplit(maxDepth, minSample, node.depth, node.data)
      modifies node, counter
      ensures node.Valid() && fresh(node.Repr - {node})
      ensures node.Model() == SplitTree(node.data, names, labels, cal, node.depth, maxDepth, minSample)
      decreases Budget(maxDepth, node.depth), 3
    {
      Split(node, cal);
      FitSplitChildren(node, cal, grow);
    }

    /** The rest of the base `_fit` once `_split` has run: `_fit` on each child that exists. */
    method FitSplitChildren(node: ClassifierNode, ghost cal: seq<Row> --> Calibration, ghost grow: (seq<Row>, nat) -> Tree)
      requires node.Valid() && node.names == names && node.labels == labels
      requires IsBestSplit(cal, names, labels) && Grows(grow, names, labels, cal, maxDepth, minSample)
      requires NodeCanSplit(maxDepth, minSample, node.depth, node.data)
      requires node.Rule() == cal(node.data).rule && node.gini == cal(node.data).gini
      requires var s := Partition(node.data, node.Rule());
        if s.dfA != [] && s.dfB != [] then
          && node.left != null && node.right != null
          && node.left.Unfitted() && node.right.Unfitted()
          && node.left.data == s.dfB && node.right.data == s.dfA
          && node.left.depth == node.depth + 1 && node.right.depth == node.depth + 1
          && node.predictedClass == None
        else node.left == null && node.predictedClass == Some(LeafClass(node.data, labels))
      modifies node`Repr, node.left, node.right, counter
      ensures node.Valid() && fresh(node.Repr - old(node.Repr))
      ensures node.Model() == SplitTree(node.data, names, labels, cal, node.depth, maxDepth, minSample)
      decreases Budget(maxDepth, node.depth), 2
    {
      ghost var c := cal(node.data);
      ghost var s := Partition(node.data, c.rule);
      PartitionWellFormed(node.data, names, c.rule);
      BuildSplits(node.data, names, labels, cal, node.depth, maxDepth, minSample, c, s);
      if node.left != null {
        FitChildren(node, cal, grow);
      }
    }

    /** `_fit(node.left)` and then `_fit(node.right)` on the two fresh children of a split node. */
    method FitChildren(node: ClassifierNode, ghost cal: seq<Row> --> Calibration, ghost grow: (seq<Row>, nat) -> Tree)
      requires node.Valid() && node.names == names && node.labels == labels && node.depth < maxDepth
      requires node.left != null && node.left.Unfitted() && node.right.Unfitted()
      requires node.left.depth == node.depth + 1 && node.right.depth == node.depth + 1
      requires IsBestSplit(cal, names, labels) && Grows(grow, names, labels, cal, maxDepth, minSample)
      modifies node`Repr, node.left, node.right, counter
      ensures node.Valid() && fresh(node.Repr - old(node.Repr))
      ensures node.left == old(node.left) && node.right == old(node.right)
      ensures node.left.Model() == grow(node.left.data, node.depth + 1)
      ensures node.right.Model() == grow(node.right.data, node.depth + 1)
      decreases Budget(maxDepth, node.depth), 1
    {
      FitLeft(node, cal, grow);
      FitRight(node, cal, grow);
    }

    /** `_fit(node.left)`, while the right child is still fresh. */
    method FitLeft(node: ClassifierNode, ghost cal: seq<Row> --> Calibration, ghost grow: (seq<Row>, nat) -> Tree)
      requires node.Valid() && node.names == names && node.labels == labels && node.depth < maxDepth
      requires node.left != null && node.left.Unfitted() && node.right.Unfitted()
      requires node.left.depth == node.depth + 1
      requires IsBestSplit(cal, names, labels) && Grows(grow, names, labels, cal, maxDepth, minSample)
      modifies node`Repr, node.left, counter
      ensures node.Valid() && fresh(node.Repr - old(node.Repr))
      ensures node.left == old(node.left) && node.right == old(node.right) && node.right.Unfitted()
      ensures node.left.Model() == grow(node.left.data, node.depth + 1)
      decreases Budget(maxDepth, node.depth), 0
    {
      var l := node.left;
      FitNode(l, cal, grow);
      assert node.right !in l.Repr && node !in l.Repr;
      node.Repr := {node} + l.Repr + node.right.Repr;
      JoinValid(node);
    }

    /** `_fit(node.right)`, once the left child is fitted. */
    method FitRight(node: ClassifierNode, ghost cal: seq<Row> --> Calibration, ghost grow: (seq<Row>, nat) -> Tree)
      requires node.Valid() && node.names == names && node.labels == labels && node.depth < maxDepth
      requires node.left != null && node.right.Unfitted()
      requires node.right.depth == node.depth + 1
      requires IsBestSplit(cal, names, labels) && Grows(grow, names, labels, cal, maxDepth, minSample)
      modifies node`Repr, node.right, counter
      ensures node.Valid() && fresh(node.Repr - old(node.Repr))
      ensures node.left == old(node.left) && node.right == old(node.right)
      ensures node.left.Model() == old(node.left.Model())
      ensures node.right.Model() == grow(node.right.data, node.depth + 1)
      decreases Budget(maxDepth, node.depth), 0
    {
      FitNode(node.right, cal, grow);
      node.Repr := {node} + node.left.Repr + node.right.Repr;
      RightRejoined(node);
    }

    /** `fit`: grow the tree from the root, calibrating every node with `_bestSplit`. */
    method Fit()
      requires Valid() && root.Unfitted()
      modifies root, counter
      ensures Valid() && fresh(root.Repr - {root})
      ensures root.Model() == FittedTree(root.data, names, labels, maxDepth, minSample)
    {
      FitCalibratorChooses(names, labels);
      ghost var cal := FitCalibrator(names, labels);
      FitNode(root, cal, Grower(names, labels, cal, maxDepth, minSample));
    }

    /**
     * `_predict` from `node`: a node without children returns its
     * `predictedClass`; any other node routes the sample to a child.
     */
    function PredictAt(node: ClassifierNode, samp: Sample): (r: Result<Option<Label>, PredictError>)
      reads node, node.Repr
      requires node.Valid()
      ensures r == PredictTree(node.Model(), samp)
      decreases node.Repr
    {
      if node.right == null && node.left == null then Ok(node.predictedClass)
      else
        match Route(node.data, node.Rule(), samp)
        case Err(e) => Err(e)
        case Ok(Left) => PredictAt(node.left, samp)
        case Ok(Right) => PredictAt(node.right, samp)
    }

    /** `predict`: `_predict` from the root. */
    function Predict(samp: Sample): (r: Result<Option<Label>, PredictError>)
      reads this, root, root.Repr
      requires Valid()
      ensures r == PredictTree(root.Model(), samp)
    {
      PredictAt(root, samp)
    }

    /**
     * The counting loop of `evaluate`: predict every test row in order and
     * count it as TP, TN, FP or FN; a failing prediction or a missing label
     * ends it with that error.
     */
    method CountTest(test: seq<Sample>) returns (r: Result<Tally, EvalError>)
      requires Valid()
      ensures r == TallyRows(root.Model(), test, labels)
    {
      var tp, tn, fp, fn := 0, 0, 0, 0;
      var i := 0;
      while i < |test|
        invariant 0 <= i <= |test|
        invariant TallyRows(root.Model(), test[..i], labels) == Ok(Tally(tp, tn, fp, fn))
      {
        var s := test[i];
        ghost var before := Tally(tp, tn, fp, fn);
        TallyStep(root.Model(), test, i, labels, before);
        var predicted := Predict(s);
        if predicted.Err? {
          TallyErrSticks(root.Model(), test, i + 1, labels);
          return Err(PredictFailed(predicted.error));
        }
        assert predicted == PredictTree(root.Model(), s);
        var actual := LabelOf(s, labels);
        if actual.None? {
          TallyErrSticks(root.Model(), test, i + 1, labels);
          return Err(LabelFailure(s, labels));
        }
        if predicted.value == Some(actual.value) {
          if predicted.value == Some(labels.clsX) {
            tp := tp + 1;
          } else {
            tn := tn + 1;
          }
        } else {
          if predicted.value == Some(labels.clsX) {
            fp := fp + 1;
          } else {
            fn := fn + 1;
          }
        }
        assert Tally(tp, tn, fp, fn) == Count(before, actual.value, predicted.value, labels.clsX);
        assert CountRow(root.Model(), before, s, labels) == Ok(Tally(tp, tn, fp, fn));
        assert TallyRows(root.Model(), test[..i + 1], labels) == Ok(Tally(tp, tn, fp, fn));
        i := i + 1;
      }
      assert test[..i] == test;
      r := Ok(Tally(tp, tn, fp, fn));
    }

    /**
     * `evaluate`: count the test rows, then take the four ratios, each
     * division raising on a zero denominator.
     */
    method Evaluate(test: seq<Sample>) returns (r: Result<Metrics, EvalError>)
      requires Valid()
      ensures r == Evaluation(root.Model(), test, labels)
    {
      var counted := CountTest(test);
      if counted.Err? {
        return Err(counted.error);
      }
      var Tally(tp, tn, fp, fn) := counted.value;
      if tp + tn + fp + fn == 0 || tp + fn == 0 || tn + fp == 0 || tp + fp == 0 {
        return Err(ZeroDivision);
      }
      var accuracy := (tp + tn) as real / (tp + tn + fp + fn) as real;
      var sensitivity := tp as real / (tp + fn) as real;
      var specificity := tn as real / (tn + fp) as real;
      var precision := tp as real / (tp + fp) as real;
      r := Ok(Metrics(accuracy, sensitivity, specificity, precision));
    }
  }
}
