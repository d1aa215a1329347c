/**
 * The regression tree (`DTRegressor` in regressor.py, built on the shared
 * `DecisionTree` logic of _abstract.py): the recursive fit that calibrates,
 * partitions and grows nodes while `_can_split` allows, and prediction by
 * walking a sample down to a leaf's mean. `Build` is the fitted tree as a
 * value; the `DTRegressor` class grows the same tree in place and is proved
 * to produce it.
 */
module DTRegressor {
  import opened Wrappers
  import opened Score
  import opened Table
  import opened DecisionNode
  import opened DecisionTree
  import opened RegressionNode

  // ------------------------------------------------------------- fitting

  /**
   * What `_bestSplit` leaves in a fresh node: the stored column exists, and
   * either an examined column won (its name is stored and the SSR is not
   * negative) or none did and the node keeps the default descriptor and
   * `ssr = 0`.
   */
  ghost predicate SplitChosen(rule: SplitRule, ssr: real, names: seq<string>, lab: NumericLabel) {
    var fi := rule.featureIndex;
    && fi < |names|
    && ((Eligible(names, lab.labelName, fi) && rule.featureName == names[fi] && 0.0 <= ssr)
        || (rule == InitialRule && ssr == InitialSsr))
  }

  /**
   * A calibration of fresh nodes: defined on every node that fits the
   * column names, and choosing its split as `_bestSplit` does.
   */
  ghost predicate Chooses(cal: seq<Row> --> Calibration, names: seq<string>, lab: NumericLabel) {
    && (forall d :: Shaped(d, names, lab) ==> cal.requires(d))
    && (forall d {:trigger cal(d)} :: Shaped(d, names, lab) ==> SplitChosen(cal(d).rule, cal(d).ssr, names, lab))
  }

  /** `_bestSplit` run on a fresh node holding `d`. */
  ghost function FitCalibrator(names: seq<string>, lab: NumericLabel): seq<Row> --> Calibration {
    d requires Shaped(d, names, lab) => BestSplitResult(d, names, lab, InitialRule, InitialSsr)
  }

  /** `cal` agrees with `_bestSplit` on every node that fits the column names. */
  ghost predicate IsBestSplit(cal: seq<Row> --> Calibration, names: seq<string>, lab: NumericLabel) {
    forall d {:trigger BestSplitResult(d, names, lab, InitialRule, InitialSsr)} :: Shaped(d, names, lab) ==>
      cal.requires(d) && cal(d) == BestSplitResult(d, names, lab, InitialRule, InitialSsr)
  }

  /** `_bestSplit` on a fresh node picks an examined column or none. */
  lemma FitCalibratorChooses(names: seq<string>, lab: NumericLabel)
    ensures Chooses(FitCalibrator(names, lab), names, lab)
    ensures IsBestSplit(FitCalibrator(names, lab), names, lab)
  {
    forall d | Shaped(d, names, lab)
      ensures SplitChosen(BestSplitResult(d, names, lab, InitialRule, InitialSsr).rule, BestSplitResult(d, names, lab, InitialRule, InitialSsr).ssr, names, lab)
    {
      BestSplitChoosesColumn(d, names, lab, InitialRule, InitialSsr);
    }
  }

  /**
   * `grow` stands for `Build` with `cal` and the tree's bounds: for every
   * well-formed node data and depth it yields the tree `Build` grows. (The
   * methods that fit a tree are specified through `grow`, so that their
   * proofs unfold `Build` only where they name it.)
   */
  ghost predicate Grows(grow: (seq<Row>, nat) -> Tree, names: seq<string>, lab: NumericLabel,
                        cal: seq<Row> --> Calibration, maxDepth: int, minSample: int)
  {
    && Chooses(cal, names, lab)
    && forall d, depth {:trigger Build(d, names, lab, cal, depth, maxDepth, minSample)} ::
         Shaped(d, names, lab) ==> grow(d, depth) == Build(d, names, lab, cal, depth, maxDepth, minSample)
  }

  /** `Build` with `cal` and the bounds fixed, made total by an empty leaf for data `Build` does not accept. */
  ghost function Grower(names: seq<string>, lab: NumericLabel, cal: seq<Row> --> Calibration, maxDepth: int, minSample: int)
    : (seq<Row>, nat) -> Tree
  {
    (d: seq<Row>, depth: nat) =>
      if Shaped(d, names, lab) && Chooses(cal, names, lab) then Build(d, names, lab, cal, depth, maxDepth, minSample)
      else Leaf(NodeInfo(d, depth, InitialRule, InitialSsr, None))
  }

  /**
   * The tree `DTRegressor._fit` grows from a fresh node holding `data` at
   * `depth`, with `cal` calibrating each node (the fit uses
   * `FitCalibrator`). A node that passes `_can_split` is grown as
   * `SplitTree` says; any other node stays a fresh leaf predicting its mean.
   */
  function Build(data: seq<Row>, names: seq<string>, lab: NumericLabel, cal: seq<Row> --> Calibration,
                 depth: nat, maxDepth: int, minSample: int): (t: Tree)
    requires Shaped(data, names, lab) && Chooses(cal, names, lab)
    ensures t.info.data == data && t.info.depth == depth && Readable(t)
    decreases Budget(maxDepth, depth), 1
  {
    if NodeCanSplit(maxDepth, minSample, depth, data) then SplitTree(data, names, lab, cal, depth, maxDepth, minSample)
    else Leaf(NodeInfo(data, depth, InitialRule, InitialSsr, MeanLabel(data, lab)))
  }

  /**
   * The base `DecisionTree._fit` on a node that may be split: `_split`
   * calibrates and partitions it; the node gets children `left = dfB` and
   * `right = dfA`, each grown by `Build` one level deeper, when both sides
   * are non-empty, and otherwise stays a leaf with its calibrated fields.
   */
  function SplitTree(data: seq<Row>, names: seq<string>, lab: NumericLabel, cal: seq<Row> --> Calibration,
                     depth: nat, maxDepth: int, minSample: int): (t: Tree)
    requires Shaped(data, names, lab) && Chooses(cal, names, lab)
    requires NodeCanSplit(maxDepth, minSample, depth, data)
    ensures t.info.data == data && t.info.depth == depth && Readable(t)
    decreases Budget(maxDepth, depth), 0
  {
    var c := cal(data);
    var s := Partition(data, c.rule);
    var info := NodeInfo(data, depth, c.rule, c.ssr, MeanLabel(data, lab));
    if |s.dfA| > 0 && |s.dfB| > 0 then
      PartitionWellFormed(data, names, c.rule);
      Internal(info, Build(s.dfB, names, lab, cal, depth + 1, maxDepth, minSample),
                     Build(s.dfA, names, lab, cal, depth + 1, maxDepth, minSample))
    else Leaf(info)
  }

  /** The tree `fit` grows from a fresh root holding `data`: `Build` from depth 0 with `_bestSplit` calibrating every node. */
  ghost function FittedTree(data: seq<Row>, names: seq<string>, lab: NumericLabel, maxDepth: int, minSample: int): Tree
    requires Shaped(data, names, lab)
  {
    FitCalibratorChooses(names, lab);
    Build(data, names, lab, FitCalibrator(names, lab), 0, maxDepth, minSample)
  }

  /** `SplitTree` on a node: calibrate, partition, then split or stay a leaf. */
  lemma BuildSplits(data: seq<Row>, names: seq<string>, lab: NumericLabel, cal: seq<Row> --> Calibration,
      depth: nat, maxDepth: int, minSample: int, c: Calibration, s: Sides)
    requires Shaped(data, names, lab) && Chooses(cal, names, lab)
    requires NodeCanSplit(maxDepth, minSample, depth, data)
    requires c == cal(data) && s == Partition(data, c.rule)
    requires Shaped(s.dfA, names, lab) && Shaped(s.dfB, names, lab)
    ensures SplitTree(data, names, lab, cal, depth, maxDepth, minSample)
      == if s.dfA != [] && s.dfB != [] then
           Internal(NodeInfo(data, depth, c.rule, c.ssr, MeanLabel(data, lab)),
                    Build(s.dfB, names, lab, cal, depth + 1, maxDepth, minSample),
                    Build(s.dfA, names, lab, cal, depth + 1, maxDepth, minSample))
         else Leaf(NodeInfo(data, depth, c.rule, c.ssr, MeanLabel(data, lab)))
  {
  }

  /** The fitted tree splits every internal node's rows between its two children. */
  lemma {:induction false} BuildSplitsPartition(data: seq<Row>, names: seq<string>, lab: NumericLabel, cal: seq<Row> --> Calibration,
      depth: nat, maxDepth: int, minSample: int)
    requires Shaped(data, names, lab) && Chooses(cal, names, lab)
    ensures SplitsPartition(Build(data, names, lab, cal, depth, maxDepth, minSample), maxDepth, minSample)
    decreases Budget(maxDepth, depth)
  {
    if NodeCanSplit(maxDepth, minSample, depth, data) {
      var c := cal(data);
      var s := Partition(data, c.rule);
      PartitionWellFormed(data, names, c.rule);
      PartitionSides(data, c.rule);
      assert Build(data, names, lab, cal, depth, maxDepth, minSample) == SplitTree(data, names, lab, cal, depth, maxDepth, minSample);
      if s.dfA != [] && s.dfB != [] {
        BuildSplitsPartition(s.dfB, names, lab, cal, depth + 1, maxDepth, minSample);
        BuildSplitsPartition(s.dfA, names, lab, cal, depth + 1, maxDepth, minSample);
      }
    }
  }

  /**
   * `maxDepth` bounds the fitted tree: grown from `depth`, it is at most
   * `maxDepth - depth` splits high, and grown from a depth within `maxDepth`
   * no node of it is deeper than `maxDepth`. Every child holds strictly
   * fewer rows than its parent.
   */
  lemma BuildHeight(data: seq<Row>, names: seq<string>, lab: NumericLabel, cal: seq<Row> --> Calibration,
      depth: nat, maxDepth: int, minSample: int)
    requires Shaped(data, names, lab) && Chooses(cal, names, lab)
    ensures Height(Build(data, names, lab, cal, depth, maxDepth, minSample)) <= Budget(maxDepth, depth)
    ensures depth <= maxDepth ==> DepthsWithin(Build(data, names, lab, cal, depth, maxDepth, minSample), maxDepth)
    ensures ChildrenShrink(Build(data, names, lab, cal, depth, maxDepth, minSample))
  {
    var t := Build(data, names, lab, cal, depth, maxDepth, minSample);
    BuildSplitsPartition(data, names, lab, cal, depth, maxDepth, minSample);
    SplitsBoundHeight(t, maxDepth, minSample);
    SplitsShrink(t, maxDepth, minSample);
    if depth <= maxDepth {
      SplitsKeepDepth(t, maxDepth, minSample);
    }
  }

  /** Every node, internal or leaf, predicts the mean label of its own rows. */
  ghost predicate MeansStored(t: Tree, lab: NumericLabel) {
    && (forall r :: r in t.info.data ==> lab.labelIndex < |r|)
    && t.info.prediction == MeanLabel(t.info.data, lab)
    && (t.Internal? ==> MeansStored(t.left, lab) && MeansStored(t.right, lab))
  }

  lemma {:induction false} BuildMeansStored(data: seq<Row>, names: seq<string>, lab: NumericLabel, cal: seq<Row> --> Calibration,
      depth: nat, maxDepth: int, minSample: int)
    requires Shaped(data, names, lab) && Chooses(cal, names, lab)
    ensures MeansStored(Build(data, names, lab, cal, depth, maxDepth, minSample), lab)
    decreases Budget(maxDepth, depth)
  {
    if NodeCanSplit(maxDepth, minSample, depth, data) {
      var c := cal(data);
      var s := Partition(data, c.rule);
      PartitionWellFormed(data, names, c.rule);
      assert Build(data, names, lab, cal, depth, maxDepth, minSample) == SplitTree(data, names, lab, cal, depth, maxDepth, minSample);
      if s.dfA != [] && s.dfB != [] {
        BuildMeansStored(s.dfB, names, lab, cal, depth + 1, maxDepth, minSample);
        BuildMeansStored(s.dfA, names, lab, cal, depth + 1, maxDepth, minSample);
      }
    }
  }

  /**
   * What `_bestSplit` left in each internal node: either a column won, and
   * the node names an examined column with an SSR that is not negative; or
   * none did, and the node keeps the default descriptor and `ssr = 0`.
   */
  ghost predicate CalibratedSplits(t: Tree, names: seq<string>, lab: NumericLabel) {
    match t
    case Leaf(_) => true
    case Internal(info, l, r) =>
      && SplitChosen(info.rule, info.impurity, names, lab)
      && CalibratedSplits(l, names, lab) && CalibratedSplits(r, names, lab)
  }

  lemma {:induction false} BuildCalibratedSplits(data: seq<Row>, names: seq<string>, lab: NumericLabel, cal: seq<Row> --> Calibration,
      depth: nat, maxDepth: int, minSample: int)
    requires Shaped(data, names, lab) && Chooses(cal, names, lab)
    ensures CalibratedSplits(Build(data, names, lab, cal, depth, maxDepth, minSample), names, lab)
    decreases Budget(maxDepth, depth)
  {
    if NodeCanSplit(maxDepth, minSample, depth, data) {
      var c := cal(data);
      var s := Partition(data, c.rule);
      PartitionWellFormed(data, names, c.rule);
      assert Build(data, names, lab, cal, depth, maxDepth, minSample) == SplitTree(data, names, lab, cal, depth, maxDepth, minSample);
      if s.dfA != [] && s.dfB != [] {
        BuildCalibratedSplits(s.dfB, names, lab, cal, depth + 1, maxDepth, minSample);
        BuildCalibratedSplits(s.dfA, names, lab, cal, depth + 1, maxDepth, minSample);
      }
    }
  }

  // ------------------------------------------------------------ prediction

  /** No internal node kept the default descriptor: every split found a winning column. */
  ghost predicate NoFallbackSplit(t: Tree) {
    match t
    case Leaf(_) => true
    case Internal(info, l, r) => info.rule != InitialRule && NoFallbackSplit(l) && NoFallbackSplit(r)
  }

  /** With distinct column names, a tree in which every split found a winning column is routable. */
  lemma {:induction false} CalibratedRoutable(t: Tree, names: seq<string>, lab: NumericLabel)
    requires Readable(t) && CalibratedSplits(t, names, lab) && DistinctNames(names)
    requires NoFallbackSplit(t)
    ensures Routable(t, names)
  {
    CalibratedNamed(t, names, lab);
    NamedSplitsRoutable(t, names);
  }

  /** A split that found a winner stores the winner's name, so no fallback split means every split names its column. */
  lemma {:induction false} CalibratedNamed(t: Tree, names: seq<string>, lab: NumericLabel)
    requires CalibratedSplits(t, names, lab) && NoFallbackSplit(t)
    ensures NamedSplits(t, names)
  {
    if t.Internal? {
      CalibratedNamed(t.left, names, lab);
      CalibratedNamed(t.right, names, lab);
    }
  }

  /** The leaf a row ends up in predicts the mean of that leaf's rows when every node does. */
  lemma {:induction false} LeafOfMean(t: Tree, lab: NumericLabel, row: Row)
    requires MeansStored(t, lab)
    ensures MeansStored(LeafOf(t, row), lab)
  {
    if t.Internal? {
      LeafOfMean(t.left, lab, row);
      LeafOfMean(t.right, lab, row);
    }
  }

  /**
   * A training row of the fitted tree, presented with the training column
   * names, is predicted as the mean label of the leaf that holds it, a value
   * between the smallest and the largest label of that leaf, as long as
   * every internal node can route its rows.
   */
  lemma PredictTrainingRowMean(t: Tree, names: seq<string>, lab: NumericLabel, maxDepth: int, minSample: int, row: Row)
    requires Readable(t) && SplitsPartition(t, maxDepth, minSample) && Routable(t, names) && MeansStored(t, lab)
    requires forall r :: r in t.info.data ==> |r| == |names|
    requires 0 < |names| && t.info.rule.featureIndex < |names|
    requires row in t.info.data
    ensures var leaf := LeafOf(t, row).info.data;
      && row in leaf
      && (forall r :: r in leaf ==> lab.labelIndex < |r|)
      && PredictTree(t, Sample(names, row)) == Ok(Some(Mean(Column(leaf, lab.labelIndex))))
      && (exists r :: r in leaf && r[lab.labelIndex] <= Mean(Column(leaf, lab.labelIndex)))
      && (exists r :: r in leaf && Mean(Column(leaf, lab.labelIndex)) <= r[lab.labelIndex])
  {
    PredictTrainingRow(t, names, maxDepth, minSample, row);
    LeafOfMean(t, lab, row);
    MeanLabelRange(LeafOf(t, row).info.data, lab);
  }

  /** A prediction of a node holding `data`: some number between the smallest and the largest label, unless there are no rows. */
  ghost predicate WithinLabels(p: Option<real>, data: seq<Row>, lab: NumericLabel)
    requires forall r :: r in data ==> lab.labelIndex < |r|
  {
    data != [] ==>
      && p.Some?
      && (exists r :: r in data && r[lab.labelIndex] <= p.value)
      && (exists r :: r in data && p.value <= r[lab.labelIndex])
  }

  /** Every leaf of a split tree that stores means predicts a number within the labels of the root's rows. */
  lemma {:induction false} LeafMeansWithin(t: Tree, lab: NumericLabel, maxDepth: int, minSample: int)
    requires Readable(t) && SplitsPartition(t, maxDepth, minSample) && MeansStored(t, lab)
    ensures forall p :: p in LeafPredictions(t) ==> WithinLabels(p, t.info.data, lab)
  {
    if t.Leaf? {
      if t.info.data != [] {
        MeanLabelRange(t.info.data, lab);
      }
    } else {
      LeafMeansWithin(t.left, lab, maxDepth, minSample);
      LeafMeansWithin(t.right, lab, maxDepth, minSample);
      forall p | p in LeafPredictions(t) ensures WithinLabels(p, t.info.data, lab) {
        var child := if p in LeafPredictions(t.left) then t.left else t.right;
        assert p in LeafPredictions(child) && WithinLabels(p, child.info.data, lab);
        ChildRowsFromParent(t, child, maxDepth, minSample);
      }
    }
  }

  /**
   * `predict` on a fitted regressor: a sample that gets a prediction gets a
   * number between the smallest and the largest training label, whatever
   * the sample holds, unless the tree was fitted on no rows.
   */
  lemma PredictWithinTrainingLabels(data: seq<Row>, names: seq<string>, lab: NumericLabel, maxDepth: int, minSample: int, samp: Sample)
    requires Shaped(data, names, lab)
    ensures var r := PredictTree(FittedTree(data, names, lab, maxDepth, minSample), samp);
      r.Ok? && data != [] ==>
        && r.value.Some?
        && (exists row :: row in data && row[lab.labelIndex] <= r.value.value)
        && (exists row :: row in data && r.value.value <= row[lab.labelIndex])
  {
    FitCalibratorChooses(names, lab);
    var cal := FitCalibrator(names, lab);
    var t := Build(data, names, lab, cal, 0, maxDepth, minSample);
    BuildSplitsPartition(data, names, lab, cal, 0, maxDepth, minSample);
    BuildMeansStored(data, names, lab, cal, 0, maxDepth, minSample);
    LeafMeansWithin(t, lab, maxDepth, minSample);
  }

  // ------------------------------------------------------------ the tree

  /**
   * Once the right child of a valid node has been fitted in place (it grew
   * only by fresh nodes, nothing else changed) and the node's footprint
   * has been recomputed, the node is valid again and its left child is as
   * it was.
   */
  twostate lemma RightRejoined(node: RegressionNode)
    requires old(node.Valid()) && old(node.left) != null
    requires node.left == old(node.left) && node.right == old(node.right)
    requires node.featureIndex == old(node.featureIndex)
    requires unchanged(old(node.left)) && unchanged(old(node.left).Repr)
    requires node.right.Valid() && node.right.names == node.names && node.right.labels == node.labels
    requires fresh(node.right.Repr - old(node.right.Repr))
    requires node.Repr == {node} + node.left.Repr + node.right.Repr
    ensures node.Valid() && node.left.Model() == old(node.left.Model())
  {
    ModelFrame(node.left);
    JoinValid(node);
  }

  /**
   * `DTRegressor`: the root node, the column names and label settings its
   * nodes read, the two fit limits, and the shared node-id counter.
   */
  class DTRegressor {
    const root: RegressionNode
    const names: seq<string>
    const labels: NumericLabel
    const maxDepth: int
    const minSample: int
    const counter: NodeCounter

    /** The root is a well-formed node over the tree's columns, at depth 0. */
    ghost predicate Valid()
      reads this, root, root.Repr
    {
      root.Valid() && root.names == names && root.labels == labels && root.depth == 0
    }

    /** The constructor: the limits and a fresh, unfitted root at depth 0 holding `data`. */
    constructor (data: seq<Row>, names: seq<string>, labels: NumericLabel, maxDepth: int, minSample: int, counter: NodeCounter)
      requires Shaped(data, names, labels)
      modifies counter
      ensures Valid() && fresh(root) && root.Unfitted() && root.data == data && root.depth == 0
      ensures this.names == names && this.labels == labels && this.counter == counter
      ensures this.maxDepth == maxDepth && this.minSample == minSample
    {
      this.names := names;
      this.labels := labels;
      this.maxDepth := maxDepth;
      this.minSample := minSample;
      this.counter := counter;
      root := new RegressionNode(data, names, labels, counter);
    }

    /**
     * `_split`: calibrate the node, partition its rows and, when both sides
     * are non-empty, hang a fresh right child on `dfA` and then a fresh left
     * child on `dfB`, one level deeper; otherwise leave the node childless.
     */
    method Split(node: RegressionNode, ghost cal: seq<Row> --> Calibration)
      requires node.Valid() && node.Unfitted() && node.names == names && node.labels == labels
      requires Chooses(cal, names, labels) && IsBestSplit(cal, names, labels)
      modifies node, counter
      ensures node.Valid() && fresh(node.Repr - {node})
      ensures node.Rule() == cal(node.data).rule && node.ssr == cal(node.data).ssr
      ensures var s := Partition(node.data, node.Rule());
        if s.dfA != [] && s.dfB != [] then
          && node.left != null && node.right != null
          && node.left.Unfitted() && node.right.Unfitted()
          && node.left.data == s.dfB && node.right.data == s.dfA
          && node.left.depth == node.depth + 1 && node.right.depth == node.depth + 1
        else node.left == null
    {
      Calibrate(node, cal);
      Grow(node);
    }

    /** The `node._bestSplit()` call of `_split` on a fresh node: the node now holds `cal`'s split. */
    method Calibrate(node: RegressionNode, ghost cal: seq<Row> --> Calibration)
      requires node.Valid() && node.Unfitted() && node.names == names && node.labels == labels
      requires Chooses(cal, names, labels) && IsBestSplit(cal, names, labels)
      modifies node`featureName, node`featureIndex, node`featureVal, node`ssr
      ensures node.Valid() && node.left == null && node.right == null && node.Repr == {node}
      ensures node.Rule() == cal(node.data).rule && node.ssr == cal(node.data).ssr
    {
      node.BestSplit();
      assert BestSplitResult(node.data, names, labels, InitialRule, InitialSsr) == cal(node.data);
    }

    /** The rest of `_split`: partition by the stored split and grow two children when both sides have rows. */
    method Grow(node: RegressionNode)
      requires node.Valid() && node.left == null && node.right == null && node.Repr == {node}
      requires node.names == names && node.labels == labels
      modifies node, counter
      ensures node.Valid() && fresh(node.Repr - {node})
      ensures node.Rule() == old(node.Rule()) && node.ssr == old(node.ssr)
      ensures var s := Partition(node.data, node.Rule());
        if s.dfA != [] && s.dfB != [] then
          && node.left != null && node.right != null
          && node.left.Unfitted() && node.right.Unfitted()
          && node.left.data == s.dfB && node.right.data == s.dfA
          && node.left.depth == node.depth + 1 && node.right.depth == node.depth + 1
        else node.left == null
    {
      var s := Partition(node.data, node.Rule());
      if |s.dfA| > 0 && |s.dfB| > 0 {
        PartitionWellFormed(node.data, names, node.Rule());
        AttachChildren(node, s.dfA, s.dfB);
      }
    }

    /** `node.right = RegressionNode(dfA, depth + 1)` and then `node.left = RegressionNode(dfB, depth + 1)`. */
    method AttachChildren(node: RegressionNode, dfA: seq<Row>, dfB: seq<Row>)
      requires node.Valid() && node.left == null && node.right == null && node.Repr == {node}
      requires node.names == names && node.labels == labels
      requires Shaped(dfA, names, labels) && Shaped(dfB, names, labels)
      modifies node`left, node`right, node`Repr, counter
      ensures node.Valid() && fresh(node.Repr - {node})
      ensures node.left != null && node.right != null
      ensures node.left.Unfitted() && node.right.Unfitted()
      ensures node.left.data == dfB && node.right.data == dfA
      ensures node.left.depth == node.depth + 1 && node.right.depth == node.depth + 1
    {
      var r := new RegressionNode(dfA, names, labels, counter, node.depth + 1);
      var l := new RegressionNode(dfB, names, labels, counter, node.depth + 1);
      node.right := r;
      node.left := l;
      node.Repr := {node, l, r};
    }

    /**
     * `_fit`: a node that passes `_can_split` is split and its children
     * fitted; any other node is left as it is. The subtree grown is `Build`
     * of the node.
     */
    method FitNode(node: RegressionNode, ghost cal: seq<Row> --> Calibration, ghost grow: (seq<Row>, nat) -> Tree)
      requires node.Valid() && node.Unfitted() && node.names == names && node.labels == labels
      requires IsBestSplit(cal, names, labels) && Grows(grow, names, labels, cal, maxDepth, minSample)
      modifies node, counter
      ensures node.Valid() && fresh(node.Repr - {node})
      ensures node.Model() == grow(node.data, node.depth)
      decreases Budget(maxDepth, node.depth), 4
    {
      assert grow(node.data, node.depth) == Build(node.data, names, labels, cal, node.depth, maxDepth, minSample);
      if CanSplit(maxDepth, minSample, Some(NodeSize(node.depth, |node.data|))) {
        FitSplit(node, cal, grow);
      }
    }

    /** The base `DecisionTree._fit`: `_split(node)`, then `_fit` on each child that exists. */
    method FitSplit(node: RegressionNode, ghost cal: seq<Row> --> Calibration, ghost grow: (seq<Row>, nat) -> Tree)
      requires node.Valid() && node.Unfitted() && node.names == names && node.labels == labels
      requires IsBestSplit(cal, names, labels) && Grows(grow, names, labels, cal, maxDepth, minSample)
      requires NodeCanSplit(maxDepth, minSample, node.depth, node.data)
      modifies node, counter
      ensures node.Valid() && fresh(node.Repr - {node})
      ensures node.Model() == SplitTree(node.data, names, labels, cal, node.depth, maxDepth, minSample)
      decreases Budget(maxDepth, node.depth), 3
    {
      Split(node, cal);
      FitSplitChildren(node, cal, grow);
    }

    /** The rest of the base `_fit` once `_split` has run: `_fit` on each child that exists. */
    method FitSplitChildren(node: RegressionNode, ghost cal: seq<Row> --> Calibration, ghost grow: (seq<Row>, nat) -> Tree)
      requires node.Valid() && node.names == names && node.labels == labels
      requires IsBestSplit(cal, names, labels) && Grows(grow, names, labels, cal, maxDepth, minSample)
      requires NodeCanSplit(maxDepth, minSample, node.depth, node.data)
      requires node.Rule() == cal(node.data).rule && node.ssr == cal(node.data).ssr
      requires var s := Partition(node.data, node.Rule());
        if s.dfA != [] && s.dfB != [] then
          && node.left != null && node.right != null
          && node.left.Unfitted() && node.right.Unfitted()
          && node.left.data == s.dfB && node.right.data == s.dfA
          && node.left.depth == node.depth + 1 && node.right.depth == node.depth + 1
        else node.left == null
      modifies node`Repr, node.left, node.right, counter
      ensures node.Valid() && fresh(node.Repr - old(node.Repr))
      ensures node.Model() == SplitTree(node.data, names, labels, cal, node.depth, maxDepth, minSample)
      decreases Budget(maxDepth, node.depth), 2
    {
      ghost var c := cal(node.data);
      ghost var s := Partition(node.data, c.rule);
      PartitionWellFormed(node.data, names, c.rule);
      BuildSplits(node.data, names, labels, cal, node.depth, maxDepth, minSample, c, s);
      if node.left != null {
        FitChildren(node, cal, grow);
      }
    }

    /** `_fit(node.left)` and then `_fit(node.right)` on the two fresh children of a split node. */
    method FitChildren(node: RegressionNode, ghost cal: seq<Row> --> Calibration, ghost grow: (seq<Row>, nat) -> Tree)
      requires node.Valid() && node.names == names && node.labels == labels && node.depth < maxDepth
      requires node.left != null && node.left.Unfitted() && node.right.Unfitted()
      requires node.left.depth == node.depth + 1 && node.right.depth == node.depth + 1
      requires IsBestSplit(cal, names, labels) && Grows(grow, names, labels, cal, maxDepth, minSample)
      modifies node`Repr, node.left, node.right, counter
      ensures node.Valid() && fresh(node.Repr - old(node.Repr))
      ensures node.left == old(node.left) && node.right == old(node.right)
      ensures node.left.Model() == grow(node.left.data, node.depth + 1)
      ensures node.right.Model() == grow(node.right.data, node.depth + 1)
      decreases Budget(maxDepth, node.depth), 1
    {
      FitLeft(node, cal, grow);
      FitRight(node, cal, grow);
    }

    /** `_fit(node.left)`, while the right child is still fresh. */
    method FitLeft(node: RegressionNode, ghost cal: seq<Row> --> Calibration, ghost grow: (seq<Row>, nat) -> Tree)
      requires node.Valid() && node.names == names && node.labels == labels && node.depth < maxDepth
      requires node.left != null && node.left.Unfitted() && node.right.Unfitted()
      requires node.left.depth == node.depth + 1
      requires IsBestSplit(cal, names, labels) && Grows(grow, names, labels, cal, maxDepth, minSample)
      modifies node`Repr, node.left, counter
      ensures node.Valid() && fresh(node.Repr - old(node.Repr))
      ensures node.left == old(node.left) && node.right == old(node.right) && node.right.Unfitted()
      ensures node.left.Model() == grow(node.left.data, node.depth + 1)
      decreases Budget(maxDepth, node.depth), 0
    {
      var l := node.left;
      FitNode(l, cal, grow);
      assert node.right !in l.Repr && node !in l.Repr;
      node.Repr := {node} + l.Repr + node.right.Repr;
      JoinValid(node);
    }

    /** `_fit(node.right)`, once the left child is fitted. */
    method FitRight(node: RegressionNode, ghost cal: seq<Row> --> Calibration, ghost grow: (seq<Row>, nat) -> Tree)
      requires node.Valid() && node.names == names && node.labels == labels && node.depth < maxDepth
      requires node.left != null && node.right.Unfitted()
      requires node.right.depth == node.depth + 1
      requires IsBestSplit(cal, names, labels) && Grows(grow, names, labels, cal, maxDepth, minSample)
      modifies node`Repr, node.right, counter
      ensures node.Valid() && fresh(node.Repr - old(node.Repr))
      ensures node.left == old(node.left) && node.right == old(node.right)
      ensures node.left.Model() == old(node.left.Model())
      ensures node.right.Model() == grow(node.right.data, node.depth + 1)
      decreases Budget(maxDepth, node.depth), 0
    {
      FitNode(node.right, cal, grow);
      node.Repr := {node} + node.left.Repr + node.right.Repr;
      RightRejoined(node);
    }

    /** `fit`: grow the tree from the root, calibrating every node with `_bestSplit`. */
    method Fit()
      requires Valid() && root.Unfitted()
      modifies root, counter
      ensures Valid() && fresh(root.Repr - {root})
      ensures root.Model() == FittedTree(root.data, names, labels, maxDepth, minSample)
    {
      FitCalibratorChooses(names, labels);
      ghost var cal := FitCalibrator(names, labels);
      FitNode(root, cal, Grower(names, labels, cal, maxDepth, minSample));
    }

    /**
     * `_predict` from `node`: a node without children returns its
     * `predictedVal`; any other node routes the sample to a child.
     */
    function PredictAt(node: RegressionNode, samp: Sample): (r: Result<Option<real>, PredictError>)
      reads node, node.Repr
      requires node.Valid()
      ensures r == PredictTree(node.Model(), samp)
      decreases node.Repr
    {
      if node.right == null && node.left == null then Ok(node.predictedVal)
      else
        match Route(node.data, node.Rule(), samp)
        case Err(e) => Err(e)
        case Ok(Left) => PredictAt(node.left, samp)
        case Ok(Right) => PredictAt(node.right, samp)
    }

    /** `predict`: `_predict` from the root. */
    function Predict(samp: Sample): (r: Result<Option<real>, PredictError>)
      reads this, root, root.Repr
      requires Valid()
      ensures r == PredictTree(root.Model(), samp)
    {
      PredictAt(root, samp)
    }
  }
}
