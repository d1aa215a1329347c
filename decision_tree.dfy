/**
 * The shared part of both trees (`DecisionTree` in _abstract.py): the gate
 * that decides whether a node may be split, the partition of a node's rows
 * by its split descriptor, the left/right routing of a sample, and the
 * fitted tree as a value with the prediction walk and the facts that hold of
 * every fitted tree whichever criterion calibrated it.
 */
module DecisionTree {
  import opened Wrappers
  import opened Table
  import opened DecisionNode

  /** What `_can_split` looks at in a node: its depth and its number of rows. */
  datatype NodeSize = NodeSize(depth: nat, rows: nat)

  /**
   * `_can_split(node)`; `None` stands for a missing child (`node is None`).
   * A node that may be split exists and has depth left below `maxDepth`, and
   * its children have strictly less: this is why `_fit` stops.
   */
  predicate CanSplit(maxDepth: int, minSample: int, node: Option<NodeSize>)
    ensures CanSplit(maxDepth, minSample, node) ==>
      node.Some? && Budget(maxDepth, node.value.depth + 1) < Budget(maxDepth, node.value.depth)
  {
    match node
    case None => false
    case Some(n) => maxDepth > n.depth && minSample <= n.rows
  }

  /** `_can_split` on an existing node of `depth` holding `data`. */
  predicate NodeCanSplit(maxDepth: int, minSample: int, depth: nat, data: seq<Row>) {
    CanSplit(maxDepth, minSample, Some(NodeSize(depth, |data|)))
  }

  /** The columns a well-formed node reads: every row has a cell for every column name. */
  ghost predicate WellFormed(data: seq<Row>, names: seq<string>) {
    0 < |names| && Rectangular(data, |names|)
  }

  /** Column `j` has at most two distinct values: `len(unique(data[:, j])) <= 2`. */
  predicate AtMostTwoValues(data: seq<Row>, j: nat)
    requires forall r :: r in data ==> j < |r|
  {
    |Distinct(Column(data, j))| <= 2
  }

  /**
   * The mask `_split` uses for `dfA`: `!= featureVal` on a column with at most
   * two distinct values, `>= featureVal` otherwise. `dfB` uses the complement.
   */
  function SideATest(data: seq<Row>, rule: SplitRule): Test
    requires forall r :: r in data ==> rule.featureIndex < |r|
  {
    if AtMostTwoValues(data, rule.featureIndex) then Ne(rule.featureVal) else Ge(rule.featureVal)
  }

  /** The two frames `_split` returns. */
  datatype Sides = Sides(dfA: seq<Row>, dfB: seq<Row>)

  /**
   * The two frames `_split` computes once the node has been recalibrated:
   * `dfA` by `SideATest`, `dfB` by its complement. Both keep the node's row
   * order, as boolean masks do.
   */
  function Partition(data: seq<Row>, rule: SplitRule): (s: Sides)
    requires forall r :: r in data ==> rule.featureIndex < |r|
    ensures IsSubsequence(s.dfA, data) && IsSubsequence(s.dfB, data)
  {
    var t := SideATest(data, rule);
    SelectKeepsOrder(data, rule.featureIndex, t);
    SelectKeepsOrder(data, rule.featureIndex, Negate(t));
    Sides(Select(data, rule.featureIndex, t), Select(data, rule.featureIndex, Negate(t)))
  }

  /**
   * The partition in `DecisionTree._split`: the rows equal to `featureVal`
   * go to `dfB` and the rest to `dfA` when the column has at most two
   * distinct values; otherwise the rows `>= featureVal` go to `dfA` and the
   * rows `< featureVal` to `dfB`. Either way every row lands on exactly one
   * side.
   */
  lemma PartitionSides(data: seq<Row>, rule: SplitRule)
    requires forall r :: r in data ==> rule.featureIndex < |r|
    ensures var s := Partition(data, rule);
      && multiset(s.dfA) + multiset(s.dfB) == multiset(data)
      && |s.dfA| + |s.dfB| == |data|
    ensures var s, j, v := Partition(data, rule), rule.featureIndex, rule.featureVal;
      if AtMostTwoValues(data, j) then
        (forall r :: r in s.dfB <==> r in data && r[j] == v) && (forall r :: r in s.dfA <==> r in data && r[j] != v)
      else
        (forall r :: r in s.dfA <==> r in data && r[j] >= v) && (forall r :: r in s.dfB <==> r in data && r[j] < v)
  {
    SelectPartitions(data, rule.featureIndex, SideATest(data, rule));
  }

  /** Both sides of a well-formed node are well formed. */
  lemma PartitionWellFormed(data: seq<Row>, names: seq<string>, rule: SplitRule)
    requires WellFormed(data, names) && rule.featureIndex < |names|
    ensures WellFormed(Partition(data, rule).dfA, names)
    ensures WellFormed(Partition(data, rule).dfB, names)
  {
    PartitionSides(data, rule);
  }

  /** A sample to predict: a pandas row, read by position (`samp[i]`) and by column name (`samp[name]`). */
  datatype Sample = Sample(names: seq<string>, values: Row)

  /**
   * Why a prediction fails: a column name the sample lacks (KeyError), a
   * column name it holds more than once (`samp[name]` is then a Series of
   * every match, whose truth value in a comparison raises ValueError), or a
   * position past its end (IndexError).
   */
  datatype PredictError = MissingFeature(name: string) | AmbiguousFeature(name: string) | MissingPosition(index: nat)

  /**
   * `samp[name]` as a single cell: the position of the column called
   * `name` when exactly one column has that name (`LookupOnce`), and
   * otherwise the failure of using the result as one value.
   */
  function Lookup(names: seq<string>, name: string): (r: Result<nat, PredictError>)
    ensures r.Ok? ==> r.value < |names| && names[r.value] == name
    ensures r.Err? ==> r.error == if name in names then AmbiguousFeature(name) else MissingFeature(name)
  {
    if names == [] then Err(MissingFeature(name))
    else
      match Lookup(names[1..], name)
      case Ok(k) => if names[0] == name then Err(AmbiguousFeature(name)) else Ok(k + 1)
      case Err(e) => if names[0] == name && e.MissingFeature? then Ok(0) else Err(if names[0] == name then AmbiguousFeature(name) else e)
  }

  /** A name is found exactly when one column has it. */
  lemma {:induction false} LookupOnce(names: seq<string>, name: string)
    ensures Lookup(names, name).Ok? <==> multiset(names)[name] == 1
  {
    if names != [] {
      assert names == [names[0]] + names[1..];
      LookupOnce(names[1..], name);
    }
  }

  ghost predicate DistinctNames(names: seq<string>) {
    forall i, j :: 0 <= i < j < |names| ==> names[i] != names[j]
  }

  /** With distinct column names, looking up the name of column `i` finds column `i`. */
  lemma LookupOwnName(names: seq<string>, i: nat)
    requires DistinctNames(names) && i < |names|
    ensures Lookup(names, names[i]) == Ok(i)
  {
    DistinctOnce(names, i);
    LookupOnce(names, names[i]);
  }

  /** With distinct column names, every name occurs once. */
  lemma {:induction false} DistinctOnce(names: seq<string>, i: nat)
    requires DistinctNames(names) && i < |names|
    ensures multiset(names)[names[i]] == 1
  {
    assert names == [names[0]] + names[1..];
    if i == 0 {
      assert names[0] !in names[1..];
    } else {
      DistinctOnce(names[1..], i - 1);
    }
  }

  datatype Side = Left | Right

  /**
   * One step of `DecisionTree._predict` at an internal node: on a column with
   * exactly two distinct values in the node's rows, go left when
   * `samp[featureIndex] == featureVal` and right otherwise; on any other
   * column, go right when `samp[featureName] >= featureVal` and left otherwise.
   * A route by name fails when the sample lacks the split column's name
   * or holds it more than once (`RouteOnce`).
   */
  function Route(data: seq<Row>, rule: SplitRule, samp: Sample): (r: Result<Side, PredictError>)
    requires forall r :: r in data ==> rule.featureIndex < |r|
    ensures r.Err? && r.error.MissingFeature? ==> rule.featureName !in samp.names
    ensures r.Err? && r.error.AmbiguousFeature? ==> rule.featureName in samp.names
  {
    if |Distinct(Column(data, rule.featureIndex))| == 2 then
      if rule.featureIndex < |samp.values| then
        Ok(if samp.values[rule.featureIndex] == rule.featureVal then Left else Right)
      else Err(MissingPosition(rule.featureIndex))
    else
      match Lookup(samp.names, rule.featureName)
      case Err(e) => Err(e)
      case Ok(j) =>
        if j < |samp.values| then Ok(if samp.values[j] >= rule.featureVal then Right else Left)
        else Err(MissingPosition(j))
  }

  /**
   * A route fails as ambiguous only when the sample names the split column
   * more than once, and a sample with a cell for every name that names the
   * split column exactly once always routes.
   */
  lemma RouteOnce(data: seq<Row>, rule: SplitRule, samp: Sample)
    requires forall r :: r in data ==> rule.featureIndex < |r|
    ensures var r := Route(data, rule, samp);
      r.Err? && r.error.AmbiguousFeature? ==> multiset(samp.names)[rule.featureName] > 1
    ensures |samp.values| == |samp.names| && rule.featureIndex < |samp.names| && multiset(samp.names)[rule.featureName] == 1 ==>
      Route(data, rule, samp).Ok?
  {
    LookupOnce(samp.names, rule.featureName);
  }

  /**
   * A node's own training row is routed to the side `_split` put it on, as
   * long as the two sides are non-empty (so the `<= 2` test of `_split` and
   * the `== 2` test of `_predict` agree) and, for a numeric column, the
   * descriptor's name names its column: `dfB` is the left child and `dfA` the
   * right one.
   */
  lemma {:induction false} RouteAgreesWithPartition(data: seq<Row>, names: seq<string>, rule: SplitRule, row: Row)
    requires WellFormed(data, names) && rule.featureIndex < |names|
    requires Partition(data, rule).dfA != [] && Partition(data, rule).dfB != []
    requires AtMostTwoValues(data, rule.featureIndex) || Lookup(names, rule.featureName) == Ok(rule.featureIndex)
    requires row in data
    ensures row in Partition(data, rule).dfA <==> row !in Partition(data, rule).dfB
    ensures Route(data, rule, Sample(names, row)) == Ok(if row in Partition(data, rule).dfA then Right else Left)
  {
    var s := Partition(data, rule);
    PartitionSides(data, rule);
    var t := SideATest(data, rule);
    assert s.dfA == Select(data, rule.featureIndex, t);
    assert s.dfB == Select(data, rule.featureIndex, Negate(t));
    if AtMostTwoValues(data, rule.featureIndex) {
      RouteTwoValued(data, names, rule, row, s.dfA[0], s.dfB[0]);
    } else {
      RouteNumeric(data, names, rule, row);
    }
  }

  lemma RouteTwoValued(data: seq<Row>, names: seq<string>, rule: SplitRule, row: Row, a: Row, b: Row)
    requires WellFormed(data, names) && rule.featureIndex < |names|
    requires AtMostTwoValues(data, rule.featureIndex)
    requires a in data && b in data && a[rule.featureIndex] != rule.featureVal && b[rule.featureIndex] == rule.featureVal
    requires row in data
    ensures Route(data, rule, Sample(names, row)) == Ok(if row[rule.featureIndex] != rule.featureVal then Right else Left)
  {
    TwoSidesTwoValues(data, rule.featureIndex, rule.featureVal, a, b);
  }

  lemma RouteNumeric(data: seq<Row>, names: seq<string>, rule: SplitRule, row: Row)
    requires WellFormed(data, names) && rule.featureIndex < |names|
    requires !AtMostTwoValues(data, rule.featureIndex)
    requires Lookup(names, rule.featureName) == Ok(rule.featureIndex)
    requires row in data
    ensures Route(data, rule, Sample(names, row)) == Ok(if row[rule.featureIndex] >= rule.featureVal then Right else Left)
  {
    assert |row| == |names|;
    assert |Distinct(Column(data, rule.featureIndex))| != 2;
  }

  /** Rows on both sides of an equality mask make the column two-valued. */
  lemma TwoSidesTwoValues(data: seq<Row>, j: nat, v: real, a: Row, b: Row)
    requires forall r :: r in data ==> j < |r|
    requires AtMostTwoValues(data, j)
    requires a in data && b in data && a[j] != v && b[j] == v
    ensures |Distinct(Column(data, j))| == 2
  {
    ColumnHas(data, j, a);
    ColumnHas(data, j, b);
    TwoValuesDistinct(Column(data, j), a[j], b[j]);
  }

  lemma ColumnHas(data: seq<Row>, j: nat, r: Row)
    requires forall r :: r in data ==> j < |r|
    requires r in data
    ensures r[j] in Column(data, j)
  {
    var i :| 0 <= i < |data| && data[i] == r;
    assert Column(data, j)[i] == r[j];
  }

  /** `_bestSplit` examines column `i` unless it is column 0 or the label column (matched by its name `labelName`). */
  predicate Eligible(names: seq<string>, labelName: string, i: nat)
    requires i < |names|
  {
    i != 0 && names[i] != labelName
  }

  /** How many more levels a node at `depth` may still be split. */
  function Budget(maxDepth: int, depth: nat): nat {
    if maxDepth > depth then maxDepth - depth else 0
  }

  // ------------------------------------------------------------ tree values

  /**
   * The fields of one node as the fitted tree holds them: its rows, depth and
   * split descriptor, the impurity its calibration stored (`gini` or `ssr`)
   * and its prediction (`predictedClass`, or `predictedVal`; `None` for an
   * empty class or an undefined mean).
   */
  datatype NodeInfo = NodeInfo(data: seq<Row>, depth: nat, rule: SplitRule, impurity: real, prediction: Option<real>)

  /** A fitted tree as a value: a leaf, or an internal node with its left and right subtrees. */
  datatype Tree = Leaf(info: NodeInfo) | Internal(info: NodeInfo, left: Tree, right: Tree)

  /** Every node's split column exists in its rows, so routing can read it. */
  ghost predicate Readable(t: Tree) {
    (forall r {:trigger r in t.info.data} :: r in t.info.data ==> t.info.rule.featureIndex < |r|)
    && (t.Internal? ==> Readable(t.left) && Readable(t.right))
  }

  /** The number of splits on the longest root-to-leaf path. */
  function Height(t: Tree): nat {
    match t
    case Leaf(_) => 0
    case Internal(_, l, r) => 1 + (if Height(l) >= Height(r) then Height(l) else Height(r))
  }

  /**
   * Every internal node held at least `minSample` rows and was shallower than
   * `maxDepth`; its two children are non-empty, one level deeper, and split
   * its rows exactly: the left child holds `dfB` and the right child `dfA`
   * of the node's own partition.
   */
  ghost predicate SplitsPartition(t: Tree, maxDepth: int, minSample: int)
    requires Readable(t)
  {
    match t
    case Leaf(_) => true
    case Internal(info, l, r) =>
      && minSample <= |info.data| && info.depth < maxDepth
      && l.info.data != [] && r.info.data != []
      && l.info.depth == info.depth + 1 && r.info.depth == info.depth + 1
      && l.info.data == Partition(info.data, info.rule).dfB
      && r.info.data == Partition(info.data, info.rule).dfA
      && multiset(l.info.data) + multiset(r.info.data) == multiset(info.data)
      && SplitsPartition(l, maxDepth, minSample) && SplitsPartition(r, maxDepth, minSample)
  }

  /** A tree whose splits keep to the depth limit is at most `maxDepth - depth` splits high. */
  lemma {:induction false} SplitsBoundHeight(t: Tree, maxDepth: int, minSample: int)
    requires Readable(t) && SplitsPartition(t, maxDepth, minSample)
    ensures Height(t) <= Budget(maxDepth, t.info.depth)
  {
    if t.Internal? {
      SplitsBoundHeight(t.left, maxDepth, minSample);
      SplitsBoundHeight(t.right, maxDepth, minSample);
    }
  }

  /** The predictions stored in the leaves of a tree. */
  ghost function LeafPredictions(t: Tree): set<Option<real>> {
    match t
    case Leaf(info) => {info.prediction}
    case Internal(_, l, r) => LeafPredictions(l) + LeafPredictions(r)
  }

  /**
   * `_predict`: a node without children returns its prediction (the
   * classifier's `predictedClass`, the regressor's `predictedVal`); any other
   * node routes the sample to a child, or fails when the sample lacks the
   * column the route reads. A prediction is always one stored in a leaf.
   */
  function PredictTree(t: Tree, samp: Sample): (r: Result<Option<real>, PredictError>)
    requires Readable(t)
    ensures r.Ok? ==> r.value in LeafPredictions(t)
  {
    match t
    case Leaf(info) => Ok(info.prediction)
    case Internal(info, l, r) =>
      match Route(info.data, info.rule, samp)
      case Err(e) => Err(e)
      case Ok(Left) => PredictTree(l, samp)
      case Ok(Right) => PredictTree(r, samp)
  }

  /** Every node is at most `maxDepth` deep. */
  ghost predicate DepthsWithin(t: Tree, maxDepth: int) {
    && t.info.depth <= maxDepth
    && (t.Internal? ==> DepthsWithin(t.left, maxDepth) && DepthsWithin(t.right, maxDepth))
  }

  /** A tree grown from a node within `maxDepth` never goes below `maxDepth`: the gate stops every branch there. */
  lemma {:induction false} SplitsKeepDepth(t: Tree, maxDepth: int, minSample: int)
    requires Readable(t) && SplitsPartition(t, maxDepth, minSample)
    requires t.info.depth <= maxDepth
    ensures DepthsWithin(t, maxDepth)
  {
    if t.Internal? {
      SplitsKeepDepth(t.left, maxDepth, minSample);
      SplitsKeepDepth(t.right, maxDepth, minSample);
    }
  }

  /** Every child holds strictly fewer rows than its parent, all of them the parent's. */
  ghost predicate ChildrenShrink(t: Tree) {
    t.Internal? ==>
      && |t.left.info.data| < |t.info.data| && |t.right.info.data| < |t.info.data|
      && multiset(t.left.info.data) <= multiset(t.info.data)
      && multiset(t.right.info.data) <= multiset(t.info.data)
      && ChildrenShrink(t.left) && ChildrenShrink(t.right)
  }

  /** The children of a split take disjoint, non-empty shares of its rows, so each holds strictly fewer. */
  lemma {:induction false} SplitsShrink(t: Tree, maxDepth: int, minSample: int)
    requires Readable(t) && SplitsPartition(t, maxDepth, minSample)
    ensures ChildrenShrink(t)
  {
    if t.Internal? {
      var n, l, r := t.info.data, t.left.info.data, t.right.info.data;
      assert |multiset(l)| + |multiset(r)| == |multiset(n)|;
      SplitsShrink(t.left, maxDepth, minSample);
      SplitsShrink(t.right, maxDepth, minSample);
    }
  }

  /** Every internal node can route its own rows by the name it stores: the column is two-valued, or the name finds the column. */
  ghost predicate Routable(t: Tree, names: seq<string>)
    requires Readable(t)
  {
    match t
    case Leaf(_) => true
    case Internal(info, l, r) =>
      && (AtMostTwoValues(info.data, info.rule.featureIndex) || Lookup(names, info.rule.featureName) == Ok(info.rule.featureIndex))
      && Routable(l, names) && Routable(r, names)
  }

  /** Every internal node stores the name of the column it splits on. */
  ghost predicate NamedSplits(t: Tree, names: seq<string>) {
    match t
    case Leaf(_) => true
    case Internal(info, l, r) =>
      && info.rule.featureIndex < |names| && names[info.rule.featureIndex] == info.rule.featureName
      && NamedSplits(l, names) && NamedSplits(r, names)
  }

  /** With distinct column names, a tree whose splits name their columns routes every node's own rows. */
  lemma {:induction false} NamedSplitsRoutable(t: Tree, names: seq<string>)
    requires Readable(t) && NamedSplits(t, names) && DistinctNames(names)
    ensures Routable(t, names)
  {
    if t.Internal? {
      LookupOwnName(names, t.info.rule.featureIndex);
      NamedSplitsRoutable(t.left, names);
      NamedSplitsRoutable(t.right, names);
    }
  }

  /** A child of a split holds some rows, all of them its parent's. */
  lemma ChildRowsFromParent(t: Tree, child: Tree, maxDepth: int, minSample: int)
    requires Readable(t) && SplitsPartition(t, maxDepth, minSample) && t.Internal?
    requires child == t.left || child == t.right
    ensures child.info.data != []
    ensures forall r :: r in child.info.data ==> r in t.info.data
  {
    forall r | r in child.info.data ensures r in t.info.data {
      assert r in multiset(t.left.info.data) + multiset(t.right.info.data);
    }
  }

  /** The leaf a training row ends up in: follow the child whose rows hold it. */
  ghost function LeafOf(t: Tree, row: Row): (leaf: Tree)
    ensures leaf.Leaf?
  {
    match t
    case Leaf(_) => t
    case Internal(_, l, r) => if row in r.info.data then LeafOf(r, row) else LeafOf(l, row)
  }

  /**
   * A training row of the fitted tree, presented with the training column
   * names, is predicted as the prediction of the leaf that holds it, as long as
   * every internal node can route its rows.
   */
  lemma {:induction false} PredictTrainingRow(t: Tree, names: seq<string>, maxDepth: int, minSample: int, row: Row)
    requires Readable(t) && SplitsPartition(t, maxDepth, minSample) && Routable(t, names)
    requires forall r :: r in t.info.data ==> |r| == |names|
    requires 0 < |names| && t.info.rule.featureIndex < |names|
    requires row in t.info.data
    ensures row in LeafOf(t, row).info.data
    ensures PredictTree(t, Sample(names, row)) == Ok(LeafOf(t, row).info.prediction)
  {
    if t.Internal? {
      var info := t.info;
      RouteAgreesWithPartition(info.data, names, info.rule, row);
      assert row in multiset(t.left.info.data) + multiset(t.right.info.data);
      if row in t.right.info.data {
        PredictTrainingRow(t.right, names, maxDepth, minSample, row);
      } else {
        PredictTrainingRow(t.left, names, maxDepth, minSample, row);
      }
    }
  }
}
