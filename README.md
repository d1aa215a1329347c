# Decision trees from scratch, in Dafny

This project models the decision-tree package of ScratchML (`src/ScratchML/DecisionTrees`)
and its classification metrics (`src/ScratchML/metrics/classification.py`), and proves
properties of that model. The package contains:

- a binary **classification tree**. `ClassifierNode` calibrates a node by the two-class Gini
  impurity, and `DTClassifier` grows, predicts and evaluates the tree.
- a **regression tree**. `RegressionNode` calibrates a node by the sum of squared residuals
  (SSR), and `DTRegressor` grows and predicts.
- the **shared base** `DecisionTree` in `_abstract.py`. It holds the `_can_split` gate, the
  `_split` partition, the recursive `_fit` and the `_predict` walk.
- `confusion_matrix` and `common_metrics`.

Cells are exact `real`s, and class labels are encoded as numbers like every other cell. The
constants the code imports from `consts.py` become parameters: `ClassLabels(labelName,
labelIndex, clsX, clsY)` and `NumericLabel(labelName, labelIndex)`. `float('inf')` becomes
`Score = Inf | Fin(v)`.

Nodes are heap objects (`ClassifierNode`, `RegressionNode`). Their split fields, children and
predictions are updated in place. `Model()` reads a node's subtree as a `Tree` value.

- The fitting methods are proved to grow exactly the tree the pure function `Build` describes.
- The prediction functions are proved to agree with `PredictTree` on that value.
- The properties of fitted trees are lemmas about `Build`. They cover:
  - the partition of rows between children;
  - the height bound;
  - what `_bestSplit` leaves in each node;
  - the depth limit, and children holding strictly fewer rows than their parent;
  - leaf predictions;
  - training-row prediction;
  - the range of any prediction: `cls_x` or `cls_y` for the classifier, a number between the
    smallest and the largest training label for the regressor.

The model follows the code, including these behaviours:

- `calc_gini_numeric_feature` and `calc_ssr_to_feature` sort a copy of the rows and discard
  it, so the midpoint scans run over consecutive rows in stored order.
- Both scans and both `_bestSplit` loops keep the first strict minimum.
- The classifier starts from `(1, inf)` and `min_gini = 1`. The regressor starts from
  `(inf, inf)` and `min_ssr = inf`.
- Column 0 and the label column are never examined.
- In the classifier's `_bestSplit`, every examined two-valued column first resets
  `featureVal` to 0, even when it does not win. A two-valued winner stores `featureVal = 1`.
  The regressor stores 0 for a two-valued winner and never resets.
- `DTClassifier._fit` tests `node.gini != 0` on a fresh node, whose `gini` is still 1, so the
  test always passes.
- The two leaf rules differ:
  - `make_leaf` gives `cls_x` only when it outnumbers `cls_y`;
  - the unsplittable branch of `_fit` gives `cls_x` only when it outnumbers all other rows.

  Both send ties to `cls_y`.
- `DTRegressor._split` leaves a node childless when one side is empty. There is no
  `make_leaf`.
- `_split` partitions by equality on columns with at most two distinct values. `_predict`
  routes by position on columns with exactly two distinct values, and by column name
  otherwise.
- When no column wins, `_bestSplit` keeps the default descriptor (`featureName = ""`,
  `featureIndex = 0`). `_split` then partitions on column 0. Routing such a node by name
  fails (`MissingFeature("")`), so the prediction results are stated for trees in which every
  split found a winner (`NoFallbackSplit`).
- In `confusion_matrix`, `FP` counts rows whose true label is `cls_x` and whose prediction is
  not. `FN` counts the reverse. These are the opposite of the usual names; the model keeps the
  code's.
- `samp[name]` on a row whose columns repeat `name` is a Series of every match, and comparing
  it with a number raises. Routing by such a name fails with `AmbiguousFeature`, and reading
  such a label column fails with `AmbiguousLabel`.
- Every ratio divides without a guard. A zero denominator becomes `Err(ZeroDivision)`.

## Model

| member | source | states |
|---|---|---|
| Score.ScanIsFirstStrictMin | src/ScratchML/DecisionTrees/ClassifierNode.py:126-136 | the scan returns its initial pair when nothing beats it; otherwise the first candidate strictly below the start and all earlier candidates, and no larger than any later one; its score is at most every candidate's |
| Table.Column | src/ScratchML/DecisionTrees/_abstract.py:96 | `data[:, j]` has one cell per row, the row's cell `j` |
| Table.DistinctMembers | src/ScratchML/DecisionTrees/_abstract.py:96 | `unique` holds exactly the values that occur in the column |
| Table.Negate | src/ScratchML/DecisionTrees/_abstract.py:97-103 | the complementary mask holds exactly where the mask fails (`==`/`!=`, `>=`/`<`) |
| Table.Select | src/ScratchML/DecisionTrees/_abstract.py:97-98 | a boolean-mask selection keeps exactly the rows whose cell passes the test |
| Table.SelectPartitions | src/ScratchML/DecisionTrees/_abstract.py:96-103 | a mask and its complement split the rows as a multiset, sizes adding up |
| Table.SelectKeepsOrder | src/ScratchML/DecisionTrees/_abstract.py:97-103 | each selection is a subsequence of the rows, in stored order |
| Table.CountEq | src/ScratchML/DecisionTrees/ClassifierNode.py:58 | the count of rows with a value is at most the row count, and 0 exactly when no row has it |
| Table.Smallest | src/ScratchML/DecisionTrees/ClassifierNode.py:80-81 | `unique(col)[0]` occurs in the column and is no larger than any value |
| Table.SecondValue | src/ScratchML/DecisionTrees/ClassifierNode.py:80-82 | `unique(col)[1]` occurs, exceeds the first value and is the smallest value other than it |
| Table.ExactlyTwoValues | src/ScratchML/DecisionTrees/ClassifierNode.py:80-82 | with two distinct values every cell is `unique(col)[0]` or `unique(col)[1]` |
| DecisionNode.NodeCounter.constructor | src/ScratchML/DecisionTrees/DecisionNode.py:6 | the shared counter starts at 0 |
| DecisionNode.NodeCounter.Next | src/ScratchML/DecisionTrees/DecisionNode.py:28-29 | a node takes the current counter value as id, and the counter goes up by one |
| DecisionTree.CanSplit | src/ScratchML/DecisionTrees/_abstract.py:77-81 | a node that passes `_can_split` exists, and its children have strictly less depth left below `maxDepth`, so the recursion of `_fit` ends |
| DecisionTree.Partition | src/ScratchML/DecisionTrees/_abstract.py:96-103 | both sides are subsequences of the node's rows, in stored order |
| DecisionTree.PartitionSides | src/ScratchML/DecisionTrees/_abstract.py:96-103 | `dfB` holds the rows equal to `featureVal` and `dfA` the others when the column has at most two values; otherwise `dfA` holds the rows `>=` and `dfB` the rows `<`; every row lands on exactly one side |
| DecisionTree.PartitionWellFormed | src/ScratchML/DecisionTrees/_abstract.py:105 | both sides keep the node's column names |
| DecisionTree.Lookup | src/ScratchML/DecisionTrees/_abstract.py:186 | `samp[name]` used as one cell: a found position holds that name; a failure is an ambiguous feature (the Series comparison raises) when the name occurs, and a missing feature (KeyError) when it does not |
| DecisionTree.LookupOnce | src/ScratchML/DecisionTrees/_abstract.py:186 | the name is found exactly when one column has it |
| DecisionTree.LookupOwnName | src/ScratchML/DecisionTrees/_abstract.py:186 | with distinct names, looking up column `i`'s name finds `i` |
| DecisionTree.Route | src/ScratchML/DecisionTrees/_abstract.py:178-189 | a route fails as a missing feature only when the sample lacks the split column's name, and as an ambiguous one only when it has that name |
| DecisionTree.RouteOnce | src/ScratchML/DecisionTrees/_abstract.py:178-189 | an ambiguous failure means the sample names the split column more than once; a sample with a cell for every name that names the split column exactly once always routes |
| DecisionTree.RouteTwoValued | src/ScratchML/DecisionTrees/_abstract.py:179-183 | on a two-valued column a training row goes right exactly when its cell differs from `featureVal` |
| DecisionTree.RouteNumeric | src/ScratchML/DecisionTrees/_abstract.py:186-189 | on any other column a training row goes right exactly when its cell is `>= featureVal` |
| DecisionTree.RouteAgreesWithPartition | src/ScratchML/DecisionTrees/_abstract.py:96-103 | `_predict` sends a node's own row to the side `_split` put it on: `dfA` right, `dfB` left |
| DecisionTree.SplitsBoundHeight | src/ScratchML/DecisionTrees/_abstract.py:79 | a tree whose splits respect the depth gate is at most `maxDepth - depth` splits high |
| DecisionTree.PredictTree | src/ScratchML/DecisionTrees/_abstract.py:165-189 | every prediction is one stored in a leaf |
| DecisionTree.SplitsKeepDepth | src/ScratchML/DecisionTrees/_abstract.py:79 | a tree grown from a depth within `maxDepth` has no node deeper than `maxDepth` |
| DecisionTree.SplitsShrink | src/ScratchML/DecisionTrees/_abstract.py:96-103 | every child holds strictly fewer rows than its parent, all of them the parent's |
| DecisionTree.NamedSplitsRoutable | src/ScratchML/DecisionTrees/_abstract.py:178-189 | with distinct column names, a tree whose every split stores its column's name routes each node's own rows to a child |
| DecisionTree.PredictTrainingRow | src/ScratchML/DecisionTrees/_abstract.py:165-189 | a training row is predicted as the prediction of the leaf that holds it |
| ClassifierNode.CountClassNum | src/ScratchML/DecisionTrees/ClassifierNode.py:46-62 | the class count is at most the row count, and 0 exactly when no row has that label |
| ClassifierNode.CountsCoverRows | src/ScratchML/DecisionTrees/ClassifierNode.py:178 | with only `cls_x`/`cls_y` labels, the two counts add up to the row count |
| ClassifierNode.CountsAtMostRows | src/ScratchML/DecisionTrees/DTClassifier.py:60-63 | for two different labels, the `cls_x` and `cls_y` counts together are at most the row count |
| ClassifierNode.FractionBounds | src/ScratchML/DecisionTrees/ClassifierNode.py:96-97 | a side's class fraction lies in [0, 1], and is 0 or 1 exactly for an empty or full count |
| ClassifierNode.TwoPQBounds | src/ScratchML/DecisionTrees/ClassifierNode.py:101-102 | `2p(1-p)` of a side lies in [0, 1/2], and is 0 exactly for a pure side |
| ClassifierNode.WeightedGini | src/ScratchML/DecisionTrees/ClassifierNode.py:96-108 | the size-weighted impurity lies in [0, 1/2], and is 0 exactly when both groups are pure |
| ClassifierNode.SidesGini | src/ScratchML/DecisionTrees/ClassifierNode.py:89-108 | the score is `inf` exactly when a group is empty; otherwise it lies in [0, 1/2] and is 0 iff both groups are pure |
| ClassifierNode.GiniImpurity | src/ScratchML/DecisionTrees/ClassifierNode.py:66-108 | the same for `calc_gini_impurity` with or without a threshold |
| ClassifierNode.CategoricalSidesPartition | src/ScratchML/DecisionTrees/ClassifierNode.py:79-82 | on a two-valued column the two value groups are non-empty and split the rows as a multiset |
| ClassifierNode.SelectSameTest | src/ScratchML/DecisionTrees/ClassifierNode.py:81-82 | on a two-valued column "not the first value" selects the same rows as "the second value" |
| ClassifierNode.NumericGini | src/ScratchML/DecisionTrees/ClassifierNode.py:126-136 | the score is at most 1, and a score below 1 comes with a finite threshold |
| ClassifierNode.NumericGiniFirstMin | src/ScratchML/DecisionTrees/ClassifierNode.py:112-136 | the numeric scan returns `(1, inf)` or the first strict minimum of the midpoint impurities below 1, at most every candidate, with a midpoint of consecutive rows as threshold |
| ClassifierNode.CalcGiniNumericFeature | src/ScratchML/DecisionTrees/ClassifierNode.py:112-136 | the loop returns the scan's result, a finite threshold whenever the score is below 1 |
| ClassifierNode.SummaryScoreRange | src/ScratchML/DecisionTrees/ClassifierNode.py:153-171 | a column's score is exactly 1 or a finite impurity in [0, 1/2] |
| ClassifierNode.ScoreColumn | src/ScratchML/DecisionTrees/ClassifierNode.py:153-165 | the scoring half of a `_bestSplit` pass agrees with the column summary |
| ClassifierNode.CalibrateStep | src/ScratchML/DecisionTrees/ClassifierNode.py:150-171 | the running minimum never rises; name, index, `gini` and the minimum change only when the column is examined and strictly beats the minimum, and then become its name, index and score |
| ClassifierNode.CalibrateUpTo | src/ScratchML/DecisionTrees/ClassifierNode.py:145-171 | the running minimum stays at most 1, and once below 1 it equals the stored `gini` |
| ClassifierNode.CalibrateWinner | src/ScratchML/DecisionTrees/ClassifierNode.py:145-171 | the running minimum is at most every examined score; no winner leaves name, index and `gini` unchanged with minimum 1; a winner is examined, stored by name and index with its score as `gini`, and every examined column before it scored strictly worse |
| ClassifierNode.CalibrateFeatureVal | src/ScratchML/DecisionTrees/ClassifierNode.py:153-170 | `featureVal` is 0 when an examined two-valued column follows the winner, otherwise the winner's value (1 or its threshold) or the starting value |
| ClassifierNode.BestSplitChoosesColumn | src/ScratchML/DecisionTrees/ClassifierNode.py:139-171 | the stored column exists; a winner is neither column 0 nor the label column and leaves `gini` in [0, 1/2]; no winner keeps name, index and `gini` |
| ClassifierNode.LeafClass | src/ScratchML/DecisionTrees/ClassifierNode.py:174-179 | `make_leaf` predicts `cls_x` or `cls_y`, one at least as frequent as either |
| ClassifierNode.MajorityClass | src/ScratchML/DecisionTrees/DTClassifier.py:59-67 | the `_fit` leaf rule predicts `cls_x` or `cls_y`; a `cls_x` leaf holds more `cls_x` rows than `cls_y` rows |
| ClassifierNode.LeafRulesAgree | src/ScratchML/DecisionTrees/ClassifierNode.py:174-179 | on two-label rows `make_leaf` and the `_fit` leaf rule (DTClassifier.py:59-67) give the same majority class, ties to `cls_y`; a pure node predicts its label |
| ClassifierNode.ClassifierNode.constructor | src/ScratchML/DecisionTrees/ClassifierNode.py:13-27 | a fresh node: no children, default descriptor, `gini = 1`, empty prediction, `samples` the row count, the next id |
| ClassifierNode.ClassifierNode.BestSplit | src/ScratchML/DecisionTrees/ClassifierNode.py:139-171 | the node's split fields become the calibration of its columns from its old fields |
| ClassifierNode.ClassifierNode.PassColumn | src/ScratchML/DecisionTrees/ClassifierNode.py:147-171 | one loop pass over column `i` updates the fields as `CalibrateStep` says |
| ClassifierNode.ClassifierNode.ExamineColumn | src/ScratchML/DecisionTrees/ClassifierNode.py:150-171 | the comparison half of a pass: reset for two-valued columns, then store a strictly better column |
| ClassifierNode.ClassifierNode.MakeLeaf | src/ScratchML/DecisionTrees/ClassifierNode.py:174-179 | the node predicts `cls_x` only when it outnumbers `cls_y` |
| DTClassifier.FitCalibratorChooses | src/ScratchML/DecisionTrees/_abstract.py:93 | `_bestSplit` on a fresh node stores an examined column with impurity in [0, 1/2], or keeps the defaults |
| DTClassifier.Build | src/ScratchML/DecisionTrees/DTClassifier.py:47-67 | the fitted subtree holds the node's rows at its depth, and every split column exists |
| DTClassifier.SplitTree | src/ScratchML/DecisionTrees/_abstract.py:119-129 | the same for the split branch of `_fit` |
| DTClassifier.BuildSplitsPartition | src/ScratchML/DecisionTrees/DTClassifier.py:38-44 | every internal node of the fitted tree passed the gate, and its children are non-empty, one level deeper and split its rows exactly |
| DTClassifier.BuildHeight | src/ScratchML/DecisionTrees/_abstract.py:79 | the fitted tree is at most `maxDepth - depth` splits high; grown from a depth within `maxDepth`, no node is deeper than `maxDepth`; every child holds strictly fewer rows than its parent, all of them the parent's |
| DTClassifier.BuildLeavesPredict | src/ScratchML/DecisionTrees/DTClassifier.py:55-67 | every leaf predicts `cls_x` or `cls_y`, and every internal node keeps the empty prediction |
| DTClassifier.BuildCalibratedSplits | src/ScratchML/DecisionTrees/ClassifierNode.py:139-171 | every internal node stores an examined column with impurity in [0, 1/2], or the defaults |
| DTClassifier.CalibratedRoutable | src/ScratchML/DecisionTrees/_abstract.py:178-189 | with distinct column names and no fallback split, every internal node routes its own rows |
| DTClassifier.LeafPredictionsAreClasses | src/ScratchML/DecisionTrees/DTClassifier.py:59-67 | a tree whose leaves predict classes stores only `cls_x` or `cls_y` in its leaves |
| DTClassifier.PredictIsLeafClass | src/ScratchML/DecisionTrees/DTClassifier.py:84-87 | on such a tree a successful prediction is `cls_x` or `cls_y`, never an internal node's empty class |
| DTClassifier.FittedPredictsClass | src/ScratchML/DecisionTrees/_abstract.py:151-162 | `predict` on a fitted classifier answers `cls_x` or `cls_y` for every sample it can route |
| DTClassifier.LabelOf | src/ScratchML/DecisionTrees/DTClassifier.py:113 | a label that can be read belongs to a column of the row |
| DTClassifier.LabelReadable | src/ScratchML/DecisionTrees/DTClassifier.py:113 | `s[labelName]` is one value exactly when one column has that name and the row has a cell for it, and it is that cell |
| DTClassifier.LabelFailure | src/ScratchML/DecisionTrees/DTClassifier.py:113 | a row whose label cannot be read fails as an ambiguous label exactly when the label column is named more than once, and as a missing label otherwise |
| DTClassifier.Count | src/ScratchML/DecisionTrees/DTClassifier.py:113-122 | one row raises exactly one count; a true count iff the prediction equals the label; a positive count iff the prediction is `cls_x` |
| DTClassifier.CountRow | src/ScratchML/DecisionTrees/DTClassifier.py:110-122 | a counted row adds one to the total |
| DTClassifier.TallyRows | src/ScratchML/DecisionTrees/DTClassifier.py:109-122 | a completed tally counts every row once |
| DTClassifier.TallyOk | src/ScratchML/DecisionTrees/DTClassifier.py:109-122 | the loop completes iff every row can be predicted and has a label |
| DTClassifier.TallyErrSticks | src/ScratchML/DecisionTrees/DTClassifier.py:109-122 | the first failure ends the loop with that failure |
| DTClassifier.TallyExact | src/ScratchML/DecisionTrees/DTClassifier.py:109-122 | a completed tally has FP + FN = 0 exactly when every row is predicted as its label |
| DTClassifier.Summarize | src/ScratchML/DecisionTrees/DTClassifier.py:124-128 | the ratios fail exactly on a zero denominator; each lies in [0, 1]; accuracy is 1 iff FP = FN = 0 |
| DTClassifier.Evaluation | src/ScratchML/DecisionTrees/DTClassifier.py:90-130 | a successful evaluation had rows, and every ratio lies in [0, 1] |
| DTClassifier.EvaluationExact | src/ScratchML/DecisionTrees/DTClassifier.py:101-128 | a successful evaluation predicted and labelled every row, and its accuracy is 1 exactly when every row is predicted as its label |
| DTClassifier.DTClassifier.constructor | src/ScratchML/DecisionTrees/DTClassifier.py:15-27 | the limits and a fresh root at depth 0 |
| DTClassifier.DTClassifier.Split | src/ScratchML/DecisionTrees/DTClassifier.py:29-44 | calibrate, then two fresh children on `dfB`/`dfA` one level deeper, or a `make_leaf` leaf |
| DTClassifier.DTClassifier.Calibrate | src/ScratchML/DecisionTrees/_abstract.py:93 | the node holds `_bestSplit`'s calibration |
| DTClassifier.DTClassifier.Grow | src/ScratchML/DecisionTrees/DTClassifier.py:38-44 | partition by the stored split; children or `make_leaf` |
| DTClassifier.DTClassifier.AttachChildren | src/ScratchML/DecisionTrees/DTClassifier.py:40-42 | `right` is a fresh node on `dfA`, `left` on `dfB`, both one level deeper |
| DTClassifier.DTClassifier.FitNode | src/ScratchML/DecisionTrees/DTClassifier.py:47-67 | the subtree grown in place is `Build` of the node |
| DTClassifier.DTClassifier.FitSplit | src/ScratchML/DecisionTrees/_abstract.py:119-129 | the subtree grown in place is `SplitTree` of the node |
| DTClassifier.DTClassifier.FitSplitChildren | src/ScratchML/DecisionTrees/_abstract.py:128-129 | after `_split`, the node and the children it has are grown in place into `SplitTree` of the node |
| DTClassifier.DTClassifier.FitChildren | src/ScratchML/DecisionTrees/_abstract.py:128-129 | both children are grown as `Build` says |
| DTClassifier.DTClassifier.FitLeft | src/ScratchML/DecisionTrees/_abstract.py:128 | the left child is grown as `Build` says; the right stays fresh |
| DTClassifier.DTClassifier.FitRight | src/ScratchML/DecisionTrees/_abstract.py:129 | the right child is grown as `Build` says; the left is unchanged |
| DTClassifier.DTClassifier.Fit | src/ScratchML/DecisionTrees/_abstract.py:110-115 | the root's subtree is the fitted tree of its rows |
| DTClassifier.DTClassifier.PredictAt | src/ScratchML/DecisionTrees/DTClassifier.py:72-87 | `_predict` from a node is `PredictTree` of its subtree |
| DTClassifier.DTClassifier.Predict | src/ScratchML/DecisionTrees/_abstract.py:151-162 | `predict` is `PredictTree` of the fitted tree |
| DTClassifier.DTClassifier.CountTest | src/ScratchML/DecisionTrees/DTClassifier.py:101-122 | the counting loop returns `TallyRows` of the tree and the test rows |
| DTClassifier.DTClassifier.Evaluate | src/ScratchML/DecisionTrees/DTClassifier.py:90-130 | `evaluate` returns `Evaluation` of the tree and the test rows |
| RegressionNode.SquaredDeviationsZero | src/ScratchML/DecisionTrees/regressor.py:106 | a sum of squared deviations is not negative, and is 0 exactly when every value equals the centre |
| RegressionNode.SsrZero | src/ScratchML/DecisionTrees/regressor.py:87-108 | `calc_ssr` is 0 exactly when every row has the same label, and so is 0 for at most one row |
| RegressionNode.CalcSsr | src/ScratchML/DecisionTrees/regressor.py:87-108 | the SSR of a group is not negative |
| RegressionNode.CategoricalSsr | src/ScratchML/DecisionTrees/regressor.py:55-60 | the two-group SSR of a two-valued column is not negative |
| RegressionNode.ThresholdSsr | src/ScratchML/DecisionTrees/regressor.py:74-79 | the two-group SSR of a threshold is not negative |
| RegressionNode.SsrToFeature | src/ScratchML/DecisionTrees/regressor.py:35-85 | the score is finite exactly when the column has at least two values, and then it is not negative and comes with a finite value |
| RegressionNode.SsrToFeatureSpec | src/ScratchML/DecisionTrees/regressor.py:35-85 | `(inf, inf)` below two values; value 0 at two; above two the first strict minimum of the midpoint SSRs, at most every candidate |
| RegressionNode.CalcSsrToFeature | src/ScratchML/DecisionTrees/regressor.py:35-85 | the method returns `SsrToFeature` |
| RegressionNode.ScanMidpoints | src/ScratchML/DecisionTrees/regressor.py:69-83 | the midpoint loop returns the scan from `(inf, inf)` |
| RegressionNode.CalibrateStep | src/ScratchML/DecisionTrees/regressor.py:122-129 | the running minimum never rises; the fields change only when the column is examined and strictly beats the minimum, and then become its name, index and score |
| RegressionNode.CalibrateUpTo | src/ScratchML/DecisionTrees/regressor.py:116-129 | once the minimum is finite it equals the stored `ssr`; while it is infinite the fields are the starting ones |
| RegressionNode.CalibrateWinner | src/ScratchML/DecisionTrees/regressor.py:116-129 | the running minimum is at most every examined score; no winner leaves every field unchanged with minimum `inf`; a winner is examined and stored with its name, index, value and score, every earlier examined column strictly worse |
| RegressionNode.BestSplitChoosesColumn | src/ScratchML/DecisionTrees/regressor.py:110-129 | a column wins iff some examined column has two or more values; the winner is neither column 0 nor the label column, its SSR is not negative, its value is 0 (two values) or a midpoint of consecutive rows; no winner keeps the fields |
| RegressionNode.WinnerValue | src/ScratchML/DecisionTrees/regressor.py:63-83 | a winning column's value is 0 for two values and a midpoint of consecutive rows otherwise |
| RegressionNode.MeanLabel | src/ScratchML/DecisionTrees/regressor.py:31 | a node has a mean exactly when it has rows |
| RegressionNode.MeanLabelRange | src/ScratchML/DecisionTrees/regressor.py:31 | the mean lies between the smallest and the largest label, and equals a label shared by all rows |
| RegressionNode.RegressionNode.constructor | src/ScratchML/DecisionTrees/regressor.py:16-31 | a fresh node: no children, default descriptor, `ssr = 0`, `predictedVal` the mean label, the next id |
| RegressionNode.RegressionNode.BestSplit | src/ScratchML/DecisionTrees/regressor.py:110-129 | the node's split fields become the calibration of its columns from its old fields |
| RegressionNode.RegressionNode.PassColumn | src/ScratchML/DecisionTrees/regressor.py:118-129 | one loop pass over column `i` updates the fields as `CalibrateStep` says |
| RegressionNode.RegressionNode.ExamineColumn | src/ScratchML/DecisionTrees/regressor.py:124-129 | a strictly better examined column is stored with its SSR and value |
| DTRegressor.FitCalibratorChooses | src/ScratchML/DecisionTrees/_abstract.py:93 | `_bestSplit` on a fresh node stores an examined column with a non-negative SSR, or keeps the defaults |
| DTRegressor.Build | src/ScratchML/DecisionTrees/regressor.py:172-181 | the fitted subtree holds the node's rows at its depth, and every split column exists |
| DTRegressor.SplitTree | src/ScratchML/DecisionTrees/_abstract.py:119-129 | the same for the split branch of `_fit` |
| DTRegressor.BuildSplitsPartition | src/ScratchML/DecisionTrees/regressor.py:165-169 | every internal node passed the gate, and its children are non-empty, one level deeper and split its rows exactly |
| DTRegressor.BuildHeight | src/ScratchML/DecisionTrees/_abstract.py:79 | the fitted tree is at most `maxDepth - depth` splits high; grown from a depth within `maxDepth`, no node is deeper than `maxDepth`; every child holds strictly fewer rows than its parent, all of them the parent's |
| DTRegressor.BuildMeansStored | src/ScratchML/DecisionTrees/regressor.py:31 | every node predicts the mean label of its own rows |
| DTRegressor.BuildCalibratedSplits | src/ScratchML/DecisionTrees/regressor.py:110-129 | every internal node stores an examined column with a non-negative SSR, or the defaults |
| DTRegressor.CalibratedRoutable | src/ScratchML/DecisionTrees/_abstract.py:178-189 | with distinct column names and no fallback split, every internal node routes its own rows |
| DTRegressor.PredictTrainingRowMean | src/ScratchML/DecisionTrees/regressor.py:186-202 | a training row is predicted as the mean label of its leaf, which lies between that leaf's smallest and largest label |
| DTRegressor.LeafMeansWithin | src/ScratchML/DecisionTrees/regressor.py:198-200 | every leaf of a split tree that stores means predicts a number between the smallest and the largest label of the root's rows |
| DTRegressor.PredictWithinTrainingLabels | src/ScratchML/DecisionTrees/regressor.py:186-202 | `predict` on a fitted regressor gives any sample it can route a number between the smallest and the largest training label |
| DTRegressor.DTRegressor.constructor | src/ScratchML/DecisionTrees/regressor.py:142-154 | the limits and a fresh root at depth 0 |
| DTRegressor.DTRegressor.Split | src/ScratchML/DecisionTrees/regressor.py:157-169 | calibrate, then two fresh children on `dfB`/`dfA` one level deeper, or no children |
| DTRegressor.DTRegressor.Calibrate | src/ScratchML/DecisionTrees/_abstract.py:93 | the node holds `_bestSplit`'s calibration |
| DTRegressor.DTRegressor.Grow | src/ScratchML/DecisionTrees/regressor.py:165-169 | partition by the stored split; children only when both sides have rows |
| DTRegressor.DTRegressor.AttachChildren | src/ScratchML/DecisionTrees/regressor.py:168-169 | `right` is a fresh node on `dfA`, `left` on `dfB`, both one level deeper |
| DTRegressor.DTRegressor.FitNode | src/ScratchML/DecisionTrees/regressor.py:172-181 | the subtree grown in place is `Build` of the node |
| DTRegressor.DTRegressor.FitSplit | src/ScratchML/DecisionTrees/_abstract.py:119-129 | the subtree grown in place is `SplitTree` of the node |
| DTRegressor.DTRegressor.FitSplitChildren | src/ScratchML/DecisionTrees/_abstract.py:128-129 | after `_split`, the node and the children it has are grown in place into `SplitTree` of the node |
| DTRegressor.DTRegressor.FitChildren | src/ScratchML/DecisionTrees/_abstract.py:128-129 | both children are grown as `Build` says |
| DTRegressor.DTRegressor.FitLeft | src/ScratchML/DecisionTrees/_abstract.py:128 | the left child is grown as `Build` says; the right stays fresh |
| DTRegressor.DTRegressor.FitRight | src/ScratchML/DecisionTrees/_abstract.py:129 | the right child is grown as `Build` says; the left is unchanged |
| DTRegressor.DTRegressor.Fit | src/ScratchML/DecisionTrees/_abstract.py:110-115 | the root's subtree is the fitted tree of its rows |
| DTRegressor.DTRegressor.PredictAt | src/ScratchML/DecisionTrees/regressor.py:186-202 | `_predict` from a node is `PredictTree` of its subtree |
| DTRegressor.DTRegressor.Predict | src/ScratchML/DecisionTrees/_abstract.py:151-162 | `predict` is `PredictTree` of the fitted tree |
| Reals.Fraction | src/ScratchML/metrics/classification.py:66-69 | a count over a non-empty total that contains it lies in [0, 1] and is 1 exactly when the count is the whole total |
| ClassificationMetrics.ConfusionMatrix | src/ScratchML/metrics/classification.py:4-39 | the counts exist exactly when the two lists have the same length |
| ClassificationMetrics.CountUpTo | src/ScratchML/metrics/classification.py:23-36 | every label pair is counted exactly once: the four counts add up to the number of pairs |
| ClassificationMetrics.CountsArePositions | src/ScratchML/metrics/classification.py:25-36 | TP counts positions where both labels are `cls_x`, TN where neither is, FP where only the true one is, FN where only the prediction is |
| ClassificationMetrics.CountsAddUp | src/ScratchML/metrics/classification.py:23-36 | TP+FP is the number of true `cls_x` and TN+FN the rest; TP+FN is the number of predicted `cls_x` and TN+FP the rest |
| ClassificationMetrics.NoFalseCounts | src/ScratchML/metrics/classification.py:25-36 | FP+FN is 0 exactly when every one-hot prediction matches the truth |
| ClassificationMetrics.Ratios | src/ScratchML/metrics/classification.py:65-72 | the six ratios fail exactly when the total, TP+FN, TN+FP or TP+FP is 0; each lies in [0, 1]; accuracy is 1 iff FP = FN = 0 |
| ClassificationMetrics.CommonMetrics | src/ScratchML/metrics/classification.py:41-72 | it fails with a length mismatch exactly when the lengths differ, and every ratio of a success lies in [0, 1] |
| ClassificationMetrics.CommonMetricsSpec | src/ScratchML/metrics/classification.py:41-72 | `common_metrics` succeeds iff the lengths agree, some true label is `cls_x` and the predictions hold both `cls_x` and something else; then accuracy is 1 iff every one-hot prediction matches |

## Left out

- The graphviz drawing is not modelled because it only feeds display. This covers `graph`, `graph.node` in both `_fit`s, `__connect_graph`, `display`, `is_notebook` and `__str__`. The node `id` is kept as a counter value.
- `ClassifierNode.giniScore` is never called, and its `2*pA(1-pA)` calls a number, so it could not run.
- `DecisionNode._bestSplit` in the base class does nothing.
- DecisionNode.py is a second copy of the base node in _abstract.py. Both are modelled by the same fields.
- `consts.py` reads a CSV file. Its label settings are parameters here and its data splits are not modelled.
- `PredictionModel` in `_model_types.py` only declares `fit`/`predict`, and `__init__.py` only re-exports names.
- metrics/regression.py is not part of this model.
- pandas and numpy mechanics are not modelled: dtypes, object arrays and rebuilding `DataFrame`s from arrays. Rows are sequences of exact reals, so floating-point rounding and NaN are not modelled either.
- Class labels are strings in the code and are encoded as numbers here.
- RegressionNode.MeanLabel: numpy's mean of an empty column is NaN with a warning. The model returns `None` instead.
- DTClassifier.DTClassifier.FitNode does not model the `isinstance(classA, int)` fallback of `_fit`, because `count_class_num` always returns an integer count here.
- ClassifierNode.CountClassNum does not model the `except` branch of `count_class_num`, because selecting from well-formed rows never raises.
- `_fit` called on a missing child (`node is None`) is not modelled as a call. The model never calls it, and `DecisionTree.CanSplit` with `None` is false, as in the code.
- DecisionTree.PredictTrainingRow and DTRegressor.PredictTrainingRowMean assume every internal node can route its rows (`Routable`). A fallback split on column 0 with the empty name fails with `MissingFeature` instead.
- ClassificationMetrics.ConfusionMatrix takes no `labelName` parameter, because the code never reads it.
