/**
 * What every decision node shares (`DecisionNode` in DecisionNode.py and its
 * duplicate in _abstract.py): the split descriptor with its defaults and the
 * class-level counter that hands out node ids.
 */
module DecisionNode {

  /** `DecisionNode.cnt`: one counter shared by every node ever constructed. */
  class NodeCounter {
    var cnt: nat

    /** The class attribute starts at 0. */
    constructor ()
      ensures cnt == 0
    {
      cnt := 0;
    }

    /** `self.id = str(DecisionNode.cnt); DecisionNode.cnt += 1`. */
    method Next() returns (id: nat)
      modifies this
      ensures id == old(cnt) && cnt == old(cnt) + 1
    {
      id := cnt;
      cnt := cnt + 1;
    }
  }

  /**
   * The split descriptor a node stores: the column's name and position and
   * the value it compares against (a threshold for a numeric column, the
   * value tested for equality for a two-valued one).
   */
  datatype SplitRule = SplitRule(featureName: string, featureIndex: nat, featureVal: real)

  /** The descriptor a fresh node starts with: `featureName = ""`, `featureIndex = 0`, `featureVal = 0`. */
  const InitialRule := SplitRule("", 0, 0.0)
}
