/**
 * Impurity scores as the tree code compares them: a finite number or the
 * `float('inf')` sentinel that marks a split nobody should choose, and the
 * "keep the first strict minimum" scan that every split search runs.
 */
module Score {

  /** A score is a finite real or +infinity. */
  datatype Score = Inf | Fin(v: real)

  /** Python's `<` on floats restricted to finite values and +inf. */
  predicate Less(a: Score, b: Score) {
    match (a, b)
    case (Fin(x), Fin(y)) => x < y
    case (Fin(_), Inf) => true
    case (Inf, _) => false
  }

  /** `a <= b`, which is `not (b < a)` for this total order. */
  predicate AtMost(a: Score, b: Score) {
    !Less(b, a)
  }

  lemma LessTransitive(a: Score, b: Score, c: Score)
    requires Less(a, b) && AtMost(b, c)
    ensures Less(a, c)
  {
  }

  lemma AtMostTransitive(a: Score, b: Score, c: Score)
    requires AtMost(a, b) && AtMost(b, c)
    ensures AtMost(a, c)
  {
  }

  /**
   * The loop `for c in cands: if c.score < best.score: best = c`, written as
   * a fold over the prefix processed so far (so that a loop invariant can
   * name it).
   */
  function Scan<T>(cands: seq<(Score, T)>, init: (Score, T)): (Score, T)
    decreases |cands|
  {
    if cands == [] then init
    else
      var best := Scan(cands[..|cands| - 1], init);
      var c := cands[|cands| - 1];
      if Less(c.0, best.0) then c else best
  }

  /** Extending the scanned prefix by one candidate is one more loop step. */
  lemma ScanStep<T>(cands: seq<(Score, T)>, i: nat, init: (Score, T))
    requires i < |cands|
    ensures Scan(cands[..i + 1], init)
      == if Less(cands[i].0, Scan(cands[..i], init).0) then cands[i] else Scan(cands[..i], init)
  {
    assert cands[..i + 1][..i] == cands[..i];
  }

  /** The candidate at `j` is the first strict minimum of `cands` below `bound`. */
  ghost predicate FirstStrictMin<T>(cands: seq<(Score, T)>, j: int, bound: Score)
  {
    && 0 <= j < |cands|
    && Less(cands[j].0, bound)
    && (forall k :: 0 <= k < j ==> Less(cands[j].0, cands[k].0))
    && (forall k :: j < k < |cands| ==> AtMost(cands[j].0, cands[k].0))
  }

  /**
   * What the scan returns: the initial pair when no candidate beats it, and
   * otherwise the first candidate whose score is strictly smaller than the
   * initial score and than every earlier candidate, and no larger than any
   * later one.
   */
  lemma {:induction false} ScanIsFirstStrictMin<T>(cands: seq<(Score, T)>, init: (Score, T))
    ensures var r := Scan(cands, init);
      && AtMost(r.0, init.0)
      && (forall k :: 0 <= k < |cands| ==> AtMost(r.0, cands[k].0))
      && ((r == init && forall k :: 0 <= k < |cands| ==> AtMost(init.0, cands[k].0))
          || (exists j :: FirstStrictMin(cands, j, init.0) && r == cands[j]))
    decreases |cands|
  {
    if cands != [] {
      var n := |cands| - 1;
      var pre := cands[..n];
      ScanIsFirstStrictMin(pre, init);
      var best := Scan(pre, init);
      var c := cands[n];
      assert forall k :: 0 <= k < n ==> cands[k] == pre[k];
      if Less(c.0, best.0) {
        assert FirstStrictMin(cands, n, init.0) by {
          LessTransitive(c.0, best.0, init.0);
          forall k | 0 <= k < n ensures Less(c.0, cands[k].0) {
            LessTransitive(c.0, best.0, cands[k].0);
          }
        }
      } else {
        if best == init && forall k :: 0 <= k < n ==> AtMost(init.0, pre[k].0) {
        } else {
          var j :| FirstStrictMin(pre, j, init.0) && best == pre[j];
          assert FirstStrictMin(cands, j, init.0);
        }
      }
    }
  }
}
