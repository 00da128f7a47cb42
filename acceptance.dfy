/**
 * `SatisfactionBasedInterestAcceptance::CanSendOutInterest`
 * (extensions/strategies/satisfaction-based-interest-acceptance.h): before
 * the parent strategy decides, an Interest from a face whose Interests often
 * go unsatisfied is dropped at random, with probability equal to the face's
 * unsatisfied ratio, once the face sends more than its grace share of the
 * FIB entry's allowance.
 *
 * The uniform draw `chance` in [0, 1) and the parent strategy's own decision
 * are parameters.
 */
module InterestAcceptance {
  import opened Names
  import opened LoadStats
  import opened LoadStatsNode
  import opened Limits
  import opened Stats

  function Min(a: real, b: real): real
  {
    if a <= b then a else b
  }

  /**
   * `weight = 1.00 - std::min (1.00, unsatisfiedAbs / countAbs)`: the
   * chance of being let through. It is only evaluated with
   * `unsatisfied > 0`, so a zero count gives an infinite ratio and weight 0.
   */
  function Weight(unsatisfied: real, count: real): (w: real)
  {
    if count == 0.0 then 0.0 else 1.0 - Min(1.0, unsatisfied / count)
  }

  /** The guard of the random drop: limited FIB entry, count above the grace share, some unsatisfied. */
  predicate Considered(unsatisfied: real, count: real, totalAllowance: real, unlimited: bool, grace: real)
  {
    !unlimited && count > grace * totalAllowance && unsatisfied > 0.0
  }

  /** This layer refuses the Interest: it was considered and the draw exceeds the weight. */
  predicate Dropped(unsatisfied: real, count: real, totalAllowance: real, unlimited: bool, grace: real, chance: real)
  {
    Considered(unsatisfied, count, totalAllowance, unlimited, grace) && chance > Weight(unsatisfied, count)
  }

  /**
   * The decision: `inFace`'s statistics are read from the root of the
   * statistics trie (`GetStats (Name ())`), the allowance from the FIB
   * entry's faces; the Interest is refused when this layer drops it, and
   * otherwise the parent strategy decides.
   */
  method CanSendOutInterest(stats: Stats, table: LimitTable, fibFaces: seq<FaceId>, inFace: FaceId,
                            grace: real, chance: real, value: Readout, parentAccepts: bool)
    returns (accept: bool)
    requires forall i :: 0 <= i < |fibFaces| ==> fibFaces[i] in table.limits
    ensures var readings := stats.tree.payload.Readings(inFace, value);
      accept == (parentAccepts &&
                 !Dropped(readings.0, readings.1, SumOfLimits(fibFaces, table.limits),
                          AnyDisabled(fibFaces, table.limits), grace, chance))
  {
    var totalAllowance, unlimited := table.TotalAllowance(fibFaces);
    var unsatisfiedAbs := 0.0;
    var countAbs := 0.0;
    var root := stats.GetStats([]);
    assert root == stats.tree.payload;
    if inFace in root.incoming {
      unsatisfiedAbs := value(root.incoming[inFace].unsatisfied);
      countAbs := value(root.incoming[inFace].count);
    }
    if !unlimited && countAbs > grace * totalAllowance && unsatisfiedAbs > 0.0 {
      if unsatisfiedAbs < 0.0 {
        // the clamp to 0 of the source can never run under this guard
        assert false;
      }
      var weight := Weight(unsatisfiedAbs, countAbs);
      if chance > weight {
        return false;
      }
    }
    accept := parentAccepts;
  }

  // ---------------------------------------------------------------------------
  // Properties of the decision

  /** With non-negative grace and limits, a considered face has a positive count, so the ratio is defined. */
  lemma ConsideredHasPositiveCount(unsatisfied: real, count: real, fibFaces: seq<FaceId>,
                                   table: map<FaceId, Limiter>, grace: real)
    requires forall i :: 0 <= i < |fibFaces| ==> fibFaces[i] in table && table[fibFaces[i]].currentLimit >= 0.0
    requires grace >= 0.0
    requires Considered(unsatisfied, count, SumOfLimits(fibFaces, table), AnyDisabled(fibFaces, table), grace)
    ensures count > 0.0
  {
    SumOfLimitsNonNegative(fibFaces, table);
  }

  /** A considered face's weight lies in [0, 1] and is the satisfied fraction of its Interests. */
  lemma WeightIsSatisfiedFraction(unsatisfied: real, count: real)
    requires count > 0.0 && unsatisfied > 0.0
    ensures 0.0 <= Weight(unsatisfied, count) < 1.0
    ensures unsatisfied <= count ==> Weight(unsatisfied, count) == (count - unsatisfied) / count
    ensures unsatisfied >= count ==> Weight(unsatisfied, count) == 0.0
  {
    assert unsatisfied / count > 0.0;
    if unsatisfied <= count {
      assert unsatisfied / count <= 1.0;
      var q := unsatisfied / count;
      assert q * count == unsatisfied;
      assert (1.0 - q) * count == count - unsatisfied;
      QuotientUnique(1.0 - q, count - unsatisfied, count);
    }
  }

  lemma QuotientUnique(x: real, y: real, c: real)
    requires c != 0.0 && x * c == y
    ensures x == y / c
  {
    assert (y / c) * c == y;
    assert (x - y / c) * c == 0.0;
  }

  /**
   * The draws this layer lets through form the interval `[0, weight]`: a
   * draw is dropped exactly when it lies above the weight of a considered
   * face. So a draw uniform over [0, 1) passes with probability `weight`.
   */
  lemma DroppedDrawsAreAboveWeight(unsatisfied: real, count: real, totalAllowance: real, unlimited: bool,
                                   grace: real, low: real, high: real)
    requires low <= high
    ensures Dropped(unsatisfied, count, totalAllowance, unlimited, grace, low) ==>
              Dropped(unsatisfied, count, totalAllowance, unlimited, grace, high)
    ensures !Considered(unsatisfied, count, totalAllowance, unlimited, grace) ==>
              !Dropped(unsatisfied, count, totalAllowance, unlimited, grace, high)
  {
  }

  /**
   * A face without statistics at the root, or whose Interests were all
   * satisfied, is never dropped by this layer; neither is any face when a
   * FIB face has its limiter disabled.
   */
  lemma NeverDroppedWithoutUnsatisfied(node: LoadStatsNode, inFace: FaceId, value: Readout,
                                       fibFaces: seq<FaceId>, table: map<FaceId, Limiter>, grace: real, chance: real)
    requires forall i :: 0 <= i < |fibFaces| ==> fibFaces[i] in table
    requires inFace !in node.incoming || value(node.incoming[inFace].unsatisfied) <= 0.0
             || AnyDisabled(fibFaces, table)
    ensures !Dropped(node.Readings(inFace, value).0, node.Readings(inFace, value).1,
                     SumOfLimits(fibFaces, table), AnyDisabled(fibFaces, table), grace, chance)
  {
  }

  /** A face whose Interests all went unsatisfied is dropped on every draw above 0 once considered. */
  lemma FullyUnsatisfiedDropped(unsatisfied: real, count: real, totalAllowance: real, grace: real, chance: real)
    requires count > 0.0 && unsatisfied >= count
    requires count > grace * totalAllowance
    requires chance > 0.0
    ensures Dropped(unsatisfied, count, totalAllowance, false, grace, chance)
  {
    assert unsatisfied / count >= 1.0;
  }
}
