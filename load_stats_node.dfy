/**
 * Per-prefix load statistics `LoadStatsNode`
 * (extensions/stats/load-stats-node.h, extensions/stats/load-stats-node.cc):
 * a map from face to that face's `LoadStatsFace`.
 *
 * A node is the payload of a trie node and is held there by value, so, as for
 * `LoadStatsFace`, an in-place update is modelled by the updated value. The
 * loops of the source (`Step`, `operator +=`, `IsZero`) are methods of the
 * datatype, each proved equal to the function that specifies it.
 */
module LoadStatsNode {
  import opened LoadStats
  import opened LoadStatsFace
  import opened Names

  datatype LoadStatsNode = LoadStatsNode(incoming: map<FaceId, LoadStatsFace>)
  {
    /** `m_incoming [face]` read for update: the entry, or a fresh one if absent. */
    function Entry(face: FaceId): (r: LoadStatsFace)
      ensures face in incoming ==> r == incoming[face]
      ensures face !in incoming ==> r == Fresh
    {
      if face in incoming then incoming[face] else Fresh
    }

    /** `LoadStatsNode::AddIncoming`: `m_incoming [face].count ()++`. */
    function AddIncoming(face: FaceId): (r: LoadStatsNode)
      ensures r.incoming.Keys == incoming.Keys + {face}
      ensures r.incoming[face].count == Incremented(Entry(face).count)
      ensures r.incoming[face].unsatisfied == Entry(face).unsatisfied
      ensures forall g :: g in incoming && g != face ==> r.incoming[g] == incoming[g]
    {
      LoadStatsNode(incoming[face := Entry(face).CountOne()])
    }

    /** `LoadStatsNode::AddUnsatisfied`: `m_incoming [face].unsatisfied ()++`. */
    function AddUnsatisfied(face: FaceId): (r: LoadStatsNode)
      ensures r.incoming.Keys == incoming.Keys + {face}
      ensures r.incoming[face].unsatisfied == Incremented(Entry(face).unsatisfied)
      ensures r.incoming[face].count == Entry(face).count
      ensures forall g :: g in incoming && g != face ==> r.incoming[g] == incoming[g]
    {
      LoadStatsNode(incoming[face := Entry(face).UnsatisfiedOne()])
    }

    /** What `Step` computes: every entry stepped once, the faces unchanged. */
    function Stepped(): (r: LoadStatsNode)
      ensures r.incoming.Keys == incoming.Keys
      ensures forall f :: f in incoming ==> r.incoming[f] == incoming[f].Step()
    {
      LoadStatsNode(map f | f in incoming :: incoming[f].Step())
    }

    /** `LoadStatsNode::Step`: the loop over the map that steps every entry. */
    method Step() returns (r: LoadStatsNode)
      ensures r == Stepped()
    {
      var acc := incoming;
      var todo := incoming.Keys;
      while todo != {}
        invariant todo <= incoming.Keys && acc.Keys == incoming.Keys
        invariant forall f :: f in todo ==> acc[f] == incoming[f]
        invariant forall f :: f in incoming && f !in todo ==> acc[f] == incoming[f].Step()
        decreases todo
      {
        var f :| f in todo;
        acc := acc[f := acc[f].Step()];
        todo := todo - {f};
      }
      r := LoadStatsNode(acc);
    }

    /**
     * What `operator +=` computes: the faces of both nodes; a face of `other`
     * has its entry added into this node's entry (a fresh one if this node has
     * none); a face only of this node keeps its entry.
     */
    function Plus(other: LoadStatsNode): (r: LoadStatsNode)
      ensures r.incoming.Keys == incoming.Keys + other.incoming.Keys
      ensures forall f :: f in other.incoming ==> r.incoming[f] == Entry(f).Plus(other.incoming[f])
      ensures forall f :: f in incoming && f !in other.incoming ==> r.incoming[f] == incoming[f]
    {
      LoadStatsNode(map f | f in incoming.Keys + other.incoming.Keys ::
                      if f in other.incoming then Entry(f).Plus(other.incoming[f]) else incoming[f])
    }

    /**
     * The state of `operator +=` with the faces `todo` of `other` still to
     * add: the faces done hold their sums, every other face its own entry.
     */
    predicate PartlyAdded(acc: map<FaceId, LoadStatsFace>, other: LoadStatsNode, todo: set<FaceId>)
    {
      && todo <= other.incoming.Keys
      && acc.Keys == incoming.Keys + (other.incoming.Keys - todo)
      && (forall f :: f in other.incoming && f !in todo ==> acc[f] == Entry(f).Plus(other.incoming[f]))
      && (forall f :: f in todo && f in incoming ==> acc[f] == incoming[f])
      && (forall f :: f in incoming && f !in other.incoming ==> acc[f] == incoming[f])
    }

    lemma PartlyAddedStep(acc: map<FaceId, LoadStatsFace>, other: LoadStatsNode, todo: set<FaceId>, f: FaceId)
      requires PartlyAdded(acc, other, todo) && f in todo
      ensures f in acc ==> acc[f] == Entry(f)
      ensures PartlyAdded(acc[f := Entry(f).Plus(other.incoming[f])], other, todo - {f})
    {
    }

    lemma PartlyAddedDone(acc: map<FaceId, LoadStatsFace>, other: LoadStatsNode)
      requires PartlyAdded(acc, other, {})
      ensures LoadStatsNode(acc) == Plus(other)
    {
      assert acc == Plus(other).incoming;
    }

    /** `LoadStatsNode::operator +=`: the loop over the faces of `other`. */
    method Add(other: LoadStatsNode) returns (r: LoadStatsNode)
      ensures r == Plus(other)
    {
      var acc := incoming;
      var todo := other.incoming.Keys;
      while todo != {}
        invariant PartlyAdded(acc, other, todo)
        decreases todo
      {
        var f :| f in todo;
        var current := if f in acc then acc[f] else Fresh;
        PartlyAddedStep(acc, other, todo, f);
        acc := acc[f := current.Plus(other.incoming[f])];
        todo := todo - {f};
      }
      PartlyAddedDone(acc, other);
      r := LoadStatsNode(acc);
    }

    /** What `IsZero` computes: every entry is zero (so a node without entries is zero). */
    predicate AllZero(zero: ZeroTest)
    {
      forall f :: f in incoming ==> incoming[f].IsZero(zero)
    }

    /** `LoadStatsNode::IsZero`: the loop accumulating `zero &= item->second.IsZero ()`. */
    method IsZero(zero: ZeroTest) returns (b: bool)
      ensures b <==> forall f :: f in incoming ==> zero(incoming[f].count) && zero(incoming[f].unsatisfied)
      ensures b == AllZero(zero)
    {
      b := true;
      var todo := incoming.Keys;
      while todo != {}
        invariant todo <= incoming.Keys
        invariant b <==> forall f :: f in incoming && f !in todo ==> incoming[f].IsZero(zero)
        decreases todo
      {
        var f :| f in todo;
        b := b && incoming[f].IsZero(zero);
        todo := todo - {f};
      }
    }

    /** `LoadStatsNode::RemoveFace`: `m_incoming.erase (face)`. */
    function RemoveFace(face: FaceId): (r: LoadStatsNode)
      ensures r.incoming.Keys == incoming.Keys - {face}
      ensures forall f :: f in r.incoming ==> r.incoming[f] == incoming[f]
      ensures face !in incoming ==> r == this
    {
      LoadStatsNode(incoming - {face})
    }

    /**
     * `LoadStatsNode::operator ==`: false as soon as `other` has an entry,
     * otherwise whether this node is zero. It is not reflexive: a node with
     * entries is never equal to itself.
     */
    predicate Equals(other: LoadStatsNode, zero: ZeroTest)
      ensures |other.incoming| > 0 ==> !Equals(other, zero)
      ensures |other.incoming| == 0 ==> (Equals(other, zero) <==> AllZero(zero))
    {
      if |other.incoming| > 0 then false else AllZero(zero)
    }

    /** `LoadStatsNode::operator !=`. */
    predicate NotEquals(other: LoadStatsNode, zero: ZeroTest)
      ensures NotEquals(other, zero) <==> !Equals(other, zero)
    {
      !Equals(other, zero)
    }

    /**
     * The current (unsatisfied, count) values of `face`, read with `value`
     * (`GetStats ().get<0> ()`), as the strategies read them: both 0 when the
     * face has no entry.
     */
    function Readings(face: FaceId, value: Readout): (r: (real, real))
    {
      if face in incoming then (value(incoming[face].unsatisfied), value(incoming[face].count))
      else (0.0, 0.0)
    }
  }

  /** `LoadStatsNode ()`: no entries. */
  function Empty(): (r: LoadStatsNode)
    ensures r.incoming == map[]
    ensures forall zero: ZeroTest :: r.AllZero(zero)
  {
    LoadStatsNode(map[])
  }

  /** The copy constructor `LoadStatsNode (const LoadStatsNode &)` copies nothing. */
  function CopyOf(other: LoadStatsNode): (r: LoadStatsNode)
    ensures r == Empty()
  {
    LoadStatsNode(map[])
  }

  /** `operator = (const LoadStatsNode &other)` copies nothing and keeps `target`. */
  function Assigned(target: LoadStatsNode, other: LoadStatsNode): (r: LoadStatsNode)
    ensures r == target
  {
    target
  }

  /**
   * The test the trie's `prune_node` applies to a node (`payload == LoadStatsNode ()`)
   * is whether every counter of every entry is zero.
   */
  lemma EqualsEmptyMeansAllCountersZero(n: LoadStatsNode, zero: ZeroTest)
    ensures n.Equals(Empty(), zero) <==>
              forall f :: f in n.incoming ==> zero(n.incoming[f].count) && zero(n.incoming[f].unsatisfied)
  {
  }

  /** `operator ==` is not reflexive: a node with entries is not equal to itself. */
  lemma EqualsNotReflexive(n: LoadStatsNode, zero: ZeroTest)
    requires n.incoming != map[]
    ensures !n.Equals(n, zero)
  {
    assert |n.incoming| > 0;
  }

  /** Recording a forwarded and an unsatisfied Interest commute, for any faces. */
  lemma AddIncomingAddUnsatisfiedCommute(n: LoadStatsNode, f: FaceId, g: FaceId)
    ensures n.AddIncoming(f).AddUnsatisfied(g) == n.AddUnsatisfied(g).AddIncoming(f)
  {
    var a := n.AddIncoming(f).AddUnsatisfied(g);
    var b := n.AddUnsatisfied(g).AddIncoming(f);
    assert a.incoming.Keys == b.incoming.Keys;
    forall h | h in a.incoming ensures a.incoming[h] == b.incoming[h] {
    }
  }

}
