/**
 * The `Stats` forwarding-strategy extension (extensions/stats.h,
 * extensions/stats.cc). It keeps a trie of per-prefix, per-face load
 * statistics: every Interest sent out counts against the prefix of its name
 * without the last component and the face it came from, every timed-out PIT
 * entry counts as unsatisfied for each of its incoming faces, and once per
 * second the whole trie is aggregated bottom-up, stepped and pruned.
 *
 * The one-second timer is the host's: `NotifyNewAggregate` reports whether a
 * first refresh must be scheduled, and `RefreshStats` reports whether it
 * reschedules itself.
 */
module Stats {
  import opened Wrappers
  import opened Names
  import opened LoadStats
  import opened LoadStatsNode
  import opened StatsTrie

  /** The payload after `AddUnsatisfied` for each face of `faces`, in order. */
  function UnsatisfiedFor(n: LoadStatsNode, faces: seq<FaceId>): (r: LoadStatsNode)
    decreases |faces|
  {
    if faces == [] then n else UnsatisfiedFor(n.AddUnsatisfied(faces[0]), faces[1..])
  }

  /**
   * Counting a timed-out entry with distinct incoming faces: each of those
   * faces gets one more unsatisfied Interest, its sent-Interest counter and
   * every other face stay as they were.
   */
  lemma {:induction false} UnsatisfiedForCounts(n: LoadStatsNode, faces: seq<FaceId>)
    requires forall i, j :: 0 <= i < j < |faces| ==> faces[i] != faces[j]
    ensures forall f :: f in UnsatisfiedFor(n, faces).incoming <==> f in n.incoming || f in faces
    ensures forall f :: f in faces ==>
      UnsatisfiedFor(n, faces).incoming[f].unsatisfied == Incremented(n.Entry(f).unsatisfied) &&
      UnsatisfiedFor(n, faces).incoming[f].count == n.Entry(f).count
    ensures forall f :: f in n.incoming && f !in faces ==> UnsatisfiedFor(n, faces).incoming[f] == n.incoming[f]
    decreases |faces|
  {
    if faces != [] {
      var m := n.AddUnsatisfied(faces[0]);
      var rest := faces[1..];
      UnsatisfiedForCounts(m, rest);
      assert forall f :: f in faces <==> f == faces[0] || f in rest;
      assert faces[0] !in rest;
      forall f | f in rest
        ensures m.Entry(f) == n.Entry(f)
      {
        assert f != faces[0];
      }
    }
  }

  class Stats {
    /** `m_tree`: the statistics trie; its root stands for the empty name. */
    var tree: Trie
    /** `m_statsRefreshScheduled`. */
    var refreshScheduled: bool
    /** The smoothed counters' `IsZero` test, used by the tree's pruning. */
    const zero: ZeroTest

    predicate Valid()
      reads this
    {
      WellFormed(tree)
    }

    /** A fresh strategy: a single root node with an empty payload, no refresh scheduled. */
    constructor(zero: ZeroTest)
      ensures Valid()
      ensures tree == Leaf() && !refreshScheduled && this.zero == zero
    {
      tree := Leaf();
      refreshScheduled := false;
      this.zero := zero;
    }

    /**
     * `NotifyNewAggregate`: the first time the strategy is aggregated to a
     * node, the periodic refresh is switched on and its first run must be
     * scheduled one second later; `scheduleNow` says whether that happens.
     */
    method NotifyNewAggregate(attachedToNode: bool) returns (scheduleNow: bool)
      modifies this
      ensures scheduleNow == (!old(refreshScheduled) && attachedToNode)
      ensures refreshScheduled == (old(refreshScheduled) || attachedToNode)
      ensures tree == old(tree)
    {
      scheduleNow := false;
      if !refreshScheduled {
        if attachedToNode {
          refreshScheduled := true;
          scheduleNow := true;
        }
      }
    }

    /** `DoDispose`: the refresh loop stops at its next tick. */
    method DoDispose()
      modifies this
      ensures !refreshScheduled && tree == old(tree)
    {
      refreshScheduled := false;
    }

    /**
     * `DidSendOutInterest`: the Interest's name without its last component
     * is found or created in the trie and `inFace`'s sent-Interest counter
     * there is incremented. Nothing else in the trie changes.
     */
    method DidSendOutInterest(inFace: FaceId, name: Name)
      requires Valid()
      modifies this
      ensures Valid()
      ensures tree == Update(old(tree), WithoutLast(name), (n: LoadStatsNode) => n.AddIncoming(inFace))
      ensures forall p :: (PayloadAt(tree, p) ==
        if p == WithoutLast(name) then Some(PayloadOr(old(tree), p).AddIncoming(inFace))
        else if IsPrefix(p, WithoutLast(name)) then Some(PayloadOr(old(tree), p))
        else PayloadAt(old(tree), p))
      ensures refreshScheduled == old(refreshScheduled)
    {
      var key := WithoutLast(name);
      var op := (n: LoadStatsNode) => n.AddIncoming(inFace);
      forall p {
        UpdateLookup(tree, key, op, p);
      }
      UpdateWellFormed(tree, key, op);
      tree := Update(tree, key, op);
    }

    /**
     * `WillEraseTimedOutPendingInterest`: the entry's name without its last
     * component is found or created, then every incoming face of the entry
     * gets one unsatisfied Interest there.
     */
    method WillEraseTimedOutPendingInterest(prefix: Name, incoming: seq<FaceId>)
      requires Valid()
      modifies this
      ensures Valid()
      ensures tree == Update(old(tree), WithoutLast(prefix), (n: LoadStatsNode) => UnsatisfiedFor(n, incoming))
      ensures refreshScheduled == old(refreshScheduled)
    {
      var key := WithoutLast(prefix);
      var start := PayloadOr(tree, key);
      var payload := start;
      var i := 0;
      while i < |incoming|
        invariant 0 <= i <= |incoming|
        invariant UnsatisfiedFor(payload, incoming[i..]) == UnsatisfiedFor(start, incoming)
      {
        assert incoming[i..][1..] == incoming[i + 1..];
        payload := payload.AddUnsatisfied(incoming[i]);
        i := i + 1;
      }
      assert incoming[i..] == [];
      var spec := (n: LoadStatsNode) => UnsatisfiedFor(n, incoming);
      var done := (n: LoadStatsNode) => payload;
      UpdateSameAt(tree, key, done, spec);
      UpdateWellFormed(tree, key, done);
      tree := Update(tree, key, done);
    }

    /**
     * `WalkLeftRightRoot`: each child in turn is walked, its payload (before
     * stepping) is added to the node's, then the child is stepped and pruned
     * if it has become a childless empty node.
     */
    method WalkLeftRightRoot(t: Trie) returns (r: Trie)
      ensures r == Walk(t, zero)
      decreases t, 1
    {
      var acc := t.payload;
      var kept: seq<Child> := [];
      var i := 0;
      WalkedUpToStart(t, zero);
      while i < |t.children|
        invariant WalkedUpTo(t, i, acc, kept, zero)
      {
        acc, kept := WalkChild(t, i, acc, kept);
        i := i + 1;
      }
      WalkedUpToEnd(t, acc, kept, zero);
      r := Trie(acc, kept);
    }

    /**
     * One turn of the loop of `WalkLeftRightRoot`: child `i` is walked, its
     * payload added to `acc`; then it is stepped and appended to `kept` unless
     * it is prunable. What remains of the walk after this turn, added to the
     * new `kept`, is what remained before, added to the old one.
     */
    method WalkChild(t: Trie, i: nat, acc: LoadStatsNode, kept: seq<Child>)
      returns (next: LoadStatsNode, kept': seq<Child>)
      requires i < |t.children|
      ensures WalkFrom(t, i + 1, next, zero).0 == WalkFrom(t, i, acc, zero).0
      ensures kept' + WalkFrom(t, i + 1, next, zero).1 == kept + WalkFrom(t, i, acc, zero).1
      decreases t, 0
    {
      var child := t.children[i];
      var walked := WalkLeftRightRoot(child.node);
      next := acc.Add(walked.payload);
      var stepped := walked.payload.Step();
      var node := Trie(stepped, walked.children);
      kept' := kept;
      if !Prunable(node, zero) {
        kept' := kept + [Child(child.key, node)];
      }
      WalkFromTurn(t, i, acc, next, kept, node, kept', zero);
    }

    /**
     * `RefreshStats`: while the refresh loop is on, the whole trie is walked
     * and the root is stepped; `rescheduled` says whether the next tick is
     * scheduled. Once switched off, nothing changes.
     */
    method RefreshStats() returns (rescheduled: bool)
      requires Valid()
      modifies this
      ensures Valid()
      ensures rescheduled == old(refreshScheduled)
      ensures old(refreshScheduled) ==> tree == Refreshed(old(tree), zero)
      ensures old(refreshScheduled) ==> tree.payload == Aggregate(old(tree)).Stepped()
      ensures !old(refreshScheduled) ==> tree == old(tree)
      ensures refreshScheduled == old(refreshScheduled)
    {
      if !refreshScheduled {
        return false;
      }
      var walked := WalkLeftRightRoot(tree);
      var root := walked.payload.Step();
      RefreshedWellFormed(tree, zero);
      RefreshedPayload(tree, zero);
      tree := Trie(root, walked.children);
      rescheduled := true;
    }

    /** `RemoveFace`: the face disappears from every node's statistics. */
    method RemoveFace(face: FaceId)
      requires Valid()
      modifies this
      ensures Valid()
      ensures tree == RemoveFaceEverywhere(old(tree), face)
      ensures refreshScheduled == old(refreshScheduled)
    {
      RemoveFaceWellFormed(tree, face);
      tree := RemoveFaceEverywhere(tree, face);
    }

    /** `GetStats`: the statistics of the deepest recorded prefix of `key`. */
    function GetStats(key: Name): (r: LoadStatsNode)
      reads this
      ensures Lookup(tree, key).Some? ==> r == Lookup(tree, key).value.payload
      ensures Lookup(tree, key[..MatchedDepth(tree, key)]).Some?
      ensures r == Lookup(tree, key[..MatchedDepth(tree, key)]).value.payload
    {
      GetStatsIsDeepest(tree, key);
      if Lookup(tree, key).Some? then GetStatsExact(tree, key); StatsTrie.GetStats(tree, key)
      else StatsTrie.GetStats(tree, key)
    }
  }
}
