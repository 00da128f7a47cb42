/**
 * The name trie of load statistics held by the `Stats` strategy
 * (extensions/stats.h, extensions/stats.cc): one `LoadStatsNode` per name
 * prefix that was ever recorded, the root standing for the empty name.
 *
 * The `ndnSIM::trie` container is not modelled; it is represented as a
 * value: a payload and a sequence of children with distinct keys. The
 * container keeps a node's children in a hashed set, so the order in which
 * it visits them is unspecified. The sequence order, with new children
 * appended at the end, is the model's choice of that order; it fixes the
 * order of the `+=` terms a walk adds into a payload, which the container
 * leaves open.
 */
module StatsTrie {
  import opened Wrappers
  import opened Names
  import opened LoadStats
  import opened LoadStatsNode

  datatype Trie = Trie(payload: LoadStatsNode, children: seq<Child>)
  datatype Child = Child(key: Component, node: Trie)

  /** A node created by `insert` on the way to a new key: empty payload, no children. */
  function Leaf(): (r: Trie)
    ensures r.payload == Empty() && r.children == []
  {
    Trie(Empty(), [])
  }

  /** Sibling keys are distinct, at every level. */
  predicate WellFormed(t: Trie)
    decreases t
  {
    && (forall i, j :: 0 <= i < j < |t.children| ==> t.children[i].key != t.children[j].key)
    && (forall i :: 0 <= i < |t.children| ==> WellFormed(t.children[i].node))
  }

  /** The same condition on a sequence of children: `WellFormed (Trie (p, cs))`. */
  predicate WellFormedChildren(cs: seq<Child>)
  {
    && (forall i, j :: 0 <= i < j < |cs| ==> cs[i].key != cs[j].key)
    && (forall i :: 0 <= i < |cs| ==> WellFormed(cs[i].node))
  }

  /** The position of the child with key `k`, if there is one. */
  function ChildIndex(cs: seq<Child>, k: Component): (r: Option<nat>)
    ensures r.Some? ==> r.value < |cs| && cs[r.value].key == k
    ensures r.Some? ==> forall j :: 0 <= j < r.value ==> cs[j].key != k
    ensures r.None? <==> forall j :: 0 <= j < |cs| ==> cs[j].key != k
  {
    if |cs| == 0 then None
    else if cs[0].key == k then Some(0)
    else match ChildIndex(cs[1..], k)
      case None => None
      case Some(i) => Some(i + 1)
  }

  /** The node stored exactly at `path`, if the trie has one. */
  function Lookup(t: Trie, path: Name): (r: Option<Trie>)
    decreases |path|
  {
    if path == [] then Some(t)
    else match ChildIndex(t.children, path[0])
      case None => None
      case Some(i) => Lookup(t.children[i].node, path[1..])
  }

  /** The payload stored exactly at `path`, if any. */
  function PayloadAt(t: Trie, path: Name): (r: Option<LoadStatsNode>)
  {
    match Lookup(t, path)
    case None => None
    case Some(n) => Some(n.payload)
  }

  /** The payload at `path`, or the default one that `insert` would create there. */
  function PayloadOr(t: Trie, path: Name): (r: LoadStatsNode)
  {
    match Lookup(t, path)
    case None => Empty()
    case Some(n) => n.payload
  }

  /**
   * `m_tree.insert (key, LoadStatsNode ())` followed by an update of the payload
   * found or created at `key`: missing nodes on the way are created with an
   * empty payload.
   */
  function Update(t: Trie, key: Name, op: LoadStatsNode -> LoadStatsNode): (r: Trie)
    decreases |key|
  {
    if key == [] then Trie(op(t.payload), t.children)
    else match ChildIndex(t.children, key[0])
      case Some(i) =>
        Trie(t.payload, t.children[i := Child(key[0], Update(t.children[i].node, key[1..], op))])
      case None =>
        Trie(t.payload, t.children + [Child(key[0], Update(Leaf(), key[1..], op))])
  }

  /**
   * `Stats::GetStats` (`m_tree.find (key)` and the last node it reached): the
   * payload of the deepest node that exists on the path of `key`.
   */
  function GetStats(t: Trie, key: Name): (r: LoadStatsNode)
    decreases |key|
  {
    if key == [] then t.payload
    else match ChildIndex(t.children, key[0])
      case None => t.payload
      case Some(i) => GetStats(t.children[i].node, key[1..])
  }

  /** How many components of `key` the trie matches from the root. */
  function MatchedDepth(t: Trie, key: Name): (r: nat)
    ensures r <= |key|
    decreases |key|
  {
    if key == [] then 0
    else match ChildIndex(t.children, key[0])
      case None => 0
      case Some(i) => 1 + MatchedDepth(t.children[i].node, key[1..])
  }

  /** `Stats::RemoveFace`: `RemoveFace (face)` on the payload of every node. */
  function RemoveFaceEverywhere(t: Trie, face: FaceId): (r: Trie)
    decreases t
  {
    Trie(t.payload.RemoveFace(face),
         seq(|t.children|, i requires 0 <= i < |t.children| =>
               Child(t.children[i].key, RemoveFaceEverywhere(t.children[i].node, face))))
  }

  // ---------------------------------------------------------------------------
  // The per-tick walk (`Stats::WalkLeftRightRoot`, `Stats::RefreshStats`)

  /** `prune_node`'s test: no children left and `payload == LoadStatsNode ()`. */
  predicate Prunable(t: Trie, zero: ZeroTest)
  {
    t.children == [] && t.payload.Equals(Empty(), zero)
  }

  /**
   * `WalkLeftRightRoot (node)`: the node after its subtree was walked. Its
   * payload has every child's aggregate added in; its children are stepped,
   * and the prunable ones are gone. The node itself is not stepped.
   */
  function Walk(t: Trie, zero: ZeroTest): (r: Trie)
    decreases t, 1
  {
    var w := WalkFrom(t, 0, t.payload, zero);
    Trie(w.0, w.1)
  }

  /**
   * The loop of `WalkLeftRightRoot` from child `i` on, with `acc` the payload
   * accumulated so far: each child is walked, its aggregate is added to `acc`,
   * then it is stepped and kept unless it is prunable.
   */
  function WalkFrom(t: Trie, i: nat, acc: LoadStatsNode, zero: ZeroTest): (r: (LoadStatsNode, seq<Child>))
    requires i <= |t.children|
    decreases t, 0, |t.children| - i
  {
    if i == |t.children| then (acc, [])
    else
      var w := Walk(t.children[i].node, zero);
      var stepped := Refreshed(t.children[i].node, zero);
      var rest := WalkFrom(t, i + 1, acc.Plus(w.payload), zero);
      (rest.0, (if Prunable(stepped, zero) then [] else [Child(t.children[i].key, stepped)]) + rest.1)
  }

  /** The children of `t` from position `i` on, each refreshed, under its own key. */
  function RefreshedFrom(t: Trie, i: nat, zero: ZeroTest): (r: seq<Child>)
    requires i <= |t.children|
    ensures |r| == |t.children| - i
    ensures forall j :: 0 <= j < |r| ==> r[j].key == t.children[i + j].key
    decreases t, 4
  {
    seq(|t.children| - i, j requires 0 <= j < |t.children| - i =>
          Child(t.children[i + j].key, Refreshed(t.children[i + j].node, zero)))
  }

  /** `cs` without its prunable nodes, in order. */
  function Unpruned(cs: seq<Child>, zero: ZeroTest): (r: seq<Child>)
    decreases |cs|
  {
    if cs == [] then []
    else (if Prunable(cs[0].node, zero) then [] else [cs[0]]) + Unpruned(cs[1..], zero)
  }

  /** A walked node, stepped: what a child becomes, and what the root becomes in `RefreshStats`. */
  function Refreshed(t: Trie, zero: ZeroTest): (r: Trie)
    decreases t, 2
  {
    var w := Walk(t, zero);
    Trie(w.payload.Stepped(), w.children)
  }

  /**
   * The reference definition of a subtree's aggregate: its own payload with
   * the aggregate of every child added in, in child order (post-order).
   */
  function Aggregate(t: Trie): (r: LoadStatsNode)
    decreases t, 1
  {
    AggregateFrom(t, 0, t.payload)
  }

  function AggregateFrom(t: Trie, i: nat, acc: LoadStatsNode): (r: LoadStatsNode)
    requires i <= |t.children|
    decreases t, 0, |t.children| - i
  {
    if i == |t.children| then acc
    else AggregateFrom(t, i + 1, acc.Plus(Aggregate(t.children[i].node)))
  }

  // ---------------------------------------------------------------------------
  // Lemmas about child positions

  /** The first child with key `k` is the one `ChildIndex` finds. */
  lemma ChildIndexIs(cs: seq<Child>, k: Component, i: nat)
    requires i < |cs| && cs[i].key == k
    requires forall j :: 0 <= j < i ==> cs[j].key != k
    ensures ChildIndex(cs, k) == Some(i)
  {
  }

  /** `ChildIndex` only depends on which positions hold the key. */
  lemma ChildIndexSameMatches(cs: seq<Child>, ds: seq<Child>, k: Component)
    requires |cs| == |ds|
    requires forall i :: 0 <= i < |cs| ==> (cs[i].key == k <==> ds[i].key == k)
    ensures ChildIndex(cs, k) == ChildIndex(ds, k)
  {
    match ChildIndex(cs, k)
    case None =>
    case Some(i) => ChildIndexIs(ds, k, i);
  }

  lemma ChildIndexAppend(cs: seq<Child>, c: Child, k: Component)
    requires c.key != k
    ensures ChildIndex(cs + [c], k) == ChildIndex(cs, k)
  {
    match ChildIndex(cs, k)
    case None =>
      assert forall j :: 0 <= j < |cs + [c]| ==> (cs + [c])[j].key != k;
    case Some(i) => ChildIndexIs(cs + [c], k, i);
  }

  lemma ChildIndexAppendNew(cs: seq<Child>, c: Child)
    requires ChildIndex(cs, c.key).None?
    ensures ChildIndex(cs + [c], c.key) == Some(|cs|)
  {
    ChildIndexIs(cs + [c], c.key, |cs|);
  }

  lemma ChildIndexReplace(cs: seq<Child>, i: nat, c: Child, k: Component)
    requires ChildIndex(cs, c.key) == Some(i)
    ensures ChildIndex(cs[i := c], k) == ChildIndex(cs, k)
  {
    if k == c.key {
      ChildIndexIs(cs[i := c], k, i);
    } else {
      ChildIndexSameMatches(cs[i := c], cs, k);
    }
  }

  lemma ChildIndexSameKeys(cs: seq<Child>, ds: seq<Child>, k: Component)
    requires |cs| == |ds| && forall i :: 0 <= i < |cs| ==> cs[i].key == ds[i].key
    ensures ChildIndex(cs, k) == ChildIndex(ds, k)
  {
    ChildIndexSameMatches(cs, ds, k);
  }

  /** Looking past a first child with another key. */
  lemma ChildIndexCons(c: Child, cs: seq<Child>, k: Component)
    requires c.key != k
    ensures ChildIndex([c] + cs, k) ==
      match ChildIndex(cs, k) case None => None case Some(j) => Some(j + 1)
  {
    assert ([c] + cs)[1..] == cs;
  }

  // ---------------------------------------------------------------------------
  // Update: find-or-create

  /**
   * After `Update (t, key, op)`, the node at `key` holds `op` applied to what
   * was there (or to an empty payload if it was missing), every proper prefix
   * of `key` exists with its payload untouched (created empty if missing),
   * and every other path holds exactly what it held before.
   */
  lemma {:induction false} UpdateLookup(t: Trie, key: Name, op: LoadStatsNode -> LoadStatsNode, p: Name)
    ensures PayloadAt(Update(t, key, op), p) ==
      if p == key then Some(op(PayloadOr(t, key)))
      else if IsPrefix(p, key) then Some(PayloadOr(t, p))
      else PayloadAt(t, p)
    decreases |key|, 1
  {
    if p != [] && key != [] {
      match ChildIndex(t.children, key[0])
      case Some(i) =>
        UpdateLookupExisting(t, key, op, p, i);
      case None =>
        UpdateLookupCreated(t, key, op, p);
    }
  }

  /** `UpdateLookup` when the first component of `key` names an existing child. */
  lemma {:induction false} UpdateLookupExisting(t: Trie, key: Name, op: LoadStatsNode -> LoadStatsNode, p: Name, i: nat)
    requires p != [] && key != []
    requires ChildIndex(t.children, key[0]) == Some(i)
    ensures PayloadAt(Update(t, key, op), p) ==
      if p == key then Some(op(PayloadOr(t, key)))
      else if IsPrefix(p, key) then Some(PayloadOr(t, p))
      else PayloadAt(t, p)
    decreases |key|, 0
  {
    var c := Child(key[0], Update(t.children[i].node, key[1..], op));
    ChildIndexReplace(t.children, i, c, p[0]);
    PrefixHead(p, key);
    if p[0] == key[0] {
      UpdateLookup(t.children[i].node, key[1..], op, p[1..]);
    }
  }

  /** `UpdateLookup` when the first component of `key` names no child: one is created. */
  lemma {:induction false} UpdateLookupCreated(t: Trie, key: Name, op: LoadStatsNode -> LoadStatsNode, p: Name)
    requires p != [] && key != []
    requires ChildIndex(t.children, key[0]).None?
    ensures PayloadAt(Update(t, key, op), p) ==
      if p == key then Some(op(PayloadOr(t, key)))
      else if IsPrefix(p, key) then Some(PayloadOr(t, p))
      else PayloadAt(t, p)
    decreases |key|, 0
  {
    var c := Child(key[0], Update(Leaf(), key[1..], op));
    PrefixHead(p, key);
    if p[0] == key[0] {
      ChildIndexAppendNew(t.children, c);
      UpdateLookup(Leaf(), key[1..], op, p[1..]);
      LeafLookup(p[1..]);
    } else {
      ChildIndexAppend(t.children, c, p[0]);
    }
  }

  /** Equality and the prefix relation of two non-empty names, component by component. */
  lemma PrefixHead(p: Name, key: Name)
    requires p != [] && key != []
    ensures p[0] != key[0] ==> p != key && !IsPrefix(p, key)
    ensures p[0] == key[0] ==> (p == key <==> p[1..] == key[1..])
    ensures p[0] == key[0] ==> (IsPrefix(p, key) <==> IsPrefix(p[1..], key[1..]))
  {
    if p[0] == key[0] {
      assert p == [p[0]] + p[1..] && key == [key[0]] + key[1..];
      if |p| <= |key| {
        assert key[..|p|] == [key[0]] + key[1..][..|p| - 1];
      }
    } else if |p| <= |key| {
      assert key[..|p|][0] == key[0];
    }
  }

  lemma LeafLookup(p: Name)
    ensures PayloadOr(Leaf(), p) == Empty()
    ensures PayloadAt(Leaf(), p) == if p == [] then Some(Empty()) else None
  {
  }

  /** `Update` only depends on what its operation does to the payload at `key`. */
  lemma {:induction false} UpdateSameAt(t: Trie, key: Name, op1: LoadStatsNode -> LoadStatsNode, op2: LoadStatsNode -> LoadStatsNode)
    requires op1(PayloadOr(t, key)) == op2(PayloadOr(t, key))
    ensures Update(t, key, op1) == Update(t, key, op2)
    decreases |key|
  {
    if key != [] {
      match ChildIndex(t.children, key[0])
      case Some(i) =>
        UpdateSameAt(t.children[i].node, key[1..], op1, op2);
      case None =>
        LeafLookup(key[1..]);
        UpdateSameAt(Leaf(), key[1..], op1, op2);
    }
  }

  /** `Update` keeps sibling keys distinct. */
  lemma {:induction false} UpdateWellFormed(t: Trie, key: Name, op: LoadStatsNode -> LoadStatsNode)
    requires WellFormed(t)
    ensures WellFormed(Update(t, key, op))
    decreases |key|
  {
    if key != [] {
      match ChildIndex(t.children, key[0])
      case Some(i) =>
        UpdateWellFormed(t.children[i].node, key[1..], op);
      case None =>
        UpdateWellFormed(Leaf(), key[1..], op);
    }
  }

  // ---------------------------------------------------------------------------
  // GetStats: the deepest existing prefix

  lemma {:induction false} LookupStep(t: Trie, key: Name, j: nat, i: nat)
    requires 1 <= j <= |key|
    requires ChildIndex(t.children, key[0]) == Some(i)
    ensures Lookup(t, key[..j]) == Lookup(t.children[i].node, key[1..][..j - 1])
  {
    assert key[..j][0] == key[0];
    assert key[..j][1..] == key[1..][..j - 1];
  }

  /**
   * `GetStats (key)` returns the payload of the deepest node on the path of
   * `key`: the prefix of length `MatchedDepth` exists and holds that payload,
   * and no longer prefix of `key` exists.
   */
  lemma {:induction false} GetStatsIsDeepest(t: Trie, key: Name)
    ensures Lookup(t, key[..MatchedDepth(t, key)]).Some?
    ensures GetStats(t, key) == Lookup(t, key[..MatchedDepth(t, key)]).value.payload
    ensures forall j :: MatchedDepth(t, key) < j <= |key| ==> Lookup(t, key[..j]).None?
    decreases |key|
  {
    if key != [] {
      match ChildIndex(t.children, key[0])
      case None =>
        forall j | 0 < j <= |key|
          ensures Lookup(t, key[..j]).None?
        {
          assert key[..j][0] == key[0];
        }
      case Some(i) =>
        var c := t.children[i].node;
        GetStatsIsDeepest(c, key[1..]);
        var d := MatchedDepth(t, key);
        LookupStep(t, key, d, i);
        forall j | d < j <= |key|
          ensures Lookup(t, key[..j]).None?
        {
          LookupStep(t, key, j, i);
        }
    }
  }

  /** When `key` itself is in the trie, `GetStats` returns its own payload. */
  lemma GetStatsExact(t: Trie, key: Name)
    requires Lookup(t, key).Some?
    ensures GetStats(t, key) == Lookup(t, key).value.payload
  {
    GetStatsIsDeepest(t, key);
    assert key[..|key|] == key;
  }

  // ---------------------------------------------------------------------------
  // RemoveFace

  /**
   * Removing a face everywhere keeps the shape of the trie: the same paths
   * exist, and each node's payload is the old one with the face erased.
   */
  lemma {:induction false} RemoveFaceLookup(t: Trie, face: FaceId, p: Name)
    ensures PayloadAt(RemoveFaceEverywhere(t, face), p) ==
      match PayloadAt(t, p)
      case None => None
      case Some(n) => Some(n.RemoveFace(face))
    decreases |p|
  {
    if p != [] {
      var r := RemoveFaceEverywhere(t, face);
      ChildIndexSameKeys(r.children, t.children, p[0]);
      match ChildIndex(t.children, p[0])
      case None =>
      case Some(i) =>
        RemoveFaceLookup(t.children[i].node, face, p[1..]);
    }
  }

  lemma {:induction false} RemoveFaceWellFormed(t: Trie, face: FaceId)
    requires WellFormed(t)
    ensures WellFormed(RemoveFaceEverywhere(t, face))
    decreases t
  {
    var r := RemoveFaceEverywhere(t, face);
    forall i | 0 <= i < |t.children|
      ensures WellFormed(r.children[i].node)
    {
      RemoveFaceWellFormed(t.children[i].node, face);
    }
  }

  // ---------------------------------------------------------------------------
  // The walk

  /** The payload a walk leaves at a node is the aggregate of its subtree. */
  lemma {:induction false} WalkAggregates(t: Trie, zero: ZeroTest)
    ensures Walk(t, zero).payload == Aggregate(t)
    decreases t, 1
  {
    WalkFromAggregates(t, 0, t.payload, zero);
  }

  lemma {:induction false} WalkFromAggregates(t: Trie, i: nat, acc: LoadStatsNode, zero: ZeroTest)
    requires i <= |t.children|
    ensures WalkFrom(t, i, acc, zero).0 == AggregateFrom(t, i, acc)
    decreases t, 0, |t.children| - i
  {
    if i < |t.children| {
      WalkAggregates(t.children[i].node, zero);
      WalkFromAggregates(t, i + 1, acc.Plus(Aggregate(t.children[i].node)), zero);
    }
  }

  /** A refreshed node holds the stepped aggregate of its subtree. */
  lemma RefreshedPayload(t: Trie, zero: ZeroTest)
    ensures Refreshed(t, zero).payload == Aggregate(t).Stepped()
  {
    WalkAggregates(t, zero);
  }

  /** The children a walk keeps are its refreshed children, unpruned, whatever payload it started with. */
  lemma {:induction false} WalkFromKept(t: Trie, i: nat, acc: LoadStatsNode, zero: ZeroTest)
    requires i <= |t.children|
    ensures WalkFrom(t, i, acc, zero).1 == Unpruned(RefreshedFrom(t, i, zero), zero)
    decreases |t.children| - i
  {
    if i < |t.children| {
      WalkFromKept(t, i + 1, acc.Plus(Walk(t.children[i].node, zero).payload), zero);
      RefreshedFromStep(t, i, zero);
    }
  }

  lemma RefreshedFromStep(t: Trie, i: nat, zero: ZeroTest)
    requires i < |t.children|
    ensures RefreshedFrom(t, i, zero) ==
      [Child(t.children[i].key, Refreshed(t.children[i].node, zero))] + RefreshedFrom(t, i + 1, zero)
  {
    var r := RefreshedFrom(t, i, zero);
    assert r[1..] == RefreshedFrom(t, i + 1, zero);
  }

  /** The children of a refreshed node. */
  lemma RefreshedChildren(t: Trie, zero: ZeroTest)
    ensures Refreshed(t, zero).children == Unpruned(RefreshedFrom(t, 0, zero), zero)
  {
    WalkFromKept(t, 0, t.payload, zero);
  }

  /** Every child `Unpruned` keeps was in `cs`. */
  lemma {:induction false} UnprunedSubset(cs: seq<Child>, zero: ZeroTest)
    ensures forall c :: c in Unpruned(cs, zero) ==> c in cs
    decreases |cs|
  {
    if cs != [] {
      UnprunedSubset(cs[1..], zero);
      assert forall c :: c in cs[1..] ==> c in cs;
    }
  }

  /**
   * With distinct keys in `cs`, `Unpruned` keeps child `m` exactly when its
   * node is not prunable, and what it keeps under that key is that child.
   */
  lemma {:induction false} UnprunedSelects(cs: seq<Child>, zero: ZeroTest, m: nat)
    requires forall i, j :: 0 <= i < j < |cs| ==> cs[i].key != cs[j].key
    requires m < |cs|
    ensures var out := Unpruned(cs, zero);
      && (ChildIndex(out, cs[m].key).Some? <==> !Prunable(cs[m].node, zero))
      && (ChildIndex(out, cs[m].key).Some? ==> out[ChildIndex(out, cs[m].key).value] == cs[m])
    decreases |cs|
  {
    var rest := Unpruned(cs[1..], zero);
    var k := cs[m].key;
    if m == 0 {
      UnprunedSubset(cs[1..], zero);
      forall j | 0 <= j < |rest|
        ensures rest[j].key != k
      {
        assert rest[j] in cs[1..];
      }
      if Prunable(cs[0].node, zero) {
        assert Unpruned(cs, zero) == rest;
      }
    } else {
      UnprunedSelects(cs[1..], zero, m - 1);
      assert cs[0].key != k;
      if !Prunable(cs[0].node, zero) {
        assert Unpruned(cs, zero) == [cs[0]] + rest;
        ChildIndexCons(cs[0], rest, k);
        if ChildIndex(rest, k).Some? {
          assert ([cs[0]] + rest)[ChildIndex(rest, k).value + 1] == rest[ChildIndex(rest, k).value];
        }
      } else {
        assert Unpruned(cs, zero) == rest;
      }
    }
  }

  /** `Unpruned` keeps sibling keys distinct and every node well formed. */
  lemma {:induction false} UnprunedWellFormed(cs: seq<Child>, zero: ZeroTest)
    requires WellFormedChildren(cs)
    ensures WellFormedChildren(Unpruned(cs, zero))
    decreases |cs|
  {
    if cs != [] {
      var rest := Unpruned(cs[1..], zero);
      UnprunedWellFormed(cs[1..], zero);
      UnprunedSubset(cs[1..], zero);
      if !Prunable(cs[0].node, zero) {
        var out := Unpruned(cs, zero);
        assert out == [cs[0]] + rest;
        forall j | 0 <= j < |rest|
          ensures rest[j].key != cs[0].key
        {
          assert rest[j] in cs[1..];
        }
        forall a, b | 0 <= a < b < |out|
          ensures out[a].key != out[b].key
        {
          assert out[b] == rest[b - 1];
          if a > 0 {
            assert out[a] == rest[a - 1];
          }
        }
        forall j | 0 <= j < |out|
          ensures WellFormed(out[j].node)
        {
          if j > 0 {
            assert out[j] == rest[j - 1];
          }
        }
      } else {
        assert Unpruned(cs, zero) == rest;
      }
    }
  }

  /** A refresh keeps the trie well formed. */
  lemma {:induction false} RefreshedWellFormed(t: Trie, zero: ZeroTest)
    requires WellFormed(t)
    ensures WellFormed(Refreshed(t, zero))
    decreases t
  {
    var cs := RefreshedFrom(t, 0, zero);
    forall j | 0 <= j < |cs|
      ensures WellFormed(cs[j].node)
    {
      RefreshedWellFormed(t.children[j].node, zero);
    }
    UnprunedWellFormed(cs, zero);
    RefreshedChildren(t, zero);
  }

  /**
   * A refresh keeps child `m` exactly when the child, refreshed, still has
   * children or a non-empty payload; a kept child is the refreshed original.
   */
  lemma RefreshedKeepsChild(t: Trie, zero: ZeroTest, m: nat)
    requires WellFormed(t)
    requires m < |t.children|
    ensures var cs := Refreshed(t, zero).children;
      && (ChildIndex(cs, t.children[m].key).Some? <==> !Prunable(Refreshed(t.children[m].node, zero), zero))
      && (ChildIndex(cs, t.children[m].key).Some? ==>
            cs[ChildIndex(cs, t.children[m].key).value].node == Refreshed(t.children[m].node, zero))
  {
    UnprunedSelects(RefreshedFrom(t, 0, zero), zero, m);
    RefreshedChildren(t, zero);
  }

  /**
   * Every node present after a refresh was present before at the same path,
   * and it is the refresh of the node that was there: its payload is the
   * stepped aggregate of the old subtree (`RefreshedPayload`).
   */
  lemma {:induction false} RefreshedLookup(t: Trie, zero: ZeroTest, p: Name)
    requires WellFormed(t)
    ensures Lookup(Refreshed(t, zero), p).Some? ==>
      Lookup(t, p).Some? && Lookup(Refreshed(t, zero), p).value == Refreshed(Lookup(t, p).value, zero)
    decreases |p|
  {
    var r := Refreshed(t, zero);
    if p != [] && ChildIndex(r.children, p[0]).Some? {
      var j := ChildIndex(r.children, p[0]).value;
      var cs := RefreshedFrom(t, 0, zero);
      RefreshedChildren(t, zero);
      UnprunedSubset(cs, zero);
      assert r.children[j] in cs;
      var m :| 0 <= m < |cs| && cs[m] == r.children[j];
      ChildIndexIs(t.children, p[0], m);
      RefreshedKeepsChild(t, zero, m);
      RefreshedLookup(t.children[m].node, zero, p[1..]);
    }
  }

  /** The payload of every node present after a refresh. */
  lemma RefreshedPayloadAt(t: Trie, zero: ZeroTest, p: Name)
    requires WellFormed(t)
    requires Lookup(Refreshed(t, zero), p).Some?
    ensures Lookup(t, p).Some?
    ensures PayloadAt(Refreshed(t, zero), p) == Some(Aggregate(Lookup(t, p).value).Stepped())
  {
    RefreshedLookup(t, zero, p);
    RefreshedPayload(Lookup(t, p).value, zero);
  }

  /**
   * The state of the walk of `t` after its first `i` children: `acc` is the
   * payload so far and `kept` the children kept so far, so the rest of the
   * walk from there gives the whole walk.
   */
  predicate WalkedUpTo(t: Trie, i: nat, acc: LoadStatsNode, kept: seq<Child>, zero: ZeroTest)
  {
    && i <= |t.children|
    && WalkFrom(t, i, acc, zero).0 == Walk(t, zero).payload
    && kept + WalkFrom(t, i, acc, zero).1 == Walk(t, zero).children
  }

  lemma WalkedUpToStart(t: Trie, zero: ZeroTest)
    ensures WalkedUpTo(t, 0, t.payload, [], zero)
  {
    assert [] + WalkFrom(t, 0, t.payload, zero).1 == WalkFrom(t, 0, t.payload, zero).1;
  }

  lemma WalkedUpToEnd(t: Trie, acc: LoadStatsNode, kept: seq<Child>, zero: ZeroTest)
    requires WalkedUpTo(t, |t.children|, acc, kept, zero)
    ensures Trie(acc, kept) == Walk(t, zero)
  {
    assert kept + [] == kept;
  }

  /**
   * One turn of the walk's loop: child `i` walked and stepped into `node`,
   * its payload added into `next`, and `node` appended to `kept` unless it
   * is prunable, giving `kept'`; the rest of the walk does the rest.
   */
  lemma WalkFromTurn(t: Trie, i: nat, acc: LoadStatsNode, next: LoadStatsNode, kept: seq<Child>,
                     node: Trie, kept': seq<Child>, zero: ZeroTest)
    requires i < |t.children|
    requires next == acc.Plus(Walk(t.children[i].node, zero).payload)
    requires node == Trie(Walk(t.children[i].node, zero).payload.Stepped(), Walk(t.children[i].node, zero).children)
    requires kept' == if Prunable(node, zero) then kept else kept + [Child(t.children[i].key, node)]
    ensures WalkFrom(t, i + 1, next, zero).0 == WalkFrom(t, i, acc, zero).0
    ensures kept' + WalkFrom(t, i + 1, next, zero).1 == kept + WalkFrom(t, i, acc, zero).1
  {
    WalkFromKept(t, i, acc, zero);
    WalkFromKept(t, i + 1, next, zero);
    RefreshedFromStep(t, i, zero);
    UnprunedTurn(Child(t.children[i].key, node), RefreshedFrom(t, i + 1, zero), kept, kept', zero);
  }

  /** Appending a child unless it is prunable, then leaving the rest to `Unpruned`. */
  lemma UnprunedTurn(c: Child, cs: seq<Child>, kept: seq<Child>, kept': seq<Child>, zero: ZeroTest)
    requires kept' == if Prunable(c.node, zero) then kept else kept + [c]
    ensures kept' + Unpruned(cs, zero) == kept + Unpruned([c] + cs, zero)
  {
    var rest := Unpruned(cs, zero);
    assert ([c] + cs)[1..] == cs;
    assert Unpruned([c] + cs, zero) == (if Prunable(c.node, zero) then [] else [c]) + rest;
    if !Prunable(c.node, zero) {
      assert (kept + [c]) + rest == kept + ([c] + rest);
    } else {
      assert [] + rest == rest;
    }
  }

}
