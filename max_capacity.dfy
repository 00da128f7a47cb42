/**
 * The offline capacity check (extensions/calculate-max-capacity.h): the
 * largest common per-source rate at which no link on the way from the
 * sources to the producer is congested.
 *
 * The graph `checkNoCongestion` builds from the FIBs and the links is
 * given here as a tree rooted at the producer, so every vertex is
 * reachable from it (each source's FIB chain ends at the producer). Each
 * vertex is a source or not, and each edge runs, as `addEdge` stores it,
 * from the upstream vertex (towards the producer) to the downstream vertex
 * that discovered it, labelled with the link's capacity in kilobytes per
 * second. The depth-first search from the producer finishes every vertex
 * after its children; `dfs_time_visitor::finish_vertex` then sets the
 * vertex rank to the sum of its children's ranks and clears `valid` when a
 * child's rank exceeds the capacity of the edge that leads to it.
 */
module MaxCapacity {

  /** A vertex of the graph: whether it is a source, and its out-edges in order. */
  datatype Vertex = Vertex(source: bool, edges: seq<Edge>)

  /** An out-edge: the link's capacity and the downstream vertex. */
  datatype Edge = Edge(capacity: real, target: Vertex)

  /** `-std::numeric_limits<double>::max ()`, the counter after a congested child. */
  const LowestDouble: real := -179769313486231570814527423731704356798070567525844996598917476803157260780028538760589558632766878171540458953514382464234321326889464182768467546703537516986049910576551282076245490090389328944075868508455133942304583236903222948165808559332123348274797826204144723168738177180919299881250404026184124858368.0

  /** The rank a vertex starts with: `share` for a source, the default 0 otherwise. */
  function Initial(v: Vertex, share: real): (r: real)
    ensures v.source ==> r == share
    ensures !v.source ==> r == 0.0
  {
    if v.source then share else 0.0
  }

  /** The capacities of `edges`, in order. */
  function Capacities(edges: seq<Edge>): (r: seq<real>)
    ensures |r| == |edges|
    ensures forall i :: 0 <= i < |edges| ==> r[i] == edges[i].capacity
  {
    if edges == [] then [] else Capacities(edges[..|edges| - 1]) + [edges[|edges| - 1].capacity]
  }

  function Sum(xs: seq<real>): real
  {
    if xs == [] then 0.0 else Sum(xs[..|xs| - 1]) + xs[|xs| - 1]
  }

  // ---------------------------------------------------------------------
  // `finish_vertex`.

  /**
   * The loop of `finish_vertex` over the out-edges with capacities `caps`
   * and target ranks `ranks`: the counter and whether every target fits its
   * edge. A target that does not fit sets the counter to `LowestDouble`,
   * and the later targets are added to that.
   */
  function Tally(caps: seq<real>, ranks: seq<real>): (r: (real, bool))
    requires |caps| == |ranks|
    ensures r.1 <==> forall i :: 0 <= i < |ranks| ==> ranks[i] <= caps[i]
    ensures r.1 ==> r.0 == Sum(ranks)
  {
    if ranks == [] then (0.0, true)
    else
      var n := |ranks| - 1;
      var (counter, fits) := Tally(caps[..n], ranks[..n]);
      assert forall i :: 0 <= i < n ==> ranks[..n][i] == ranks[i] && caps[..n][i] == caps[i];
      if ranks[n] > caps[n] then (LowestDouble, false) else (counter + ranks[n], fits)
  }

  /**
   * `dfs_time_visitor::finish_vertex` on `v`, whose current rank is `rank`
   * and whose targets have the ranks `ranks`: a vertex without out-edges
   * keeps its rank; otherwise the rank becomes the counter of the loop, and
   * `valid` is cleared (never set) when some target exceeds its edge.
   */
  method FinishVertex(v: Vertex, rank: real, ranks: seq<real>, valid: bool) returns (newRank: real, newValid: bool)
    requires |ranks| == |v.edges|
    ensures v.edges == [] ==> newRank == rank && newValid == valid
    ensures newValid <==> valid && forall i :: 0 <= i < |ranks| ==> ranks[i] <= v.edges[i].capacity
    ensures v.edges != [] && (forall i :: 0 <= i < |ranks| ==> ranks[i] <= v.edges[i].capacity) ==> newRank == Sum(ranks)
    ensures v.edges != [] ==> newRank == Tally(Capacities(v.edges), ranks).0
  {
    if v.edges == [] {
      return rank, valid;
    }
    ghost var caps := Capacities(v.edges);
    var counter := 0.0;
    newValid := valid;
    var i := 0;
    while i < |v.edges|
      invariant 0 <= i <= |v.edges|
      invariant counter == Tally(caps[..i], ranks[..i]).0
      invariant newValid <==> valid && Tally(caps[..i], ranks[..i]).1
    {
      assert caps[..i + 1][..i] == caps[..i] && ranks[..i + 1][..i] == ranks[..i];
      var capacity := v.edges[i].capacity;
      if ranks[i] > capacity {
        newValid := false;
        counter := LowestDouble;
      } else {
        counter := counter + ranks[i];
      }
      i := i + 1;
    }
    assert caps[..i] == caps && ranks[..i] == ranks;
    newRank := counter;
  }

  // ---------------------------------------------------------------------
  // What the search computes.

  /** The rank the search gives `v` with per-source rate `share`. */
  function Rank(v: Vertex, share: real): real
    decreases v, 1
  {
    if v.edges == [] then Initial(v, share)
    else Tally(Capacities(v.edges), Ranks(v, |v.edges|, share)).0
  }

  /** The ranks of the targets of the first `k` out-edges of `v`. */
  function Ranks(v: Vertex, k: nat, share: real): (r: seq<real>)
    requires k <= |v.edges|
    decreases v, 0, k
    ensures |r| == k
  {
    if k == 0 then [] else Ranks(v, k - 1, share) + [Rank(v.edges[k - 1].target, share)]
  }

  /** Whether the search leaves `valid` set when it finishes the subtree of `v`. */
  predicate Passes(v: Vertex, share: real)
    decreases v, 1
  {
    AllPass(v, |v.edges|, share) && Tally(Capacities(v.edges), Ranks(v, |v.edges|, share)).1
  }

  /** Whether the targets of the first `k` out-edges of `v` all pass. */
  predicate AllPass(v: Vertex, k: nat, share: real)
    requires k <= |v.edges|
    decreases v, 0, k
  {
    k > 0 ==> AllPass(v, k - 1, share) && Passes(v.edges[k - 1].target, share)
  }

  /**
   * The boost depth-first search from `v`: every target is searched (and
   * so finished) before `v` is finished. It yields the rank of `v` and
   * `valid`.
   */
  method Search(v: Vertex, share: real, valid: bool) returns (rank: real, newValid: bool)
    ensures rank == Rank(v, share)
    ensures newValid <==> valid && Passes(v, share)
    decreases v
  {
    var ranks: seq<real> := [];
    newValid := valid;
    var i := 0;
    while i < |v.edges|
      invariant 0 <= i <= |v.edges|
      invariant ranks == Ranks(v, i, share)
      invariant newValid <==> valid && AllPass(v, i, share)
    {
      var r;
      r, newValid := Search(v.edges[i].target, share, newValid);
      ranks := ranks + [r];
      i := i + 1;
    }
    rank, newValid := FinishVertex(v, Initial(v, share), ranks, newValid);
  }

  // ---------------------------------------------------------------------
  // The closed form: which rates fit.

  /** The sources whose traffic flows through `v`: the source leaves below it. */
  function Sources(v: Vertex): nat
    decreases v, 1
  {
    if v.edges == [] then (if v.source then 1 else 0) else SourcesBelow(v, |v.edges|)
  }

  /** The sources below the first `k` out-edges of `v`. */
  function SourcesBelow(v: Vertex, k: nat): nat
    requires k <= |v.edges|
    decreases v, 0, k
  {
    if k == 0 then 0 else SourcesBelow(v, k - 1) + Sources(v.edges[k - 1].target)
  }

  /** A link of the tree: its capacity and the number of sources it carries. */
  datatype Link = Link(capacity: real, load: nat)

  /** Every link of the subtree of `v`. */
  function Links(v: Vertex): seq<Link>
    decreases v, 1
  {
    LinksBelow(v, |v.edges|)
  }

  /** The links of the first `k` out-edges of `v` and of the subtrees below them. */
  function LinksBelow(v: Vertex, k: nat): seq<Link>
    requires k <= |v.edges|
    decreases v, 0, k
  {
    if k == 0 then []
    else
      var e := v.edges[k - 1];
      LinksBelow(v, k - 1) + [Link(e.capacity, Sources(e.target))] + Links(e.target)
  }

  /** `n` sources at rate `share` each: `share` added up `n` times. */
  function Times(n: nat, share: real): real
  {
    if n == 0 then 0.0 else Times(n - 1, share) + share
  }

  /** `Times` is the product. */
  lemma {:induction false} TimesIsProduct(n: nat, share: real)
    ensures Times(n, share) == (n as real) * share
  {
    if n > 0 {
      TimesIsProduct(n - 1, share);
    }
  }

  /** `share * (a + b) == share * a + share * b` on source counts. */
  lemma {:induction false} Distribute(share: real, a: nat, b: nat)
    ensures Times(a + b, share) == Times(a, share) + Times(b, share)
  {
    if b > 0 {
      Distribute(share, a, b - 1);
    }
  }

  /** More rate per source is more load. */
  lemma {:induction false} TimesMonotone(n: nat, low: real, high: real)
    requires low <= high
    ensures Times(n, low) <= Times(n, high)
  {
    if n > 0 {
      TimesMonotone(n - 1, low, high);
    }
  }

  /** At least one source at a non-negative rate is at least that rate. */
  lemma {:induction false} TimesAtLeast(n: nat, share: real)
    requires n >= 1 && share >= 0.0
    ensures Times(n, share) >= share
  {
    if n > 1 {
      TimesAtLeast(n - 1, share);
    }
  }

  /** Rate `share` per source fits every link of the subtree of `v`. */
  predicate Fits(v: Vertex, share: real)
  {
    forall l :: l in Links(v) ==> Times(l.load, share) <= l.capacity
  }

  /** Rate `share` fits the first `k` out-edges of `v` and every link below them. */
  predicate FitsBelow(v: Vertex, k: nat, share: real)
    requires k <= |v.edges|
  {
    forall l :: l in LinksBelow(v, k) ==> Times(l.load, share) <= l.capacity
  }

  lemma {:induction false} RanksAt(v: Vertex, k: nat, share: real)
    requires k <= |v.edges|
    ensures forall i :: 0 <= i < k ==> Ranks(v, k, share)[i] == Rank(v.edges[i].target, share)
  {
    if k > 0 {
      RanksAt(v, k - 1, share);
    }
  }

  lemma {:induction false} AllPassAt(v: Vertex, k: nat, share: real)
    requires k <= |v.edges|
    ensures AllPass(v, k, share) <==> forall i :: 0 <= i < k ==> Passes(v.edges[i].target, share)
  {
    if k > 0 {
      AllPassAt(v, k - 1, share);
    }
  }

  lemma {:induction false} LinksBelowAt(v: Vertex, k: nat, share: real)
    requires k <= |v.edges|
    ensures FitsBelow(v, k, share) <==>
              forall i :: 0 <= i < k ==> (Times(Sources(v.edges[i].target), share) <= v.edges[i].capacity &&
                                        Fits(v.edges[i].target, share))
  {
    if k > 0 {
      LinksBelowAt(v, k - 1, share);
      var e := v.edges[k - 1];
      assert LinksBelow(v, k) == LinksBelow(v, k - 1) + [Link(e.capacity, Sources(e.target))] + Links(e.target);
    }
  }

  lemma {:induction false} SumOfShares(v: Vertex, k: nat, share: real)
    requires k <= |v.edges|
    requires forall i :: 0 <= i < k ==> Ranks(v, k, share)[i] == Times(Sources(v.edges[i].target), share)
    ensures Sum(Ranks(v, k, share)) == Times(SourcesBelow(v, k), share)
  {
    if k > 0 {
      var rs, prev := Ranks(v, k, share), Ranks(v, k - 1, share);
      assert rs == prev + [Rank(v.edges[k - 1].target, share)];
      assert rs[..k - 1] == prev;
      assert forall i :: 0 <= i < k - 1 ==> prev[i] == rs[i];
      SumOfShares(v, k - 1, share);
      assert Sum(rs) == Sum(prev) + rs[k - 1];
      Distribute(share, SourcesBelow(v, k - 1), Sources(v.edges[k - 1].target));
    }
  }

  /**
   * What the search decides, in closed form: it leaves `valid` set exactly
   * when rate `share` per source fits every link, and then the rank of `v`
   * is `share` times the number of sources below it.
   */
  lemma {:induction false} PassesIffFits(v: Vertex, share: real)
    ensures Passes(v, share) <==> Fits(v, share)
    ensures Passes(v, share) ==> Rank(v, share) == Times(Sources(v), share)
    decreases v
  {
    var n := |v.edges|;
    forall i | 0 <= i < n
      ensures Passes(v.edges[i].target, share) <==> Fits(v.edges[i].target, share)
      ensures Passes(v.edges[i].target, share) ==>
                Rank(v.edges[i].target, share) == Times(Sources(v.edges[i].target), share)
    {
      PassesIffFits(v.edges[i].target, share);
    }
    PassesByChildren(v, share);
    FitsByChildren(v, share);
    if Passes(v, share) {
      RankOfPassing(v, share);
    }
  }

  /** `v` passes exactly when every target passes and its rank fits its edge. */
  lemma PassesByChildren(v: Vertex, share: real)
    ensures Passes(v, share) <==>
              forall i :: 0 <= i < |v.edges| ==> (Passes(v.edges[i].target, share) &&
                                                 Rank(v.edges[i].target, share) <= v.edges[i].capacity)
  {
    RanksAt(v, |v.edges|, share);
    AllPassAt(v, |v.edges|, share);
  }

  /** Rate `share` fits below `v` exactly when it fits each out-edge and the subtree under it. */
  lemma FitsByChildren(v: Vertex, share: real)
    ensures Fits(v, share) <==>
              forall i :: 0 <= i < |v.edges| ==> (Times(Sources(v.edges[i].target), share) <= v.edges[i].capacity &&
                                                 Fits(v.edges[i].target, share))
  {
    LinksBelowAt(v, |v.edges|, share);
  }

  /** A passing vertex whose passing targets rank `share` per source ranks `share` per source too. */
  lemma RankOfPassing(v: Vertex, share: real)
    requires Passes(v, share)
    requires forall i :: 0 <= i < |v.edges| && Passes(v.edges[i].target, share) ==>
                           Rank(v.edges[i].target, share) == Times(Sources(v.edges[i].target), share)
    ensures Rank(v, share) == Times(Sources(v), share)
  {
    var n := |v.edges|;
    if n == 0 {
      assert Times(1, share) == Times(0, share) + share;
    } else {
      RanksAt(v, n, share);
      AllPassAt(v, n, share);
      SumOfShares(v, n, share);
    }
  }

  /** A rate below a rate that fits fits too. */
  lemma FitsDownward(v: Vertex, low: real, high: real)
    requires 0.0 <= low <= high && Fits(v, high)
    ensures Fits(v, low)
  {
    forall l | l in Links(v) ensures Times(l.load, low) <= l.capacity {
      TimesMonotone(l.load, low, high);
    }
  }

  // ---------------------------------------------------------------------
  // `checkNoCongestion` and `calculateNonCongestionFlows`.

  /**
   * `checkNoCongestion` with rate `share` per source: the sources start at
   * `share`, the search runs from the producer, and the answer is `valid`.
   */
  method CheckNoCongestion(producer: Vertex, share: real) returns (ok: bool)
    ensures ok <==> Fits(producer, share)
  {
    var rank;
    rank, ok := Search(producer, share, true);
    PassesIffFits(producer, share);
  }

  function Pow2(n: nat): (r: real)
    ensures r >= 1.0
  {
    if n == 0 then 1.0 else 2.0 * Pow2(n - 1)
  }

  /** Some link carries at least one source, so a large enough rate congests it. */
  predicate Loaded(producer: Vertex)
  {
    exists l :: l in Links(producer) && l.load > 0
  }

  /**
   * A rate above the capacity of a link that carries a source does not fit.
   */
  lemma OverCapacity(producer: Vertex, l: Link, share: real)
    requires l in Links(producer) && l.load > 0 && share > l.capacity && share >= 0.0
    ensures !Fits(producer, share)
  {
    TimesAtLeast(l.load, share);
  }

  /**
   * `calculateNonCongestionFlows`: the rate doubles from 1 until it
   * congests some link; then the interval between the last power of two
   * and the first failing one is halved until it is at most 0.1 wide, and
   * its lower end is the answer. The answer is at least 0.5 and below the
   * first power of two that does not fit; a rate 0.1 above it does not
   * fit; it fits itself unless it is the untested 0.5 left when rate 1
   * already does not fit.
   */
  method CalculateNonCongestionFlows(producer: Vertex) returns (r: real)
    requires Loaded(producer)
    ensures r >= 0.5
    ensures exists n: nat :: (forall i: nat :: i < n ==> Fits(producer, Pow2(i))) && !Fits(producer, Pow2(n)) &&
                             Pow2(n) / 2.0 <= r < Pow2(n)
    ensures !Fits(producer, r + 0.1)
    ensures Fits(producer, r) || r == 0.5
    ensures Fits(producer, 1.0) ==> Fits(producer, r)
  {
    ghost var l :| l in Links(producer) && l.load > 0;
    var share := 1.0;
    ghost var n: nat := 0;
    var ok := CheckNoCongestion(producer, share);
    while ok
      invariant share == Pow2(n)
      invariant forall i: nat :: i < n ==> Fits(producer, Pow2(i))
      invariant ok <==> Fits(producer, share)
      decreases (l.capacity - share).Floor
    {
      if share > l.capacity {
        OverCapacity(producer, l, share);
      }
      share := share * 2.0;
      n := n + 1;
      ok := CheckNoCongestion(producer, share);
    }
    var shareMin := share / 2.0;
    var shareMax := share;
    while shareMax - shareMin > 0.1
      invariant share / 2.0 <= shareMin < shareMax <= share
      invariant !Fits(producer, shareMax)
      invariant Fits(producer, shareMin) || (n == 0 && shareMin == 0.5)
      decreases ((shareMax - shareMin) * 10.0).Floor
    {
      var middle := (shareMin + shareMax) / 2.0;
      ok := CheckNoCongestion(producer, middle);
      if ok {
        shareMin := middle;
      } else {
        shareMax := middle;
      }
    }
    r := shareMin;
    if Fits(producer, r + 0.1) {
      FitsDownward(producer, shareMax, r + 0.1);
    }
    if n > 0 {
      assert Fits(producer, Pow2(0));
    }
  }

  // ---------------------------------------------------------------------
  // `ns3node_writer`: the drawing style of a vertex.

  /** The size and fill colour `ns3node_writer` draws a vertex with. */
  datatype Style = Style(size: string, color: string)

  /** The name prefixes the writer tests, in order, with their styles. */
  const Prefixes: seq<(string, Style)> := [
    ("bb-", Style("0.4", "black")),
    ("gw-", Style("0.3", "gray")),
    ("leaf-", Style("0.1", "brown")),
    ("producer-", Style("0.3", "blue")),
    ("good-", Style("0.1", "green")),
    ("evil-", Style("0.1", "red"))
  ]

  /** The style of a name that has none of the prefixes. */
  const Default: Style := Style("0.1", "gray")

  /** `name.find (p) == 0`: `p` occurs in `name` at position 0. */
  predicate StartsWith(name: string, p: string)
  {
    |p| <= |name| && name[..|p|] == p
  }

  /** `ns3node_writer::operator ()`: the if-chain on the node's name. */
  function Classify(name: string): (r: Style)
  {
    if StartsWith(name, "bb-") then Style("0.4", "black")
    else if StartsWith(name, "gw-") then Style("0.3", "gray")
    else if StartsWith(name, "leaf-") then Style("0.1", "brown")
    else if StartsWith(name, "producer-") then Style("0.3", "blue")
    else if StartsWith(name, "good-") then Style("0.1", "green")
    else if StartsWith(name, "evil-") then Style("0.1", "red")
    else Default
  }

  /** The prefixes are told apart by their first two characters. */
  lemma PrefixesApart(j: int, k: int)
    requires 0 <= j < |Prefixes| && 0 <= k < |Prefixes| && j != k
    ensures 2 <= |Prefixes[j].0| && 2 <= |Prefixes[k].0|
    ensures Prefixes[j].0[..2] != Prefixes[k].0[..2]
  {
    assert Prefixes[0].0[..2] == "bb" && Prefixes[1].0[..2] == "gw" && Prefixes[2].0[..2] == "le";
    assert Prefixes[3].0[..2] == "pr" && Prefixes[4].0[..2] == "go" && Prefixes[5].0[..2] == "ev";
  }

  /**
   * No name has two of the prefixes, so the order of the tests does not
   * matter: a name with a prefix gets that prefix's style.
   */
  lemma ClassifyByPrefix(name: string, k: int)
    requires 0 <= k < |Prefixes| && StartsWith(name, Prefixes[k].0)
    ensures forall j :: 0 <= j < |Prefixes| && j != k ==> !StartsWith(name, Prefixes[j].0)
    ensures Classify(name) == Prefixes[k].1
  {
    forall j | 0 <= j < |Prefixes| && j != k
      ensures !StartsWith(name, Prefixes[j].0)
    {
      PrefixesApart(j, k);
    }
    assert Prefixes[0].0 == "bb-" && Prefixes[1].0 == "gw-" && Prefixes[2].0 == "leaf-";
    assert Prefixes[3].0 == "producer-" && Prefixes[4].0 == "good-" && Prefixes[5].0 == "evil-";
  }

  /** A name with none of the prefixes is drawn small and gray. */
  lemma ClassifyOtherwise(name: string)
    requires forall k :: 0 <= k < |Prefixes| ==> !StartsWith(name, Prefixes[k].0)
    ensures Classify(name) == Default
  {
    assert !StartsWith(name, Prefixes[0].0) && !StartsWith(name, Prefixes[1].0) && !StartsWith(name, Prefixes[2].0);
    assert !StartsWith(name, Prefixes[3].0) && !StartsWith(name, Prefixes[4].0) && !StartsWith(name, Prefixes[5].0);
  }
}
