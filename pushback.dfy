/**
 * `SatisfactionBasedPushback` (extensions/strategies/satisfaction-based-pushback.cc):
 * once per second every node tells each neighbour, for every FIB prefix, how
 * many Interests it will accept from that neighbour, weighting the FIB
 * entry's allowance by the neighbour's satisfaction ratio; a neighbour that
 * receives such an announcement (a link-local, scope-0 Interest) sets the
 * limit of the face it came in on.
 *
 * The faces of the node are numbered `0 .. nFaces - 1`, as `GetFace (faceId)`
 * numbers them. Sending an Interest is recorded in the list of sent
 * announcements; the one-second timer and its random start are the host's.
 */
module Pushback {
  import opened Wrappers
  import opened Names
  import opened LoadStats
  import opened LoadStatsNode
  import opened Limits
  import opened Stats

  /** Below this smoothed count a face is treated as having no incoming traffic. */
  const MinCount: real := 0.001

  /** An Interest as the announcer sends it. */
  datatype Interest = Interest(name: Name, scope: int)

  /** A FIB entry: its prefix and its next-hop faces, in the FIB's order. */
  datatype FibEntry = FibEntry(prefix: Name, faces: seq<FaceId>)

  /** The outcome of `OnInterest` for the model's purposes. */
  datatype Dispatch =
    | ToParent                 // handed to the parent strategy
    | LimitApplied(limit: real) // a scope-0 limit announcement was applied
    | Malformed                // parsing the limit failed; the source throws here

  function Min(a: real, b: real): real
  {
    if a <= b then a else b
  }

  function Max(a: real, b: real): real
  {
    if a >= b then a else b
  }

  /** A negative unsatisfied reading is taken as 0. */
  function Clamped(unsatisfied: real): real
  {
    if unsatisfied < 0.0 then 0.0 else unsatisfied
  }

  /** `1.00 - std::min (1.00 - m_graceThreshold, unsatisfiedAbs / countAbs)`. */
  function Contribution(unsatisfied: real, count: real, grace: real): real
    requires count > 0.0
  {
    1.0 - Min(1.0 - grace, Clamped(unsatisfied) / count)
  }

  /** What face `f` adds to the sum of weights: nothing below `MinCount`. */
  function SumTerm(root: LoadStatsNode, f: FaceId, grace: real, value: Readout): real
  {
    var (u, c) := root.Readings(f, value);
    if c < MinCount then 0.0 else Contribution(u, c, grace)
  }

  /** The terms of the sum of weights over faces `0 .. n - 1`. */
  function Weights(root: LoadStatsNode, n: nat, grace: real, value: Readout): (r: seq<real>)
    ensures |r| == n && forall f :: 0 <= f < n ==> r[f] == SumTerm(root, f, grace, value)
  {
    seq(n, f requires 0 <= f < n => SumTerm(root, f, grace, value))
  }

  function Total(xs: seq<real>): real
  {
    if xs == [] then 0.0 else Total(xs[..|xs| - 1]) + xs[|xs| - 1]
  }

  /** The sum of weights over faces `0 .. n - 1`. */
  function SumOfWeightsUpTo(root: LoadStatsNode, n: nat, grace: real, value: Readout): real
  {
    Total(Weights(root, n, grace, value))
  }

  /** One more face adds its term to the sum of weights. */
  lemma SumOfWeightsStep(root: LoadStatsNode, n: nat, grace: real, value: Readout)
    ensures SumOfWeightsUpTo(root, n + 1, grace, value) == SumOfWeightsUpTo(root, n, grace, value) + SumTerm(root, n, grace, value)
  {
    assert Weights(root, n + 1, grace, value)[..n] == Weights(root, n, grace, value);
  }

  /**
   * The normalisation factor: none when the weights already sum to 1 or
   * more, `1 / sum` above 0.001, and capped at 1000 otherwise. It lies in
   * [1, 1000], and between the two thresholds it scales the sum to exactly 1.
   */
  function Normalization(sum: real): (r: real)
    ensures 1.0 <= r <= 1000.0
    ensures MinCount < sum < 1.0 ==> r * sum == 1.0
    ensures sum >= 1.0 ==> r == 1.0
  {
    if sum >= 1.0 then 1.0
    else if sum > MinCount then 1.0 / sum
    else 1000.0
  }

  /** The weight of face `f` for the limit it is announced: 1.0 unless its count exceeds `MinCount`. */
  function FaceWeight(root: LoadStatsNode, f: FaceId, grace: real, factor: real, value: Readout): real
  {
    var (u, c) := root.Readings(f, value);
    if c > MinCount then factor * Contribution(u, c, grace) else 1.0
  }

  /** The name `<prefix>/limit/<limit>` of an announcement. */
  function AnnouncementName(prefix: Name, limit: real): (r: Name)
  {
    prefix + [Text("limit"), Number(limit)]
  }

  /** The limit announced to face `f` for a FIB entry with allowance `total`: never negative. */
  function AnnouncedAmount(root: LoadStatsNode, f: FaceId, total: real, grace: real, factor: real,
                           value: Readout): real
  {
    Max(0.0, FaceWeight(root, f, grace, factor, value) * total)
  }

  /** The announcement sent to face `f` for a FIB entry with allowance `total`. */
  function FaceAnnouncement(prefix: Name, f: FaceId, total: real, root: LoadStatsNode, grace: real,
                            factor: real, value: Readout): (r: Interest)
  {
    Interest(AnnouncementName(prefix, AnnouncedAmount(root, f, total, grace, factor, value)), 0)
  }

  /** The announcements for one FIB entry to faces `0 .. n - 1`, in face order. */
  function EntryAnnouncements(prefix: Name, n: nat, total: real, root: LoadStatsNode, grace: real,
                              factor: real, value: Readout): (r: seq<(FaceId, Interest)>)
  {
    if n == 0 then []
    else EntryAnnouncements(prefix, n - 1, total, root, grace, factor, value)
         + [(n - 1, FaceAnnouncement(prefix, n - 1, total, root, grace, factor, value))]
  }

  /**
   * Everything one run of `AnnounceLimits` sends, in order: nothing for a
   * FIB entry with a disabled limiter, otherwise one announcement per face.
   */
  function Announcements(fib: seq<FibEntry>, nFaces: nat, root: LoadStatsNode, grace: real, factor: real,
                         table: map<FaceId, Limiter>, value: Readout): (r: seq<(FaceId, Interest)>)
    requires forall i, j :: 0 <= i < |fib| && 0 <= j < |fib[i].faces| ==> fib[i].faces[j] in table
  {
    if fib == [] then []
    else
      var last := fib[|fib| - 1];
      Announcements(fib[..|fib| - 1], nFaces, root, grace, factor, table, value)
      + (if AnyDisabled(last.faces, table) then []
         else EntryAnnouncements(last.prefix, nFaces, SumOfLimits(last.faces, table), root, grace, factor, value))
  }

  /**
   * `lexical_cast<double> (name.get (-1))`: the limit carried by the last
   * component. A numeric component is the value itself; a textual one is
   * parsed with `parse`, which stands for decimal parsing. An empty name has
   * no last component.
   */
  function AnnouncedLimit(name: Name, parse: string -> Option<real>): (r: Option<real>)
  {
    if |name| == 0 then None
    else match name[|name| - 1]
      case Number(v) => Some(v)
      case Text(s) => parse(s)
  }

  class SatisfactionBasedPushback {
    /** The statistics layer this strategy extends. */
    const stats: Stats
    /** The limiters of the node's faces. */
    const table: LimitTable
    /** `m_graceThreshold`. */
    const grace: real
    /** `GetStats ().get<0> ()` on a smoothed counter. */
    const value: Readout
    /** Decimal parsing of a name component. */
    const parse: string -> Option<real>
    /** `m_announceEventScheduled`. */
    var announceScheduled: bool

    constructor(stats: Stats, table: LimitTable, grace: real, value: Readout, parse: string -> Option<real>)
      ensures this.stats == stats && this.table == table && this.grace == grace
      ensures this.value == value && this.parse == parse
      ensures !announceScheduled
    {
      this.stats := stats;
      this.table := table;
      this.grace := grace;
      this.value := value;
      this.parse := parse;
      announceScheduled := false;
    }

    /**
     * `NotifyNewAggregate`: the statistics layer's own check first, then,
     * the first time the node, its PIT and its FIB are all present, the
     * announcements are switched on. The two results say which first runs
     * must be scheduled.
     */
    method NotifyNewAggregate(attachedToNode: bool, hasPitAndFib: bool)
      returns (scheduleRefresh: bool, scheduleAnnounce: bool)
      modifies this, stats
      ensures scheduleRefresh == (!old(stats.refreshScheduled) && attachedToNode)
      ensures stats.refreshScheduled == (old(stats.refreshScheduled) || attachedToNode)
      ensures stats.tree == old(stats.tree)
      ensures scheduleAnnounce == (!old(announceScheduled) && attachedToNode && hasPitAndFib)
      ensures announceScheduled == (old(announceScheduled) || (attachedToNode && hasPitAndFib))
    {
      scheduleRefresh := stats.NotifyNewAggregate(attachedToNode);
      scheduleAnnounce := false;
      if !announceScheduled {
        if hasPitAndFib && attachedToNode {
          announceScheduled := true;
          scheduleAnnounce := true;
        }
      }
    }

    /** `DoDispose`: only the statistics layer's refresh stops; announcements keep their schedule. */
    method DoDispose()
      modifies stats
      ensures !stats.refreshScheduled && stats.tree == old(stats.tree)
    {
      stats.DoDispose();
    }

    /** `AddFace`: a face without a limiter is a fatal error (`ok` false); otherwise the parent adds it. */
    method AddFace(face: FaceId) returns (ok: bool)
      ensures ok == (face in table.limits)
    {
      ok := face in table.limits;
    }

    /** The first loop of `AnnounceLimits`: the sum of the counted faces' weights. */
    method SumOfWeights(nFaces: nat) returns (sum: real)
      ensures sum == SumOfWeightsUpTo(stats.tree.payload, nFaces, grace, value)
    {
      sum := 0.0;
      var faceId := 0;
      while faceId < nFaces
        invariant 0 <= faceId <= nFaces
        invariant sum == SumOfWeightsUpTo(stats.tree.payload, faceId, grace, value)
      {
        SumOfWeightsStep(stats.tree.payload, faceId, grace, value);
        var root := stats.GetStats([]);
        var unsatisfiedAbs := 0.0;
        var countAbs := 0.0;
        if faceId in root.incoming {
          unsatisfiedAbs := value(root.incoming[faceId].unsatisfied);
          countAbs := value(root.incoming[faceId].count);
        }
        if countAbs < MinCount {
          faceId := faceId + 1;
          continue;
        }
        if unsatisfiedAbs < 0.0 {
          unsatisfiedAbs := 0.0;
        }
        var weight := 1.0 - Min(1.0 - grace, unsatisfiedAbs / countAbs);
        sum := sum + weight;
        faceId := faceId + 1;
      }
    }

    /**
     * `AnnounceLimits`: computes the normalisation factor, then for every
     * FIB entry whose limiters are all enabled sends each face its limit
     * announcement. `sent` lists the announcements in sending order; the
     * run always reschedules itself.
     */
    method AnnounceLimits(fib: seq<FibEntry>, nFaces: nat) returns (sent: seq<(FaceId, Interest)>, reschedule: bool)
      requires forall i, j :: 0 <= i < |fib| && 0 <= j < |fib[i].faces| ==> fib[i].faces[j] in table.limits
      ensures sent == Announcements(fib, nFaces, stats.tree.payload, grace,
                                    Normalization(SumOfWeightsUpTo(stats.tree.payload, nFaces, grace, value)),
                                    table.limits, value)
      ensures reschedule
    {
      var sumOfWeights := SumOfWeights(nFaces);
      var weightNormalization := 1.0;
      if sumOfWeights >= 1.0 {
        weightNormalization := 1.0;
      } else if sumOfWeights > MinCount {
        weightNormalization := 1.0 / sumOfWeights;
      } else {
        weightNormalization := 1000.0;
      }
      ghost var root := stats.tree.payload;
      sent := [];
      var i := 0;
      while i < |fib|
        invariant 0 <= i <= |fib|
        invariant sent == Announcements(fib[..i], nFaces, root, grace, weightNormalization, table.limits, value)
      {
        var entry := fib[i];
        assert fib[..i + 1][..i] == fib[..i];
        var totalAllowance, unlimited := table.TotalAllowance(entry.faces);
        if !unlimited {
          var announced := AnnounceEntry(entry.prefix, totalAllowance, nFaces, weightNormalization);
          sent := sent + announced;
        }
        i := i + 1;
      }
      assert fib[..i] == fib;
      reschedule := true;
    }

    /** The inner loop of `AnnounceLimits`: one FIB entry's announcement to every face. */
    method AnnounceEntry(prefix: Name, totalAllowance: real, nFaces: nat, weightNormalization: real)
      returns (sent: seq<(FaceId, Interest)>)
      ensures sent == EntryAnnouncements(prefix, nFaces, totalAllowance, stats.tree.payload, grace,
                                         weightNormalization, value)
    {
      sent := [];
      var faceId := 0;
      while faceId < nFaces
        invariant 0 <= faceId <= nFaces
        invariant sent == EntryAnnouncements(prefix, faceId, totalAllowance, stats.tree.payload, grace,
                                             weightNormalization, value)
      {
        var announce := AnnounceTo(prefix, totalAllowance, faceId, weightNormalization);
        sent := sent + [(faceId, announce)];
        faceId := faceId + 1;
      }
    }

    /** One pass of the inner loop of `AnnounceLimits`: the announcement to face `faceId`. */
    method AnnounceTo(prefix: Name, totalAllowance: real, faceId: FaceId, weightNormalization: real)
      returns (announce: Interest)
      ensures announce == FaceAnnouncement(prefix, faceId, totalAllowance, stats.tree.payload, grace,
                                           weightNormalization, value)
    {
      var root := stats.GetStats([]);
      assert root == stats.tree.payload;
      var unsatisfiedAbs := 0.0;
      var countAbs := 0.0;
      if faceId in root.incoming {
        unsatisfiedAbs := value(root.incoming[faceId].unsatisfied);
        countAbs := value(root.incoming[faceId].count);
      }
      assert (unsatisfiedAbs, countAbs) == root.Readings(faceId, value);
      ghost var read := unsatisfiedAbs;
      var weight := 1.0;
      if countAbs > MinCount {
        if unsatisfiedAbs < 0.0 {
          unsatisfiedAbs := 0.0;
        }
        weight := 1.0 - Min(1.0 - grace, unsatisfiedAbs / countAbs);
        weight := weightNormalization * weight;
        assert unsatisfiedAbs == Clamped(read);
      }
      assert weight == FaceWeight(root, faceId, grace, weightNormalization, value);
      var limit := Max(0.0, weight * totalAllowance);
      announce := Interest(prefix + [Text("limit"), Number(limit)], 0);
      assert limit == AnnouncedAmount(root, faceId, totalAllowance, grace, weightNormalization, value);
    }

    /** `ApplyAnnouncedLimit`: the parsed limit becomes the current limit of the arrival face. */
    method ApplyAnnouncedLimit(inFace: FaceId, interest: Interest) returns (outcome: Dispatch)
      requires inFace in table.limits
      modifies table
      ensures AnnouncedLimit(interest.name, parse).Some? ==>
        outcome == LimitApplied(AnnouncedLimit(interest.name, parse).value) &&
        table.limits == old(table.limits)[inFace := old(table.limits)[inFace].WithLimit(outcome.limit)]
      ensures AnnouncedLimit(interest.name, parse).None? ==>
        outcome == Malformed && table.limits == old(table.limits)
    {
      var limit := AnnouncedLimit(interest.name, parse);
      if limit.None? {
        return Malformed;
      }
      table.UpdateCurrentLimit(inFace, limit.value);
      outcome := LimitApplied(limit.value);
    }

    /** `OnInterest`: a scope-0 Interest is a limit announcement and is never forwarded. */
    method OnInterest(face: FaceId, interest: Interest) returns (outcome: Dispatch)
      requires face in table.limits
      modifies table
      ensures interest.scope != 0 ==> outcome == ToParent && table.limits == old(table.limits)
      ensures interest.scope == 0 ==> outcome != ToParent
      ensures interest.scope == 0 && AnnouncedLimit(interest.name, parse).Some? ==>
        outcome == LimitApplied(AnnouncedLimit(interest.name, parse).value) &&
        table.limits == old(table.limits)[face := old(table.limits)[face].WithLimit(outcome.limit)]
      ensures interest.scope == 0 && AnnouncedLimit(interest.name, parse).None? ==>
        outcome == Malformed && table.limits == old(table.limits)
    {
      if interest.scope != 0 {
        outcome := ToParent;
      } else {
        outcome := ApplyAnnouncedLimit(face, interest);
      }
    }
  }

  // ---------------------------------------------------------------------------
  // Properties of the weights and of the announcements

  /** A counted face's contribution lies in [grace, 1]. */
  lemma ContributionBounds(unsatisfied: real, count: real, grace: real)
    requires count > 0.0
    requires 0.0 <= grace <= 1.0
    ensures grace <= Contribution(unsatisfied, count, grace) <= 1.0
  {
    assert Clamped(unsatisfied) / count >= 0.0;
  }

  /** The sum of weights over `n` faces lies in [0, n]. */
  lemma {:induction false} SumOfWeightsBounds(root: LoadStatsNode, n: nat, grace: real, value: Readout)
    requires 0.0 <= grace <= 1.0
    ensures 0.0 <= SumOfWeightsUpTo(root, n, grace, value) <= n as real
  {
    if n > 0 {
      SumOfWeightsBounds(root, n - 1, grace, value);
      SumOfWeightsStep(root, n - 1, grace, value);
      var (u, c) := root.Readings(n - 1, value);
      if c >= MinCount {
        ContributionBounds(u, c, grace);
      }
    }
  }

  lemma MulMonotone(a: real, b: real, c: real)
    requires a <= b && c >= 0.0
    ensures a * c <= b * c
  {
  }

  /**
   * A face with a count above `MinCount` is announced its normalised weight,
   * which lies in [grace, 1000]; any other face gets weight 1, so its limit is
   * the whole allowance. A face with a count of exactly `MinCount` is one of
   * the latter although its weight was added to the sum.
   */
  lemma FaceWeightBounds(root: LoadStatsNode, f: FaceId, grace: real, sum: real, value: Readout)
    requires 0.0 <= grace <= 1.0
    ensures var c := root.Readings(f, value).1;
      && (c > MinCount ==> grace <= FaceWeight(root, f, grace, Normalization(sum), value) <= 1000.0)
      && (c <= MinCount ==> FaceWeight(root, f, grace, Normalization(sum), value) == 1.0)
      && (c == MinCount ==> SumTerm(root, f, grace, value) == Contribution(root.Readings(f, value).0, c, grace))
  {
    var (u, c) := root.Readings(f, value);
    if c > MinCount {
      ContributionBounds(u, c, grace);
      var w := Contribution(u, c, grace);
      var k := Normalization(sum);
      assert FaceWeight(root, f, grace, k, value) == k * w;
      WeightRange(k, w, grace);
    }
  }

  /** A weight in [grace, 1] scaled by a factor in [1, 1000] stays in [grace, 1000]. */
  lemma WeightRange(k: real, w: real, grace: real)
    requires 1.0 <= k <= 1000.0 && 0.0 <= grace <= w <= 1.0
    ensures grace <= k * w <= 1000.0
  {
    assert grace <= k * w by { MulMonotone(1.0, k, w); }
    assert k * w <= 1000.0 by { MulMonotone(k, 1000.0, w); }
  }

  /** What face `f` adds to the sum of the announced weights of the faces counted above `MinCount`. */
  function NormalizedTerm(root: LoadStatsNode, f: FaceId, grace: real, factor: real, value: Readout): real
  {
    if root.Readings(f, value).1 > MinCount then FaceWeight(root, f, grace, factor, value) else 0.0
  }

  /** What face `f` adds to the sum of weights although it is announced weight 1: a count of exactly `MinCount`. */
  function BoundaryTerm(root: LoadStatsNode, f: FaceId, grace: real, value: Readout): real
  {
    if root.Readings(f, value).1 == MinCount then SumTerm(root, f, grace, value) else 0.0
  }

  /** The announced weights of faces `0 .. n - 1`, where a face not counted above `MinCount` has 0. */
  function NormalizedWeights(root: LoadStatsNode, n: nat, grace: real, factor: real, value: Readout): (r: seq<real>)
    ensures |r| == n && forall f :: 0 <= f < n ==> r[f] == NormalizedTerm(root, f, grace, factor, value)
  {
    seq(n, f requires 0 <= f < n => NormalizedTerm(root, f, grace, factor, value))
  }

  /** The weights of faces `0 .. n - 1` counted at exactly `MinCount`, where any other face has 0. */
  function BoundaryWeights(root: LoadStatsNode, n: nat, grace: real, value: Readout): (r: seq<real>)
    ensures |r| == n && forall f :: 0 <= f < n ==> r[f] == BoundaryTerm(root, f, grace, value)
  {
    seq(n, f requires 0 <= f < n => BoundaryTerm(root, f, grace, value))
  }

  /** A total of zeros is zero. */
  lemma {:induction false} TotalOfZeros(xs: seq<real>)
    requires forall i :: 0 <= i < |xs| ==> xs[i] == 0.0
    ensures Total(xs) == 0.0
  {
    if xs != [] {
      TotalOfZeros(xs[..|xs| - 1]);
    }
  }

  /**
   * One face's announced weight `nt` and `factor` times its boundary weight
   * `bt` make `factor` times its weight `st`.
   */
  lemma TermScaled(root: LoadStatsNode, f: FaceId, grace: real, factor: real, value: Readout)
    returns (nt: real, bt: real, st: real)
    ensures nt == NormalizedTerm(root, f, grace, factor, value)
    ensures bt == BoundaryTerm(root, f, grace, value) && st == SumTerm(root, f, grace, value)
    ensures nt + factor * bt == factor * st
  {
    nt, bt, st := NormalizedTerm(root, f, grace, factor, value), BoundaryTerm(root, f, grace, value),
                  SumTerm(root, f, grace, value);
    var (u, c) := root.Readings(f, value);
    if c > MinCount {
      assert nt == factor * Contribution(u, c, grace);
      assert st == Contribution(u, c, grace) && bt == 0.0;
    } else if c == MinCount {
      assert nt == 0.0 && st == bt;
    } else {
      assert nt == 0.0 && st == 0.0 && bt == 0.0;
    }
  }

  /** Every element of `xs` multiplied by `k`. */
  function Scale(k: real, xs: seq<real>): (r: seq<real>)
    ensures |r| == |xs| && forall i :: 0 <= i < |xs| ==> r[i] == k * xs[i]
  {
    seq(|xs|, i requires 0 <= i < |xs| => k * xs[i])
  }

  /** Totals add up termwise. */
  lemma {:induction false} TotalsAdd(xs: seq<real>, ys: seq<real>, zs: seq<real>)
    requires |xs| == |ys| == |zs|
    requires forall i :: 0 <= i < |xs| ==> xs[i] + ys[i] == zs[i]
    ensures Total(xs) + Total(ys) == Total(zs)
  {
    if xs != [] {
      var n := |xs| - 1;
      TotalsAdd(xs[..n], ys[..n], zs[..n]);
    }
  }

  /** A common factor comes out of a total. */
  lemma {:induction false} TotalScaled(k: real, xs: seq<real>)
    ensures Total(Scale(k, xs)) == k * Total(xs)
  {
    if xs != [] {
      var n := |xs| - 1;
      TotalScaled(k, xs[..n]);
      var s := Scale(k, xs);
      ScalePrefix(k, xs, n);
      assert Total(s) == Total(s[..n]) + s[n];
      Distribute(k, Total(xs[..n]), xs[n], Total(xs));
    }
  }

  /** Scaling commutes with taking a prefix. */
  lemma ScalePrefix(k: real, xs: seq<real>, n: nat)
    requires n <= |xs|
    ensures Scale(k, xs)[..n] == Scale(k, xs[..n])
  {
    var s, p := Scale(k, xs), Scale(k, xs[..n]);
    forall i | 0 <= i < n
      ensures s[..n][i] == p[i]
    {
      Congruent(k, xs[..n][i], xs[i]);
    }
  }

  lemma Distribute(k: real, x: real, y: real, sum: real)
    requires sum == x + y
    ensures k * sum == k * x + k * y
  {
  }

  lemma Congruent(k: real, x: real, y: real)
    requires x == y
    ensures k * x == k * y
  {
  }

  /**
   * The announced weights of the faces counted above `MinCount` add up to
   * `factor` times the sum of weights, less the weights of the faces at
   * exactly `MinCount`, which the sum counts but which are announced 1.
   */
  lemma NormalizedIsScaled(root: LoadStatsNode, n: nat, grace: real, factor: real, value: Readout)
    ensures Total(NormalizedWeights(root, n, grace, factor, value)) + factor * Total(BoundaryWeights(root, n, grace, value))
            == factor * SumOfWeightsUpTo(root, n, grace, value)
  {
    NormalizedTermwise(root, n, grace, factor, value);
    TotalScaled(factor, BoundaryWeights(root, n, grace, value));
    ScaledWeightsTotal(root, n, grace, factor, value);
  }

  /** The scaled terms of the sum of weights total the scaled sum. */
  lemma ScaledWeightsTotal(root: LoadStatsNode, n: nat, grace: real, factor: real, value: Readout)
    ensures Total(Scale(factor, Weights(root, n, grace, value))) == factor * SumOfWeightsUpTo(root, n, grace, value)
  {
    ScaledTotalIs(factor, Weights(root, n, grace, value), SumOfWeightsUpTo(root, n, grace, value));
  }

  /** `TotalScaled` for a total already known. */
  lemma ScaledTotalIs(k: real, xs: seq<real>, t: real)
    requires Total(xs) == t
    ensures Total(Scale(k, xs)) == k * t
  {
    TotalScaled(k, xs);
  }

  /** `NormalizedIsScaled` before the factor is taken out of the totals. */
  lemma NormalizedTermwise(root: LoadStatsNode, n: nat, grace: real, factor: real, value: Readout)
    ensures Total(NormalizedWeights(root, n, grace, factor, value)) + Total(Scale(factor, BoundaryWeights(root, n, grace, value)))
            == Total(Scale(factor, Weights(root, n, grace, value)))
  {
    var xs, sys, szs := NormalizedWeights(root, n, grace, factor, value),
                        Scale(factor, BoundaryWeights(root, n, grace, value)), Scale(factor, Weights(root, n, grace, value));
    forall f | 0 <= f < n
      ensures xs[f] + sys[f] == szs[f]
    {
      TermwiseAt(root, n, f, grace, factor, value);
    }
    TotalsAdd(xs, sys, szs);
  }

  /** The termwise relation of `NormalizedTermwise` at face `f`. */
  lemma TermwiseAt(root: LoadStatsNode, n: nat, f: FaceId, grace: real, factor: real, value: Readout)
    requires f < n
    ensures NormalizedWeights(root, n, grace, factor, value)[f] + Scale(factor, BoundaryWeights(root, n, grace, value))[f]
            == Scale(factor, Weights(root, n, grace, value))[f]
  {
    var nt, bt, st := TermScaled(root, f, grace, factor, value);
    ElementScaled(NormalizedWeights(root, n, grace, factor, value), BoundaryWeights(root, n, grace, value),
                  Weights(root, n, grace, value), f, factor, nt, bt, st);
  }

  /** One element of a termwise relation `x + factor * y == factor * z`, moved inside `Scale`. */
  lemma ElementScaled(xs: seq<real>, ys: seq<real>, zs: seq<real>, f: nat, factor: real, x: real, y: real, z: real)
    requires f < |xs| && |ys| == |zs| == |xs|
    requires xs[f] == x && ys[f] == y && zs[f] == z && x + factor * y == factor * z
    ensures xs[f] + Scale(factor, ys)[f] == Scale(factor, zs)[f]
  {
    Congruent(factor, ys[f], y);
    Congruent(factor, zs[f], z);
  }

  /**
   * With a factor that scales the sum of weights to 1, the announced weights
   * of the faces counted above `MinCount` add up to exactly 1, less the
   * scaled weights of the faces at exactly `MinCount`; without such a face
   * they add up to 1.
   */
  lemma ScaledToOne(root: LoadStatsNode, nFaces: nat, grace: real, factor: real, value: Readout)
    requires factor * SumOfWeightsUpTo(root, nFaces, grace, value) == 1.0
    ensures Total(NormalizedWeights(root, nFaces, grace, factor, value))
            == 1.0 - factor * Total(BoundaryWeights(root, nFaces, grace, value))
    ensures (forall f :: 0 <= f < nFaces ==> root.Readings(f, value).1 != MinCount) ==>
              Total(NormalizedWeights(root, nFaces, grace, factor, value)) == 1.0
  {
    NormalizedIsScaled(root, nFaces, grace, factor, value);
    assert Total(NormalizedWeights(root, nFaces, grace, factor, value))
           + factor * Total(BoundaryWeights(root, nFaces, grace, value)) == 1.0;
    if forall f :: 0 <= f < nFaces ==> root.Readings(f, value).1 != MinCount {
      TotalOfZeros(BoundaryWeights(root, nFaces, grace, value));
    }
  }

  /**
   * When the weights sum to more than 0.001 and less than 1, the normalised
   * announced weights of the faces counted above `MinCount` add up to
   * exactly 1, less the normalised weights of the faces at exactly
   * `MinCount`; without such a face they add up to 1.
   */
  lemma NormalizedSumIsOne(root: LoadStatsNode, nFaces: nat, grace: real, value: Readout)
    requires MinCount < SumOfWeightsUpTo(root, nFaces, grace, value) < 1.0
    ensures Total(NormalizedWeights(root, nFaces, grace, Normalization(SumOfWeightsUpTo(root, nFaces, grace, value)), value))
            == 1.0 - Normalization(SumOfWeightsUpTo(root, nFaces, grace, value))
                     * Total(BoundaryWeights(root, nFaces, grace, value))
    ensures (forall f :: 0 <= f < nFaces ==> root.Readings(f, value).1 != MinCount) ==>
      Total(NormalizedWeights(root, nFaces, grace, Normalization(SumOfWeightsUpTo(root, nFaces, grace, value)), value))
      == 1.0
  {
    ScaledToOne(root, nFaces, grace, Normalization(SumOfWeightsUpTo(root, nFaces, grace, value)), value);
  }

  /** The announcements to one FIB entry go to faces `0 .. n - 1` in order, with non-negative limits. */
  lemma {:induction false} EntryAnnouncementsShape(prefix: Name, n: nat, total: real, root: LoadStatsNode,
                                                   grace: real, factor: real, value: Readout)
    ensures var r := EntryAnnouncements(prefix, n, total, root, grace, factor, value);
      && |r| == n
      && forall f :: 0 <= f < n ==>
           r[f].0 == f && r[f].1.scope == 0 &&
           r[f].1.name == AnnouncementName(prefix, Max(0.0, FaceWeight(root, f, grace, factor, value) * total))
  {
    if n > 0 {
      EntryAnnouncementsShape(prefix, n - 1, total, root, grace, factor, value);
    }
  }

  /** `name` is `<prefix>/limit/<limit>` with a non-negative limit. */
  predicate IsLimitName(name: Name, prefix: Name)
  {
    && |name| == |prefix| + 2
    && name[..|prefix|] == prefix
    && name[|prefix|] == Text("limit")
    && name[|prefix| + 1].Number? && name[|prefix| + 1].value >= 0.0
  }

  /** `a` is a link-local announcement to one of the faces, for an entry of `fib` without disabled limiters. */
  predicate AnnouncedFor(fib: seq<FibEntry>, nFaces: nat, table: map<FaceId, Limiter>, a: (FaceId, Interest))
    requires forall i, j :: 0 <= i < |fib| && 0 <= j < |fib[i].faces| ==> fib[i].faces[j] in table
  {
    a.1.scope == 0 && a.0 < nFaces &&
    exists i :: 0 <= i < |fib| && !AnyDisabled(fib[i].faces, table) && IsLimitName(a.1.name, fib[i].prefix)
  }

  /**
   * Every announcement is link-local, goes to one of the node's faces, and is
   * named by the prefix of one FIB entry without disabled limiters followed
   * by `limit` and a non-negative limit.
   */
  lemma {:induction false} AnnouncementsWellFormed(fib: seq<FibEntry>, nFaces: nat, root: LoadStatsNode, grace: real,
                                                   factor: real, table: map<FaceId, Limiter>, value: Readout)
    requires forall i, j :: 0 <= i < |fib| && 0 <= j < |fib[i].faces| ==> fib[i].faces[j] in table
    ensures forall k :: 0 <= k < |Announcements(fib, nFaces, root, grace, factor, table, value)| ==>
      AnnouncedFor(fib, nFaces, table, Announcements(fib, nFaces, root, grace, factor, table, value)[k])
    decreases |fib|
  {
    if fib != [] {
      var init := fib[..|fib| - 1];
      var last := fib[|fib| - 1];
      AnnouncementsWellFormed(init, nFaces, root, grace, factor, table, value);
      var r0 := Announcements(init, nFaces, root, grace, factor, table, value);
      var r := Announcements(fib, nFaces, root, grace, factor, table, value);
      var tail := if AnyDisabled(last.faces, table) then []
        else EntryAnnouncements(last.prefix, nFaces, SumOfLimits(last.faces, table), root, grace, factor, value);
      assert r == r0 + tail;
      forall k | 0 <= k < |r|
        ensures AnnouncedFor(fib, nFaces, table, r[k])
      {
        if k < |r0| {
          assert r[k] == r0[k];
          assert AnnouncedFor(init, nFaces, table, r0[k]);
          var i :| 0 <= i < |init| && !AnyDisabled(init[i].faces, table) && IsLimitName(r0[k].1.name, init[i].prefix);
          assert fib[i] == init[i];
        } else {
          var total := SumOfLimits(last.faces, table);
          EntryAnnouncementsShape(last.prefix, nFaces, total, root, grace, factor, value);
          var f := k - |r0|;
          assert r[k] == tail[f];
          var limit := Max(0.0, FaceWeight(root, f, grace, factor, value) * total);
          var name := AnnouncementName(last.prefix, limit);
          assert name[..|last.prefix|] == last.prefix;
          assert IsLimitName(r[k].1.name, fib[|fib| - 1].prefix);
        }
      }
    }
  }

  /**
   * An announcement carries its limit in its last component and its prefix
   * in all but the last two: the receiving side recovers exactly the limit
   * that was sent, whatever `parse` does.
   */
  lemma AnnouncementRoundTrip(prefix: Name, limit: real, parse: string -> Option<real>)
    ensures AnnouncedLimit(AnnouncementName(prefix, limit), parse) == Some(limit)
    ensures WithoutLast(WithoutLast(AnnouncementName(prefix, limit))) == prefix
  {
    var name := AnnouncementName(prefix, limit);
    assert name[..|name| - 1][..|name| - 2] == prefix;
  }
}
