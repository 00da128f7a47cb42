/**
 * Per-face limiters (`ns3::ndn::Limits`, aggregated to every face) as the
 * strategies use them, and the FIB-face allowance loop shared by the
 * acceptance and pushback strategies.
 *
 * The limiter implementation (`ndn-limits.h`, Window and Rate variants) is
 * not modelled; the model assumes the window behaviour: a limiter is
 * below its limit when it is disabled or when one more outstanding
 * Interest still fits under the current limit; a borrow counts one more
 * outstanding Interest and a return one less.
 */
module Limits {
  import opened Names

  datatype Limiter = Limiter(enabled: bool, currentLimit: real, outstanding: nat)
  {
    /** `IsBelowLimit ()` (window semantics). */
    predicate IsBelowLimit()
    {
      !enabled || (outstanding + 1) as real <= currentLimit
    }

    /** `BorrowLimit ()`: one more outstanding Interest. */
    function Borrowed(): (r: Limiter)
      ensures r.outstanding == outstanding + 1
      ensures r.enabled == enabled && r.currentLimit == currentLimit
    {
      this.(outstanding := outstanding + 1)
    }

    /** `ReturnLimit ()`: one fewer outstanding Interest (never below zero). */
    function Returned(): (r: Limiter)
      ensures outstanding > 0 ==> r.outstanding == outstanding - 1
      ensures r.enabled == enabled && r.currentLimit == currentLimit
    {
      this.(outstanding := if outstanding > 0 then outstanding - 1 else 0)
    }

    /** `UpdateCurrentLimit (limit)`. */
    function WithLimit(limit: real): (r: Limiter)
      ensures r.currentLimit == limit
      ensures r.enabled == enabled && r.outstanding == outstanding
    {
      this.(currentLimit := limit)
    }
  }

  /** The limiters of all faces, shared by every strategy layer of a node. */
  class LimitTable {
    var limits: map<FaceId, Limiter>

    constructor()
      ensures limits == map[]
    {
      limits := map[];
    }

    /** A face's limiter, once created by the token-bucket layer's `AddFace`. */
    method Attach(face: FaceId, limiter: Limiter)
      modifies this
      ensures limits == old(limits)[face := limiter]
    {
      limits := limits[face := limiter];
    }

    /** `GetObject<Limits> ()->UpdateCurrentLimit (limit)` on `face`. */
    method UpdateCurrentLimit(face: FaceId, limit: real)
      requires face in limits
      modifies this
      ensures limits == old(limits)[face := old(limits)[face].WithLimit(limit)]
    {
      limits := limits[face := limits[face].WithLimit(limit)];
    }

    /** `GetObject<Limits> ()->BorrowLimit ()` on `face`. */
    method Borrow(face: FaceId)
      requires face in limits
      modifies this
      ensures limits == old(limits)[face := old(limits)[face].Borrowed()]
    {
      limits := limits[face := limits[face].Borrowed()];
    }

    /** `GetObject<Limits> ()->ReturnLimit ()` on `face`. */
    method Return(face: FaceId)
      requires face in limits
      modifies this
      ensures limits == old(limits)[face := old(limits)[face].Returned()]
    {
      limits := limits[face := limits[face].Returned()];
    }

    /** The loop over a PIT entry's outgoing faces: `ReturnLimit ()` on each once. */
    method ReturnEach(faces: set<FaceId>)
      requires faces <= limits.Keys
      modifies this
      ensures limits == ReturnedAll(old(limits), faces)
    {
      var todo := faces;
      while todo != {}
        invariant todo <= faces
        invariant limits == ReturnedAll(old(limits), faces - todo)
        decreases todo
      {
        var f :| f in todo;
        ReturnedAllOneMore(old(limits), faces - todo, f);
        assert faces - (todo - {f}) == (faces - todo) + {f};
        Return(f);
        todo := todo - {f};
      }
    }

    /**
     * The loop over a FIB entry's faces that both satisfaction-based
     * strategies run: `unlimited` is set, and the loop stops, at the first
     * face whose limiter is disabled; otherwise `totalAllowance` is the sum
     * of the faces' current limits.
     */
    method TotalAllowance(faces: seq<FaceId>) returns (totalAllowance: real, unlimited: bool)
      requires forall i :: 0 <= i < |faces| ==> faces[i] in limits
      ensures unlimited <==> AnyDisabled(faces, limits)
      ensures !unlimited ==> totalAllowance == SumOfLimits(faces, limits)
    {
      totalAllowance := 0.0;
      unlimited := false;
      var i := 0;
      while i < |faces|
        invariant 0 <= i <= |faces|
        invariant !unlimited
        invariant !AnyDisabled(faces[..i], limits)
        invariant totalAllowance == SumOfLimits(faces[..i], limits)
      {
        SumOfLimitsAppend(faces[..i], faces[i], limits);
        AnyDisabledAppend(faces[..i], faces[i], limits);
        assert faces[..i + 1] == faces[..i] + [faces[i]];
        if !limits[faces[i]].enabled {
          unlimited := true;
          assert faces[..i + 1] + faces[i + 1..] == faces;
          AnyDisabledConcat(faces[..i + 1], faces[i + 1..], limits);
          return;
        }
        totalAllowance := totalAllowance + limits[faces[i]].currentLimit;
        i := i + 1;
      }
      assert faces[..i] == faces;
    }
  }

  /** The limiters after every face of `faces` has returned one credit. */
  function ReturnedAll(table: map<FaceId, Limiter>, faces: set<FaceId>): (r: map<FaceId, Limiter>)
    ensures r.Keys == table.Keys
    ensures forall f :: f in faces && f in table && table[f].outstanding > 0 ==>
              r[f].outstanding == table[f].outstanding - 1
    ensures forall f :: f in table ==> r[f].enabled == table[f].enabled && r[f].currentLimit == table[f].currentLimit
    ensures forall f :: f in table && f !in faces ==> r[f] == table[f]
  {
    map f | f in table :: if f in faces then table[f].Returned() else table[f]
  }

  lemma ReturnedAllOneMore(table: map<FaceId, Limiter>, done: set<FaceId>, f: FaceId)
    requires f in table && f !in done
    ensures ReturnedAll(table, done + {f}) == ReturnedAll(table, done)[f := table[f].Returned()]
  {
    assert ReturnedAll(table, done + {f}).Keys == ReturnedAll(table, done)[f := table[f].Returned()].Keys;
  }

  /** Some face of `faces` has its limiter disabled. */
  predicate AnyDisabled(faces: seq<FaceId>, table: map<FaceId, Limiter>)
    requires forall i :: 0 <= i < |faces| ==> faces[i] in table
  {
    exists i :: 0 <= i < |faces| && !table[faces[i]].enabled
  }

  /** The sum of the current limits of `faces`. */
  function SumOfLimits(faces: seq<FaceId>, table: map<FaceId, Limiter>): (r: real)
    requires forall i :: 0 <= i < |faces| ==> faces[i] in table
  {
    if faces == [] then 0.0
    else SumOfLimits(faces[..|faces| - 1], table) + table[faces[|faces| - 1]].currentLimit
  }

  lemma SumOfLimitsAppend(faces: seq<FaceId>, f: FaceId, table: map<FaceId, Limiter>)
    requires forall i :: 0 <= i < |faces| ==> faces[i] in table
    requires f in table
    ensures SumOfLimits(faces + [f], table) == SumOfLimits(faces, table) + table[f].currentLimit
  {
    assert (faces + [f])[..|faces|] == faces;
  }

  lemma AnyDisabledAppend(faces: seq<FaceId>, f: FaceId, table: map<FaceId, Limiter>)
    requires forall i :: 0 <= i < |faces| ==> faces[i] in table
    requires f in table
    ensures AnyDisabled(faces + [f], table) <==> AnyDisabled(faces, table) || !table[f].enabled
  {
    if AnyDisabled(faces + [f], table) && table[f].enabled {
      var i :| 0 <= i < |faces + [f]| && !table[(faces + [f])[i]].enabled;
      assert i < |faces| && faces[i] == (faces + [f])[i];
    }
    if AnyDisabled(faces, table) {
      var i :| 0 <= i < |faces| && !table[faces[i]].enabled;
      assert (faces + [f])[i] == faces[i];
    }
    if !table[f].enabled {
      assert (faces + [f])[|faces|] == f;
    }
  }

  lemma AnyDisabledConcat(a: seq<FaceId>, b: seq<FaceId>, table: map<FaceId, Limiter>)
    requires forall i :: 0 <= i < |a| ==> a[i] in table
    requires forall i :: 0 <= i < |b| ==> b[i] in table
    requires AnyDisabled(a, table)
    ensures AnyDisabled(a + b, table)
  {
    var i :| 0 <= i < |a| && !table[a[i]].enabled;
    assert (a + b)[i] == a[i];
  }

  /** With every limit non-negative, so is the total allowance. */
  lemma {:induction false} SumOfLimitsNonNegative(faces: seq<FaceId>, table: map<FaceId, Limiter>)
    requires forall i :: 0 <= i < |faces| ==> faces[i] in table && table[faces[i]].currentLimit >= 0.0
    ensures SumOfLimits(faces, table) >= 0.0
    decreases |faces|
  {
    if faces != [] {
      SumOfLimitsNonNegative(faces[..|faces| - 1], table);
    }
  }
}
