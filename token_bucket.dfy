/**
 * The `TokenBucketWithPerInterfaceFairness` forwarding-strategy layer
 * (extensions/strategies/token-bucket-with-per-interface-fairness.h and .cc),
 * stacked on the satisfaction-based pushback layer.
 *
 * Each face has a limiter and each outgoing face a queue of PIT entries
 * waiting for credit. An Interest goes out while its out-face's limiter has
 * credit; otherwise its PIT entry waits in that face's queue until
 * `ProcessFromQueue` drains the queue. A credit is borrowed every time a
 * face is added to an entry's outgoing set, and one is returned for every
 * such face when the entry times out or is satisfied. So, at every face,
 * the outstanding credits equal the number of live entries that went out on
 * it (`Conserved`).
 *
 * The node's state that this layer reads and writes is gathered in a
 * `Snapshot`. Each method of the class is proved to move the state as a
 * function on snapshots says, and the properties are lemmas about those
 * functions.
 */
module TokenBucket {
  import opened Wrappers
  import opened Names
  import opened LoadStatsNode
  import opened StatsTrie
  import opened Limits
  import opened Stats
  import opened Pushback

  /** `Seconds (0.10)`: how long a queued entry is kept alive at a time. */
  const QueueLifetime: real := 0.1

  /**
   * A change of a PIT entry's expiry: `UpdateLifetime` sets it to the given
   * time from now, `OffsetLifetime` shifts it by the given time.
   */
  datatype LifetimeChange = UpdateLifetime(seconds: real) | OffsetLifetime(seconds: real)

  /**
   * What this layer uses of a PIT entry: the Interest's name and lifetime,
   * the faces it came in on, the faces it went out on, and the changes made
   * to its expiry, oldest first.
   */
  datatype PitEntry = PitEntry(name: Name, interestLifetime: real, incoming: seq<FaceId>,
                               outgoing: set<FaceId>, lifetimeLog: seq<LifetimeChange>)

  type EntryId = nat
  type Pit = map<EntryId, PitEntry>

  /** A queued entry's incoming face and its weight in the queue. */
  datatype QueueItem = QueueItem(inFace: FaceId, weight: real)

  /** A `PitQueue`: the entries waiting on one out-face. */
  type PitQueue = map<EntryId, QueueItem>

  /**
   * `PitQueue::Pop`: the queue's choice of the next entry to send, or none
   * when the weighted round robin holds every waiting entry back.
   */
  type PopPolicy = PitQueue -> Option<EntryId>

  /** A pop only ever yields an entry of the queue. */
  ghost predicate PopsQueued(pick: PopPolicy)
  {
    forall q :: pick(q).Some? ==> pick(q).value in q
  }

  /** `outFace->SendInterest (…)` for the Interest of PIT entry `entry`. */
  datatype Transmission = Transmission(outFace: FaceId, entry: EntryId)

  /**
   * What this layer sees of a node: the queues by out-face, the PIT, the
   * faces' limiters, the statistics trie, and the Interests sent so far.
   */
  datatype Snapshot = Snapshot(queues: map<FaceId, PitQueue>, pit: Pit, limits: map<FaceId, Limiter>,
                               tree: Trie, sent: seq<Transmission>)

  /**
   * The entry carries a `PitQueueTag`: it waits in some queue. The tag is
   * set by the queue and cleared when the entry leaves it, so it is modelled
   * by the queues' contents.
   */
  predicate Queued(queues: map<FaceId, PitQueue>, e: EntryId)
  {
    exists f :: f in queues && e in queues[f]
  }

  /** The live PIT entries that went out on face `f`. */
  function OutgoingOn(pit: Pit, f: FaceId): set<EntryId>
  {
    set e | e in pit && f in pit[e].outgoing
  }

  /** Every queue has a limiter and holds only entries of the PIT. */
  predicate QueuesReady(s: Snapshot)
  {
    && s.queues.Keys <= s.limits.Keys
    && (forall f, e :: f in s.queues && e in s.queues[f] ==> e in s.pit)
  }

  /**
   * Credit conservation: every face an entry went out on has a limiter
   * whose outstanding credits are the number of live entries that went out
   * on it; a queued entry waits in one queue only, and not on a face it
   * already went out on.
   */
  predicate Conserved(s: Snapshot)
  {
    QueuesReady(s) && CreditsMatch(s.pit, s.limits) && QueuesDisjoint(s)
  }

  /** Each face's outstanding credits are the live entries that went out on it. */
  predicate CreditsMatch(pit: Pit, limits: map<FaceId, Limiter>)
  {
    && (forall e :: e in pit ==> pit[e].outgoing <= limits.Keys)
    && (forall f :: f in limits ==> limits[f].outstanding == |OutgoingOn(pit, f)|)
  }

  /** A queued entry waits in one queue only, and not on a face it went out on. */
  predicate QueuesDisjoint(s: Snapshot)
    requires QueuesReady(s)
  {
    && (forall f, e :: f in s.queues && e in s.queues[f] ==> f !in s.pit[e].outgoing)
    && QueuesApart(s.queues)
  }

  /** No entry waits in two queues. */
  predicate QueuesApart(queues: map<FaceId, PitQueue>)
  {
    forall f, g :: f in queues && g in queues && f != g ==> queues[f].Keys !! queues[g].Keys
  }

  /** The PIT with `changes` made to the expiry of entry `e`. */
  function Relog(pit: Pit, e: EntryId, changes: seq<LifetimeChange>): Pit
    requires e in pit
  {
    pit[e := pit[e].(lifetimeLog := pit[e].lifetimeLog + changes)]
  }

  /** The static `PitQueue::Remove (pitEntry)`: the entry leaves every queue. */
  function WithoutEntry(queues: map<FaceId, PitQueue>, e: EntryId): map<FaceId, PitQueue>
  {
    map f | f in queues :: queues[f] - {e}
  }

  /** `PitQueue::Remove (face)`: the entries that came in on `face` leave the queue. */
  function WithoutInFace(q: PitQueue, face: FaceId): PitQueue
  {
    map e | e in q && q[e].inFace != face :: q[e]
  }

  /** The PIT entry `e` with `changes` made to its expiry. */
  function Relogged(s: Snapshot, e: EntryId, changes: seq<LifetimeChange>): Snapshot
    requires e in s.pit
  {
    s.(pit := Relog(s.pit, e, changes))
  }

  /**
   * Borrowing a credit on `outFace`, adding it to the outgoing faces of the
   * PIT entry `e`, sending, and counting the Interest at `counted` in the
   * statistics.
   */
  function Transmit(s: Snapshot, counted: FaceId, outFace: FaceId, e: EntryId): Snapshot
    requires outFace in s.limits && e in s.pit
  {
    var entry := s.pit[e];
    s.(pit := s.pit[e := entry.(outgoing := entry.outgoing + {outFace})],
       limits := s.limits[outFace := s.limits[outFace].Borrowed()],
       tree := Update(s.tree, WithoutLast(entry.name), (n: LoadStatsNode) => n.AddIncoming(counted)),
       sent := s.sent + [Transmission(outFace, e)])
  }

  /**
   * No credit on `outFace`: the entry's expiry is shifted back by its
   * Interest's lifetime and set to 0.1 s, the out-face gets a queue if it
   * had none, and the entry joins it if the queue admits it.
   */
  function Deferred(s: Snapshot, inFace: FaceId, outFace: FaceId, e: EntryId, admitted: bool): Snapshot
    requires e in s.pit
  {
    var t := Relogged(s, e, [OffsetLifetime(-s.pit[e].interestLifetime), UpdateLifetime(QueueLifetime)]);
    var queue: PitQueue := if outFace in t.queues then t.queues[outFace] else map[];
    t.(queues := t.queues[outFace := if admitted then queue[e := QueueItem(inFace, 1.0)] else queue])
  }

  /**
   * `TrySendOutInterest`: the new state and the result. `admitted` is what
   * the out-face queue's `Enqueue` answers (whether the entry fits in it).
   */
  function TrySend(s: Snapshot, inFace: FaceId, outFace: FaceId, e: EntryId, admitted: bool): (Snapshot, bool)
    requires e in s.pit && outFace in s.limits
  {
    if Queued(s.queues, e) then (Relogged(s, e, [UpdateLifetime(QueueLifetime)]), true)
    else if outFace in s.pit[e].outgoing then (s, false)
    else if s.limits[outFace].IsBelowLimit() then (Transmit(s, inFace, outFace, e), true)
    else (Deferred(s, inFace, outFace, e, admitted), admitted)
  }

  /**
   * One round of the drain loop of `ProcessFromQueue` on out-face `f`: the
   * popped entry `e` leaves the queue, gets its lifetime back, borrows and
   * goes out on `f`; the statistics count it at `f` itself.
   */
  function FromQueue(s: Snapshot, f: FaceId, e: EntryId): Snapshot
    requires f in s.queues && e in s.pit && f in s.limits
  {
    Transmit(Popped(s, f, e), f, f, e)
  }

  /** The entry `e` popped from the queue of `f`, with its lifetime given back. */
  function Popped(s: Snapshot, f: FaceId, e: EntryId): (r: Snapshot)
    requires f in s.queues && e in s.pit
    ensures r.pit.Keys == s.pit.Keys && r.limits == s.limits
  {
    s.(queues := s.queues[f := s.queues[f] - {e}],
       pit := Relog(s.pit, e, [OffsetLifetime(s.pit[e].interestLifetime - QueueLifetime)]))
  }

  /** The drain loop of `ProcessFromQueue` on out-face `f`, until it stops. */
  function Drain(s: Snapshot, f: FaceId, pick: PopPolicy): (r: Snapshot)
    requires QueuesReady(s) && f in s.queues && PopsQueued(pick)
    ensures QueuesReady(r)
    ensures r.queues.Keys == s.queues.Keys && r.pit.Keys == s.pit.Keys && r.limits.Keys == s.limits.Keys
    decreases s.queues[f].Keys
  {
    if s.queues[f] == map[] || !s.limits[f].IsBelowLimit() then s
    else match pick(s.queues[f])
      case None => s
      case Some(e) =>
        var next := FromQueue(s, f, e);
        assert next.queues[f].Keys < s.queues[f].Keys;
        Drain(next, f, pick)
  }

  /** `ProcessFromQueue`: every queue drained in turn, in the order `order`. */
  function ProcessAll(s: Snapshot, order: seq<FaceId>, pick: PopPolicy): (r: Snapshot)
    requires QueuesReady(s) && PopsQueued(pick)
    requires forall i :: 0 <= i < |order| ==> order[i] in s.queues
    ensures QueuesReady(r)
    ensures r.queues.Keys == s.queues.Keys && r.pit.Keys == s.pit.Keys && r.limits.Keys == s.limits.Keys
    decreases |order|
  {
    if order == [] then s else ProcessAll(Drain(s, order[0], pick), order[1..], pick)
  }

  /**
   * `WillEraseTimedOutPendingInterest`: the entry leaves the queues; only if
   * it was in none are its incoming faces counted unsatisfied; every face it
   * went out on gets a credit back.
   */
  function TimedOut(s: Snapshot, e: EntryId): Snapshot
    requires e in s.pit && s.pit[e].outgoing <= s.limits.Keys
  {
    var entry := s.pit[e];
    s.(queues := WithoutEntry(s.queues, e),
       tree := if Queued(s.queues, e) then s.tree
               else Update(s.tree, WithoutLast(entry.name), (n: LoadStatsNode) => UnsatisfiedFor(n, entry.incoming)),
       limits := ReturnedAll(s.limits, entry.outgoing))
  }

  /** A timed-out entry after the PIT has erased it. */
  function Expired(s: Snapshot, e: EntryId): Snapshot
    requires e in s.pit && s.pit[e].outgoing <= s.limits.Keys
  {
    TimedOut(s, e).(pit := s.pit - {e})
  }

  /** `WillSatisfyPendingInterest`: the entry leaves the queues and every out-face gets a credit back. */
  function Satisfying(s: Snapshot, e: EntryId): Snapshot
    requires e in s.pit && s.pit[e].outgoing <= s.limits.Keys
  {
    s.(queues := WithoutEntry(s.queues, e), limits := ReturnedAll(s.limits, s.pit[e].outgoing))
  }

  /** A satisfied entry after the PIT has erased it. */
  function Satisfied(s: Snapshot, e: EntryId): Snapshot
    requires e in s.pit && s.pit[e].outgoing <= s.limits.Keys
  {
    Satisfying(s, e).(pit := s.pit - {e})
  }

  /** `AddFace`: the face gets a fresh limiter with no outstanding credit. */
  function FaceAdded(s: Snapshot, face: FaceId, enabled: bool, limit: real): Snapshot
  {
    s.(limits := s.limits[face := Limiter(enabled, limit, 0)])
  }

  /**
   * `RemoveFace`: every queue drops the entries that came in on the face,
   * the face's own queue goes, and the statistics forget the face.
   */
  function FaceRemoved(s: Snapshot, face: FaceId): Snapshot
  {
    s.(queues := map f | f in s.queues && f != face :: WithoutInFace(s.queues[f], face),
       tree := RemoveFaceEverywhere(s.tree, face))
  }

  /** A new PIT entry, as the PIT creates it: not gone out on any face yet. */
  function EntryCreated(s: Snapshot, e: EntryId, name: Name, lifetime: real, incoming: seq<FaceId>): Snapshot
  {
    s.(pit := s.pit[e := PitEntry(name, lifetime, incoming, {}, [])])
  }

  // ---------------------------------------------------------------------
  // Counting the entries gone out on a face.

  lemma OutgoingOnSame(pit: Pit, e: EntryId, x: PitEntry)
    requires e in pit && x.outgoing == pit[e].outgoing
    ensures forall g :: OutgoingOn(pit[e := x], g) == OutgoingOn(pit, g)
  {
    forall g ensures OutgoingOn(pit[e := x], g) == OutgoingOn(pit, g) {
      assert forall d :: d in OutgoingOn(pit[e := x], g) <==> d in OutgoingOn(pit, g);
    }
  }

  lemma OutgoingOnAdded(pit: Pit, e: EntryId, x: PitEntry, f: FaceId)
    requires e in pit && x.outgoing == pit[e].outgoing + {f} && f !in pit[e].outgoing
    ensures forall g :: g != f ==> OutgoingOn(pit[e := x], g) == OutgoingOn(pit, g)
    ensures OutgoingOn(pit[e := x], f) == OutgoingOn(pit, f) + {e}
    ensures |OutgoingOn(pit[e := x], f)| == |OutgoingOn(pit, f)| + 1
  {
    forall g | g != f ensures OutgoingOn(pit[e := x], g) == OutgoingOn(pit, g) {
      assert forall d :: d in OutgoingOn(pit[e := x], g) <==> d in OutgoingOn(pit, g);
    }
    assert forall d :: d in OutgoingOn(pit[e := x], f) <==> d in OutgoingOn(pit, f) + {e};
    assert e !in OutgoingOn(pit, f);
  }

  lemma OutgoingOnErased(pit: Pit, e: EntryId)
    requires e in pit
    ensures forall g :: g !in pit[e].outgoing ==> OutgoingOn(pit - {e}, g) == OutgoingOn(pit, g)
    ensures forall g :: g in pit[e].outgoing ==>
              e in OutgoingOn(pit, g) && |OutgoingOn(pit - {e}, g)| == |OutgoingOn(pit, g)| - 1
  {
    forall g ensures OutgoingOn(pit - {e}, g) == OutgoingOn(pit, g) - {e} {
      assert forall d :: d in OutgoingOn(pit - {e}, g) <==> d in OutgoingOn(pit, g) - {e};
    }
  }

  // ---------------------------------------------------------------------
  // Credit conservation is kept by every operation.

  /** Changing a PIT entry's expiry keeps the credits conserved. */
  lemma ReloggedConserves(s: Snapshot, e: EntryId, changes: seq<LifetimeChange>)
    requires Conserved(s) && e in s.pit
    ensures Conserved(Relogged(s, e, changes))
  {
    var r := Relogged(s, e, changes);
    OutgoingOnSame(s.pit, e, r.pit[e]);
    assert CreditsMatch(r.pit, r.limits);
  }

  /**
   * Sending an entry that waits in no queue out on a face it has not gone
   * out on keeps the credits conserved.
   */
  lemma TransmitConserves(s: Snapshot, counted: FaceId, outFace: FaceId, e: EntryId)
    requires Conserved(s) && outFace in s.limits && e in s.pit
    requires outFace !in s.pit[e].outgoing && !Queued(s.queues, e)
    ensures Conserved(Transmit(s, counted, outFace, e))
  {
    var r := Transmit(s, counted, outFace, e);
    OutgoingOnAdded(s.pit, e, r.pit[e], outFace);
    assert CreditsMatch(r.pit, r.limits) by {
      forall f | f in r.limits ensures r.limits[f].outstanding == |OutgoingOn(r.pit, f)| {
        if f != outFace {
          assert r.limits[f] == s.limits[f];
        }
      }
    }
    assert QueuesDisjoint(r) by {
      forall f, d | f in r.queues && d in r.queues[f] ensures d != e {
      }
    }
  }

  /** Deferring an entry that waits in no queue, on a face it has not gone out on, keeps the credits conserved. */
  lemma DeferredConserves(s: Snapshot, inFace: FaceId, outFace: FaceId, e: EntryId, admitted: bool)
    requires Conserved(s) && outFace in s.limits && e in s.pit
    requires outFace !in s.pit[e].outgoing && !Queued(s.queues, e)
    ensures Conserved(Deferred(s, inFace, outFace, e, admitted))
  {
    var changes := [OffsetLifetime(-s.pit[e].interestLifetime), UpdateLifetime(QueueLifetime)];
    var t := Relogged(s, e, changes);
    ReloggedConserves(s, e, changes);
    var queue: PitQueue := if outFace in t.queues then t.queues[outFace] else map[];
    var q: PitQueue := if admitted then queue[e := QueueItem(inFace, 1.0)] else queue;
    assert t.queues == s.queues && t.pit[e].outgoing == s.pit[e].outgoing;
    EnqueuedConserves(t, outFace, e, q);
    assert Deferred(s, inFace, outFace, e, admitted) == t.(queues := t.queues[outFace := q]);
  }

  /** Putting `e`, which waits in no queue, into the queue of a face it has not gone out on keeps the credits conserved. */
  lemma EnqueuedConserves(t: Snapshot, outFace: FaceId, e: EntryId, q: PitQueue)
    requires Conserved(t) && outFace in t.limits && e in t.pit
    requires outFace !in t.pit[e].outgoing && !Queued(t.queues, e)
    requires q.Keys <= (if outFace in t.queues then t.queues[outFace].Keys else {}) + {e}
    ensures Conserved(t.(queues := t.queues[outFace := q]))
  {
    QueuedAtMostOnce(t.queues, outFace, e, q);
  }

  /**
   * Putting `e`, which waits in no queue, into the queue of `outFace` (or
   * leaving that queue as it is) keeps every entry in one queue at most.
   */
  lemma QueuedAtMostOnce(queues: map<FaceId, PitQueue>, outFace: FaceId, e: EntryId, q: PitQueue)
    requires QueuesApart(queues) && !Queued(queues, e)
    requires q.Keys <= (if outFace in queues then queues[outFace].Keys else {}) + {e}
    ensures QueuesApart(queues[outFace := q])
  {
    var r := queues[outFace := q];
    forall f, g | f in r && g in r && f != g
      ensures r[f].Keys !! r[g].Keys
    {
      if f == outFace {
        assert e !in queues[g];
      } else if g == outFace {
        assert e !in queues[f];
      }
    }
  }

  /** `TrySendOutInterest` keeps the credits conserved. */
  lemma TrySendConserves(s: Snapshot, inFace: FaceId, outFace: FaceId, e: EntryId, admitted: bool)
    requires Conserved(s) && e in s.pit && outFace in s.limits
    ensures Conserved(TrySend(s, inFace, outFace, e, admitted).0)
  {
    if Queued(s.queues, e) {
      ReloggedConserves(s, e, [UpdateLifetime(QueueLifetime)]);
    } else if outFace in s.pit[e].outgoing {
    } else if s.limits[outFace].IsBelowLimit() {
      TransmitConserves(s, inFace, outFace, e);
    } else {
      DeferredConserves(s, inFace, outFace, e, admitted);
    }
  }

  /** Popping an entry from its queue keeps the credits conserved and leaves it in no queue. */
  lemma PoppedConserves(s: Snapshot, f: FaceId, e: EntryId)
    requires Conserved(s) && f in s.queues && e in s.queues[f]
    ensures Conserved(Popped(s, f, e))
    ensures !Queued(Popped(s, f, e).queues, e) && f !in Popped(s, f, e).pit[e].outgoing
  {
    var r := Popped(s, f, e);
    OutgoingOnSame(s.pit, e, r.pit[e]);
    assert CreditsMatch(r.pit, r.limits);
    forall g, d | g in r.queues && d in r.queues[g] ensures d in s.queues[g] {
    }
    forall g | g in r.queues ensures e !in r.queues[g] {
    }
  }

  /** One round of draining a queue keeps the credits conserved. */
  lemma FromQueueConserves(s: Snapshot, f: FaceId, e: EntryId)
    requires Conserved(s) && f in s.queues && e in s.queues[f]
    ensures Conserved(FromQueue(s, f, e))
  {
    PoppedConserves(s, f, e);
    TransmitConserves(Popped(s, f, e), f, f, e);
  }

  /** Draining a queue keeps the credits conserved. */
  lemma {:induction false} DrainConserves(s: Snapshot, f: FaceId, pick: PopPolicy)
    requires Conserved(s) && f in s.queues && PopsQueued(pick)
    ensures Conserved(Drain(s, f, pick))
    decreases s.queues[f].Keys
  {
    if s.queues[f] != map[] && s.limits[f].IsBelowLimit() && pick(s.queues[f]).Some? {
      var e := pick(s.queues[f]).value;
      FromQueueConserves(s, f, e);
      var next := FromQueue(s, f, e);
      assert next.queues[f].Keys < s.queues[f].Keys;
      DrainConserves(next, f, pick);
    }
  }

  /** `ProcessFromQueue` keeps the credits conserved. */
  lemma {:induction false} ProcessAllConserves(s: Snapshot, order: seq<FaceId>, pick: PopPolicy)
    requires Conserved(s) && PopsQueued(pick)
    requires forall i :: 0 <= i < |order| ==> order[i] in s.queues
    ensures Conserved(ProcessAll(s, order, pick))
    decreases |order|
  {
    if order != [] {
      DrainConserves(s, order[0], pick);
      ProcessAllConserves(Drain(s, order[0], pick), order[1..], pick);
    }
  }

  /** A time-out followed by the PIT's erase keeps the credits conserved. */
  lemma ExpiredConserves(s: Snapshot, e: EntryId)
    requires Conserved(s) && e in s.pit
    ensures Conserved(Expired(s, e))
  {
    var r := Expired(s, e);
    OutgoingOnErased(s.pit, e);
    forall f | f in r.limits ensures r.limits[f].outstanding == |OutgoingOn(r.pit, f)| {
    }
    forall f, d | f in r.queues && d in r.queues[f] ensures d in s.queues[f] && d != e {
    }
  }

  /** A satisfaction followed by the PIT's erase keeps the credits conserved. */
  lemma SatisfiedConserves(s: Snapshot, e: EntryId)
    requires Conserved(s) && e in s.pit
    ensures Conserved(Satisfied(s, e))
  {
    var r := Satisfied(s, e);
    OutgoingOnErased(s.pit, e);
    forall f | f in r.limits ensures r.limits[f].outstanding == |OutgoingOn(r.pit, f)| {
    }
    forall f, d | f in r.queues && d in r.queues[f] ensures d in s.queues[f] && d != e {
    }
  }

  /** Adding a face that has no limiter yet keeps the credits conserved. */
  lemma FaceAddedConserves(s: Snapshot, face: FaceId, enabled: bool, limit: real)
    requires Conserved(s) && face !in s.limits
    ensures Conserved(FaceAdded(s, face, enabled, limit))
  {
    assert OutgoingOn(s.pit, face) == {} by {
      forall d | d in s.pit ensures face !in s.pit[d].outgoing {
      }
    }
  }

  /** Removing a face keeps the credits conserved. */
  lemma FaceRemovedConserves(s: Snapshot, face: FaceId)
    requires Conserved(s)
    ensures Conserved(FaceRemoved(s, face))
  {
    var r := FaceRemoved(s, face);
    forall f, d | f in r.queues && d in r.queues[f] ensures f in s.queues && d in s.queues[f] {
    }
  }

  /** A new PIT entry under a fresh identifier keeps the credits conserved. */
  lemma EntryCreatedConserves(s: Snapshot, e: EntryId, name: Name, lifetime: real, incoming: seq<FaceId>)
    requires Conserved(s) && e !in s.pit
    ensures Conserved(EntryCreated(s, e, name, lifetime, incoming))
  {
    var r := EntryCreated(s, e, name, lifetime, incoming);
    forall f | f in r.limits ensures OutgoingOn(r.pit, f) == OutgoingOn(s.pit, f) {
      assert forall d :: d in OutgoingOn(r.pit, f) <==> d in OutgoingOn(s.pit, f);
    }
  }

  // ---------------------------------------------------------------------
  // The four outcomes of `TrySendOutInterest`.

  /**
   * An entry already waiting in a queue is accepted again with only its
   * expiry reset: no credit, no queue, no outgoing face, no transmission
   * and no statistics change.
   */
  lemma TrySendWhileQueued(s: Snapshot, inFace: FaceId, outFace: FaceId, e: EntryId, admitted: bool)
    requires e in s.pit && outFace in s.limits && Queued(s.queues, e)
    ensures var (r, ok) := TrySend(s, inFace, outFace, e, admitted);
      && ok
      && r.queues == s.queues && r.limits == s.limits && r.tree == s.tree && r.sent == s.sent
      && r.pit.Keys == s.pit.Keys
      && (forall d :: d in s.pit && d != e ==> r.pit[d] == s.pit[d])
      && r.pit[e].outgoing == s.pit[e].outgoing
      && r.pit[e].lifetimeLog == s.pit[e].lifetimeLog + [UpdateLifetime(0.1)]
  {
  }

  /** A second attempt on a face the entry already went out on is refused and changes nothing. */
  lemma TrySendSuppressed(s: Snapshot, inFace: FaceId, outFace: FaceId, e: EntryId, admitted: bool)
    requires e in s.pit && outFace in s.limits && !Queued(s.queues, e) && outFace in s.pit[e].outgoing
    ensures TrySend(s, inFace, outFace, e, admitted) == (s, false)
  {
  }

  /**
   * With credit available the Interest goes out at once: one credit is
   * borrowed on the out-face, the entry now counts among those gone out on
   * it, one transmission is recorded, and the statistics count it at the
   * incoming face under the name's prefix; the queues stay as they were.
   */
  lemma TrySendAtOnce(s: Snapshot, inFace: FaceId, outFace: FaceId, e: EntryId, admitted: bool)
    requires e in s.pit && outFace in s.limits && !Queued(s.queues, e) && outFace !in s.pit[e].outgoing
    requires s.limits[outFace].IsBelowLimit()
    ensures var (r, ok) := TrySend(s, inFace, outFace, e, admitted);
      && ok
      && r.limits == s.limits[outFace := s.limits[outFace].Borrowed()]
      && r.limits[outFace].outstanding == s.limits[outFace].outstanding + 1
      && OutgoingOn(r.pit, outFace) == OutgoingOn(s.pit, outFace) + {e}
      && (forall g :: g != outFace ==> OutgoingOn(r.pit, g) == OutgoingOn(s.pit, g))
      && r.pit[e].lifetimeLog == s.pit[e].lifetimeLog
      && r.sent == s.sent + [Transmission(outFace, e)]
      && r.tree == Update(s.tree, WithoutLast(s.pit[e].name), (n: LoadStatsNode) => n.AddIncoming(inFace))
      && r.queues == s.queues
  {
    OutgoingOnAdded(s.pit, e, s.pit[e].(outgoing := s.pit[e].outgoing + {outFace}), outFace);
  }

  /**
   * Without credit the entry's expiry is first shifted back by its
   * Interest's lifetime and then set to 0.1 s, the out-face gets a queue if
   * it had none, and the entry joins that queue with its incoming face and
   * weight 1.0 exactly when the queue admits it; the result is the queue's
   * answer. No credit moves and nothing is sent.
   */
  lemma TrySendDeferred(s: Snapshot, inFace: FaceId, outFace: FaceId, e: EntryId, admitted: bool)
    requires e in s.pit && outFace in s.limits && !Queued(s.queues, e) && outFace !in s.pit[e].outgoing
    requires !s.limits[outFace].IsBelowLimit()
    ensures var (r, ok) := TrySend(s, inFace, outFace, e, admitted);
      && ok == admitted
      && r.limits == s.limits && r.tree == s.tree && r.sent == s.sent
      && (forall g :: OutgoingOn(r.pit, g) == OutgoingOn(s.pit, g))
      && r.pit[e].lifetimeLog ==
           s.pit[e].lifetimeLog + [OffsetLifetime(-s.pit[e].interestLifetime), UpdateLifetime(0.1)]
      && outFace in r.queues
      && (e in r.queues[outFace] <==> admitted)
      && (admitted ==> r.queues[outFace][e] == QueueItem(inFace, 1.0))
      && (Queued(r.queues, e) <==> admitted)
      && (forall d :: d != e ==> (outFace in s.queues && d in s.queues[outFace] <==> d in r.queues[outFace]))
      && (forall g :: g in s.queues && g != outFace ==> r.queues[g] == s.queues[g])
  {
    var entry := s.pit[e];
    OutgoingOnSame(s.pit, e, Relog(s.pit, e, [OffsetLifetime(-entry.interestLifetime), UpdateLifetime(QueueLifetime)])[e]);
  }

  // ---------------------------------------------------------------------
  // Time-out and satisfaction.

  /**
   * A timed-out entry leaves every queue and the PIT, and each face it went
   * out on has one credit fewer outstanding (every other face keeps its
   * credits). Its incoming faces are counted unsatisfied under its prefix
   * exactly when it was not waiting in a queue; otherwise the statistics
   * do not change.
   */
  lemma ExpiredAccounting(s: Snapshot, e: EntryId)
    requires Conserved(s) && e in s.pit
    ensures var r := Expired(s, e);
      && e !in r.pit && !Queued(r.queues, e)
      && r.limits.Keys == s.limits.Keys
      && (forall f :: f in s.pit[e].outgoing ==> r.limits[f].outstanding == s.limits[f].outstanding - 1)
      && (forall f :: f in s.limits && f !in s.pit[e].outgoing ==> r.limits[f] == s.limits[f])
      && (Queued(s.queues, e) ==> r.tree == s.tree)
      && (!Queued(s.queues, e) ==>
            r.tree == Update(s.tree, WithoutLast(s.pit[e].name), (n: LoadStatsNode) => UnsatisfiedFor(n, s.pit[e].incoming)))
      && r.sent == s.sent
  {
    OutgoingOnErased(s.pit, e);
    var r := Expired(s, e);
    assert !Queued(r.queues, e) by {
      forall f | f in r.queues ensures e !in r.queues[f] {
      }
    }
  }

  /**
   * A satisfied entry leaves every queue and the PIT, each face it went out
   * on has one credit fewer outstanding, every other face keeps its
   * credits, and the statistics do not change.
   */
  lemma SatisfiedAccounting(s: Snapshot, e: EntryId)
    requires Conserved(s) && e in s.pit
    ensures var r := Satisfied(s, e);
      && e !in r.pit && !Queued(r.queues, e)
      && r.limits.Keys == s.limits.Keys
      && (forall f :: f in s.pit[e].outgoing ==> r.limits[f].outstanding == s.limits[f].outstanding - 1)
      && (forall f :: f in s.limits && f !in s.pit[e].outgoing ==> r.limits[f] == s.limits[f])
      && r.tree == s.tree && r.sent == s.sent
  {
    OutgoingOnErased(s.pit, e);
    var r := Satisfied(s, e);
    assert !Queued(r.queues, e) by {
      forall f | f in r.queues ensures e !in r.queues[f] {
      }
    }
  }

  /**
   * After `RemoveFace`, the face has no queue and no queue holds an entry
   * that came in on it; every other face's queue keeps exactly its other
   * entries. Limiters, PIT and transmissions are untouched.
   */
  lemma FaceRemovedQueues(s: Snapshot, face: FaceId)
    ensures var r := FaceRemoved(s, face);
      && r.queues.Keys == s.queues.Keys - {face}
      && (forall f, e :: f in r.queues && e in r.queues[f] ==> r.queues[f][e].inFace != face)
      && (forall f, e :: f in s.queues && f != face && e in s.queues[f] && s.queues[f][e].inFace != face ==>
            e in r.queues[f] && r.queues[f][e] == s.queues[f][e])
      && r.limits == s.limits && r.pit == s.pit && r.sent == s.sent
  {
  }

  // ---------------------------------------------------------------------
  // Draining the queues.

  /** A queue is drained until it is empty, its face is out of credit, or the queue holds back. */
  predicate Stopped(s: Snapshot, f: FaceId, pick: PopPolicy)
    requires f in s.queues && f in s.limits
  {
    s.queues[f] == map[] || !s.limits[f].IsBelowLimit() || pick(s.queues[f]).None?
  }

  /** Draining stops only where the loop condition or the pop says so. */
  lemma {:induction false} DrainStops(s: Snapshot, f: FaceId, pick: PopPolicy)
    requires QueuesReady(s) && f in s.queues && PopsQueued(pick)
    ensures Stopped(Drain(s, f, pick), f, pick)
    decreases s.queues[f].Keys
  {
    if s.queues[f] != map[] && s.limits[f].IsBelowLimit() && pick(s.queues[f]).Some? {
      var next := FromQueue(s, f, pick(s.queues[f]).value);
      assert next.queues[f].Keys < s.queues[f].Keys;
      DrainStops(next, f, pick);
    }
  }

  /** Draining the queue of `f` touches no other queue and no other face's limiter. */
  lemma {:induction false} DrainKeepsOthers(s: Snapshot, f: FaceId, pick: PopPolicy)
    requires QueuesReady(s) && f in s.queues && PopsQueued(pick)
    ensures forall g :: g in s.queues && g != f ==> Drain(s, f, pick).queues[g] == s.queues[g]
    ensures forall g :: g in s.limits && g != f ==> Drain(s, f, pick).limits[g] == s.limits[g]
    decreases s.queues[f].Keys
  {
    if s.queues[f] != map[] && s.limits[f].IsBelowLimit() && pick(s.queues[f]).Some? {
      var next := FromQueue(s, f, pick(s.queues[f]).value);
      assert next.queues[f].Keys < s.queues[f].Keys;
      DrainKeepsOthers(next, f, pick);
    }
  }

  /** What one round of draining changes. */
  lemma FromQueueEffect(s: Snapshot, f: FaceId, e: EntryId)
    requires f in s.queues && e in s.pit && f in s.limits
    ensures var n := FromQueue(s, f, e);
      && n.queues == s.queues[f := s.queues[f] - {e}]
      && n.limits == s.limits[f := s.limits[f].Borrowed()]
      && n.sent == s.sent + [Transmission(f, e)]
  {
  }

  /**
   * Draining the queue of `f` only removes entries from it, one per
   * Interest sent, and the limiter of `f` has one more credit outstanding
   * per Interest sent; earlier transmissions stay as they were.
   */
  lemma DrainCounts(s: Snapshot, f: FaceId, pick: PopPolicy)
    requires QueuesReady(s) && f in s.queues && PopsQueued(pick)
    ensures var r := Drain(s, f, pick);
      && r.queues[f].Keys <= s.queues[f].Keys
      && |s.sent| <= |r.sent|
      && |r.sent| - |s.sent| == |s.queues[f].Keys| - |r.queues[f].Keys|
      && r.limits[f].outstanding == s.limits[f].outstanding + (|r.sent| - |s.sent|)
      && r.sent[..|s.sent|] == s.sent
  {
    DrainShrinks(s, f, pick);
    DrainAppends(s, f, pick);
    DrainBorrows(s, f, pick);
  }

  /** The queue part of `DrainCounts`: entries leave the queue, one per Interest sent. */
  lemma {:induction false} DrainShrinks(s: Snapshot, f: FaceId, pick: PopPolicy)
    requires QueuesReady(s) && f in s.queues && PopsQueued(pick)
    ensures var r := Drain(s, f, pick);
      && r.queues[f].Keys <= s.queues[f].Keys
      && |r.sent| - |s.sent| == |s.queues[f].Keys| - |r.queues[f].Keys|
    decreases s.queues[f].Keys
  {
    if s.queues[f] != map[] && s.limits[f].IsBelowLimit() && pick(s.queues[f]).Some? {
      var e := pick(s.queues[f]).value;
      var next := FromQueue(s, f, e);
      FromQueueEffect(s, f, e);
      var keys := s.queues[f].Keys;
      assert e in keys && next.queues[f].Keys == keys - {e};
      assert |next.queues[f].Keys| == |keys| - 1;
      DrainShrinks(next, f, pick);
      assert Drain(s, f, pick) == Drain(next, f, pick);
    }
  }

  /** The transmission part of `DrainCounts`: draining only appends to what was sent. */
  lemma {:induction false} DrainAppends(s: Snapshot, f: FaceId, pick: PopPolicy)
    requires QueuesReady(s) && f in s.queues && PopsQueued(pick)
    ensures var r := Drain(s, f, pick);
      |s.sent| <= |r.sent| && r.sent[..|s.sent|] == s.sent
    decreases s.queues[f].Keys
  {
    if s.queues[f] != map[] && s.limits[f].IsBelowLimit() && pick(s.queues[f]).Some? {
      var e := pick(s.queues[f]).value;
      var next := FromQueue(s, f, e);
      FromQueueEffect(s, f, e);
      assert next.queues[f].Keys == s.queues[f].Keys - {e};
      DrainAppends(next, f, pick);
      var r := Drain(next, f, pick);
      assert Drain(s, f, pick) == r;
      PrefixOfExtension(s.sent, Transmission(f, e), r.sent);
    }
  }

  /** A sequence that starts with `xs + [x]` starts with `xs`. */
  lemma PrefixOfExtension<T>(xs: seq<T>, x: T, ys: seq<T>)
    requires |xs| + 1 <= |ys| && ys[..|xs| + 1] == xs + [x]
    ensures ys[..|xs|] == xs
  {
    assert ys[..|xs|] == ys[..|xs| + 1][..|xs|];
  }

  /** The limiter part of `DrainCounts`: one more credit outstanding per Interest sent. */
  lemma {:induction false} DrainBorrows(s: Snapshot, f: FaceId, pick: PopPolicy)
    requires QueuesReady(s) && f in s.queues && PopsQueued(pick)
    ensures var r := Drain(s, f, pick);
      r.limits[f].outstanding == s.limits[f].outstanding + (|r.sent| - |s.sent|)
    decreases s.queues[f].Keys
  {
    if s.queues[f] != map[] && s.limits[f].IsBelowLimit() && pick(s.queues[f]).Some? {
      var e := pick(s.queues[f]).value;
      var next := FromQueue(s, f, e);
      FromQueueEffect(s, f, e);
      assert next.queues[f].Keys == s.queues[f].Keys - {e};
      DrainBorrows(next, f, pick);
      assert Drain(s, f, pick) == Drain(next, f, pick);
    }
  }

  /**
   * Every Interest sent by draining the queue of `f` goes out on `f` and
   * is an entry that was waiting in that queue and no longer is.
   */
  lemma {:induction false} DrainSends(s: Snapshot, f: FaceId, pick: PopPolicy)
    requires QueuesReady(s) && f in s.queues && PopsQueued(pick)
    ensures var r := Drain(s, f, pick);
      forall k :: |s.sent| <= k < |r.sent| ==>
        r.sent[k].outFace == f && r.sent[k].entry in s.queues[f] && r.sent[k].entry !in r.queues[f]
    decreases s.queues[f].Keys
  {
    if s.queues[f] != map[] && s.limits[f].IsBelowLimit() && pick(s.queues[f]).Some? {
      var e := pick(s.queues[f]).value;
      var next := FromQueue(s, f, e);
      FromQueueEffect(s, f, e);
      assert next.queues[f].Keys == s.queues[f].Keys - {e};
      DrainSends(next, f, pick);
      DrainCounts(next, f, pick);
      var r := Drain(next, f, pick);
      assert Drain(s, f, pick) == r;
      forall k | |s.sent| <= k < |r.sent|
        ensures r.sent[k].outFace == f && r.sent[k].entry in s.queues[f] && r.sent[k].entry !in r.queues[f]
      {
        if k == |s.sent| {
          assert r.sent[k] == next.sent[k] by {
            assert r.sent[..|next.sent|] == next.sent;
          }
        }
      }
    }
  }

  /** Draining other queues leaves a face's queue and limiter as they are. */
  lemma {:induction false} ProcessAllKeeps(s: Snapshot, order: seq<FaceId>, pick: PopPolicy, f: FaceId)
    requires QueuesReady(s) && PopsQueued(pick)
    requires forall i :: 0 <= i < |order| ==> order[i] in s.queues && order[i] != f
    requires f in s.queues
    ensures ProcessAll(s, order, pick).queues[f] == s.queues[f]
    ensures ProcessAll(s, order, pick).limits[f] == s.limits[f]
    decreases |order|
  {
    if order != [] {
      DrainKeepsOthers(s, order[0], pick);
      ProcessAllKeeps(Drain(s, order[0], pick), order[1..], pick, f);
    }
  }

  /**
   * After `ProcessFromQueue` over distinct faces, each of their queues has
   * stopped: it is empty, its face is out of credit, or it holds back.
   */
  lemma {:induction false} ProcessAllStops(s: Snapshot, order: seq<FaceId>, pick: PopPolicy)
    requires QueuesReady(s) && PopsQueued(pick)
    requires forall i :: 0 <= i < |order| ==> order[i] in s.queues
    requires forall i, j :: 0 <= i < j < |order| ==> order[i] != order[j]
    ensures forall i :: 0 <= i < |order| ==> Stopped(ProcessAll(s, order, pick), order[i], pick)
    decreases |order|
  {
    if order != [] {
      var d := Drain(s, order[0], pick);
      var r := ProcessAll(s, order, pick);
      DrainStops(s, order[0], pick);
      ProcessAllStops(d, order[1..], pick);
      ProcessAllKeeps(d, order[1..], pick, order[0]);
      forall i | 0 <= i < |order| ensures Stopped(r, order[i], pick) {
        if i > 0 {
          assert order[i] == order[1..][i - 1];
        }
      }
    }
  }

  /** `order` lists the keys of `queues`, each once: the order in which the map is iterated. */
  predicate Enumerates(order: seq<FaceId>, queues: map<FaceId, PitQueue>)
  {
    && (forall i :: 0 <= i < |order| ==> order[i] in queues)
    && (forall f :: f in queues ==> f in order)
    && (forall i, j :: 0 <= i < j < |order| ==> order[i] != order[j])
  }

  // ---------------------------------------------------------------------

  class TokenBucketWithPerInterfaceFairness {
    /** The layers underneath: pushback over statistics, and the faces' limiters. */
    const parent: SatisfactionBasedPushback
    /** `m_pitQueues`: the queue of each out-face that has one. */
    var queues: map<FaceId, PitQueue>
    /** The node's PIT, as far as this layer reads and writes it. */
    var pit: Pit
    /** The Interests sent so far, in order. */
    var sent: seq<Transmission>

    function Snap(): Snapshot
      reads this, parent.table, parent.stats
    {
      Snapshot(queues, pit, parent.table.limits, parent.stats.tree, sent)
    }

    predicate Valid()
      reads this, parent.table, parent.stats
    {
      parent.stats.Valid() && Conserved(Snap())
    }

    /** A strategy on a node without faces and with an empty PIT. */
    constructor(parent: SatisfactionBasedPushback)
      requires parent.stats.Valid() && parent.table.limits == map[]
      ensures Valid()
      ensures this.parent == parent && queues == map[] && pit == map[] && sent == []
    {
      this.parent := parent;
      queues := map[];
      pit := map[];
      sent := [];
    }

    /**
     * `AddFace`: a fresh limiter goes on the face (a face may carry only
     * one; its kind and settings are `enabled` and `limit`), then the
     * pushback layer, which finds it, adds the face.
     */
    method AddFace(face: FaceId, enabled: bool, limit: real)
      requires Valid() && face !in parent.table.limits
      modifies parent.table
      ensures Valid()
      ensures Snap() == FaceAdded(old(Snap()), face, enabled, limit)
    {
      ghost var s0 := Snap();
      parent.table.Attach(face, Limiter(enabled, limit, 0));
      var ok := parent.AddFace(face);
      assert ok;
      FaceAddedConserves(s0, face, enabled, limit);
    }

    /**
     * `RemoveFace`: every queue drops the entries that came in on the face,
     * the face's own queue is erased, then the statistics layer removes the
     * face.
     */
    method RemoveFace(face: FaceId)
      requires parent.stats.Valid()
      modifies this, parent.stats
      ensures parent.stats.Valid()
      ensures Snap() == FaceRemoved(old(Snap()), face)
      ensures parent.stats.refreshScheduled == old(parent.stats.refreshScheduled)
      ensures old(Valid()) ==> Valid()
    {
      ghost var s0 := Snap();
      var updated := DropInFace(queues, face);
      queues := updated - {face};
      parent.stats.RemoveFace(face);
      assert queues == FaceRemoved(s0, face).queues;
      if Conserved(s0) {
        FaceRemovedConserves(s0, face);
      }
    }

    /** The PIT creates an entry for a new Interest (the PIT itself is not part of this layer). */
    method CreatePitEntry(e: EntryId, name: Name, lifetime: real, incoming: seq<FaceId>)
      requires Valid() && e !in pit
      modifies this
      ensures Valid()
      ensures Snap() == EntryCreated(old(Snap()), e, name, lifetime, incoming)
    {
      ghost var s0 := Snap();
      pit := pit[e := PitEntry(name, lifetime, incoming, {}, [])];
      EntryCreatedConserves(s0, e, name, lifetime, incoming);
    }

    /**
     * Sending PIT entry `e` out on `outFace`: borrow a credit, add the face
     * to the entry's outgoing faces, send, and let the statistics layer
     * count the Interest at `counted`.
     */
    method SendNow(counted: FaceId, outFace: FaceId, e: EntryId)
      requires parent.stats.Valid() && e in pit && outFace in parent.table.limits
      modifies this, parent.table, parent.stats
      ensures parent.stats.Valid()
      ensures Snap() == Transmit(old(Snap()), counted, outFace, e)
      ensures parent.stats.refreshScheduled == old(parent.stats.refreshScheduled)
    {
      var entry := pit[e];
      parent.table.Borrow(outFace);
      pit := pit[e := entry.(outgoing := entry.outgoing + {outFace})];
      sent := sent + [Transmission(outFace, e)];
      parent.stats.DidSendOutInterest(counted, entry.name);
    }

    /**
     * `TrySendOutInterest` of PIT entry `e` from `inFace` to `outFace`;
     * `admitted` is the out-face queue's answer to `Enqueue`.
     */
    method TrySendOutInterest(inFace: FaceId, outFace: FaceId, e: EntryId, admitted: bool) returns (r: bool)
      requires parent.stats.Valid() && e in pit && outFace in parent.table.limits
      modifies this, parent.table, parent.stats
      ensures parent.stats.Valid()
      ensures (Snap(), r) == TrySend(old(Snap()), inFace, outFace, e, admitted)
      ensures parent.stats.refreshScheduled == old(parent.stats.refreshScheduled)
      ensures old(Valid()) ==> Valid()
    {
      ghost var s0 := Snap();
      if Queued(queues, e) {
        pit := Relog(pit, e, [UpdateLifetime(QueueLifetime)]);
        r := true;
      } else if outFace in pit[e].outgoing {
        r := false;
      } else if parent.table.limits[outFace].IsBelowLimit() {
        SendNow(inFace, outFace, e);
        r := true;
      } else {
        var entry := pit[e];
        pit := Relog(pit, e, [OffsetLifetime(-entry.interestLifetime), UpdateLifetime(QueueLifetime)]);
        var queue := if outFace in queues then queues[outFace] else map[];
        if admitted {
          queue := queue[e := QueueItem(inFace, 1.0)];
        }
        queues := queues[outFace := queue];
        r := admitted;
      }
      if Conserved(s0) {
        TrySendConserves(s0, inFace, outFace, e, admitted);
      }
    }

    /**
     * `WillEraseTimedOutPendingInterest`: the entry leaves the queues; if
     * it was in none, the statistics layer counts it unsatisfied; then each
     * face it went out on returns a credit.
     */
    method WillEraseTimedOutPendingInterest(e: EntryId)
      requires Valid() && e in pit
      modifies this, parent.table, parent.stats
      ensures parent.stats.Valid()
      ensures Snap() == TimedOut(old(Snap()), e)
      ensures parent.stats.refreshScheduled == old(parent.stats.refreshScheduled)
    {
      var entry := pit[e];
      var removed := Queued(queues, e);
      queues := WithoutEntry(queues, e);
      if !removed {
        parent.stats.WillEraseTimedOutPendingInterest(entry.name, entry.incoming);
      }
      parent.table.ReturnEach(entry.outgoing);
    }

    /** A PIT entry times out: this layer's hook, then the PIT erases the entry. */
    method TimeOut(e: EntryId)
      requires Valid() && e in pit
      modifies this, parent.table, parent.stats
      ensures Valid()
      ensures Snap() == Expired(old(Snap()), e)
      ensures parent.stats.refreshScheduled == old(parent.stats.refreshScheduled)
    {
      ghost var s0 := Snap();
      WillEraseTimedOutPendingInterest(e);
      pit := pit - {e};
      ExpiredConserves(s0, e);
    }

    /**
     * `WillSatisfyPendingInterest`: the layers underneath first (they keep
     * no state here), then the entry leaves the queues and each face it
     * went out on returns a credit.
     */
    method WillSatisfyPendingInterest(inFace: FaceId, e: EntryId)
      requires Valid() && e in pit
      modifies this, parent.table
      ensures parent.stats.Valid()
      ensures Snap() == Satisfying(old(Snap()), e)
    {
      var entry := pit[e];
      queues := WithoutEntry(queues, e);
      parent.table.ReturnEach(entry.outgoing);
    }

    /** Data satisfies a PIT entry: this layer's hook, then the PIT erases the entry. */
    method Satisfy(inFace: FaceId, e: EntryId)
      requires Valid() && e in pit
      modifies this, parent.table
      ensures Valid()
      ensures Snap() == Satisfied(old(Snap()), e)
    {
      ghost var s0 := Snap();
      WillSatisfyPendingInterest(inFace, e);
      pit := pit - {e};
      SatisfiedConserves(s0, e);
    }

    /**
     * One round of the inner loop of `ProcessFromQueue` on out-face `f`,
     * once the queue has yielded `e`: the entry leaves the queue, gets its
     * lifetime back, and is sent out on `f`, counted at `f`.
     */
    method SendFromQueue(f: FaceId, e: EntryId)
      requires parent.stats.Valid() && f in queues && e in queues[f] && e in pit && f in parent.table.limits
      modifies this, parent.table, parent.stats
      ensures parent.stats.Valid()
      ensures Snap() == FromQueue(old(Snap()), f, e)
      ensures parent.stats.refreshScheduled == old(parent.stats.refreshScheduled)
    {
      ghost var s0 := Snap();
      ghost var popped := Popped(s0, f, e);
      queues := queues[f := queues[f] - {e}];
      assert pit == s0.pit;
      var entry := pit[e];
      var changes := [OffsetLifetime(entry.interestLifetime - QueueLifetime)];
      pit := Relog(pit, e, changes);
      assert Snap() == popped;
      SendNow(f, f, e);
    }

    /**
     * The inner loop of `ProcessFromQueue` on out-face `f`: while the queue
     * is not empty and the face has credit, pop an entry (stop if the
     * queue holds back) and send it.
     */
    method DrainQueue(f: FaceId, pick: PopPolicy)
      requires Valid() && f in queues && PopsQueued(pick)
      modifies this, parent.table, parent.stats
      ensures Valid()
      ensures Snap() == Drain(old(Snap()), f, pick)
      ensures parent.stats.refreshScheduled == old(parent.stats.refreshScheduled)
    {
      ghost var s0 := Snap();
      while queues[f] != map[] && parent.table.limits[f].IsBelowLimit()
        invariant Valid() && f in queues
        invariant Drain(Snap(), f, pick) == Drain(s0, f, pick)
        invariant parent.stats.refreshScheduled == old(parent.stats.refreshScheduled)
        decreases queues[f].Keys
      {
        var popped := pick(queues[f]);
        if popped.None? {
          break;
        }
        ghost var s := Snap();
        FromQueueConserves(s, f, popped.value);
        SendFromQueue(f, popped.value);
        assert queues[f].Keys < s.queues[f].Keys;
      }
    }

    /**
     * `ProcessFromQueue`, the limiters' available-slot callback: every
     * queue is drained in the map's iteration order `order`.
     */
    method ProcessFromQueue(order: seq<FaceId>, pick: PopPolicy)
      requires Valid() && PopsQueued(pick) && Enumerates(order, queues)
      modifies this, parent.table, parent.stats
      ensures Valid()
      ensures Snap() == ProcessAll(old(Snap()), order, pick)
      ensures parent.stats.refreshScheduled == old(parent.stats.refreshScheduled)
    {
      ghost var s0 := Snap();
      var k := 0;
      while k < |order|
        invariant 0 <= k <= |order|
        invariant Valid() && queues.Keys == s0.queues.Keys
        invariant ProcessAll(Snap(), order[k..], pick) == ProcessAll(s0, order, pick)
        invariant parent.stats.refreshScheduled == old(parent.stats.refreshScheduled)
      {
        assert order[k..][1..] == order[k + 1..];
        DrainQueue(order[k], pick);
        k := k + 1;
      }
      assert order[k..] == [];
    }
  }

  /** The loop of `RemoveFace` over the queues: `Remove (face)` on each. */
  method DropInFace(queues: map<FaceId, PitQueue>, face: FaceId) returns (updated: map<FaceId, PitQueue>)
    ensures updated.Keys == queues.Keys
    ensures forall f :: f in queues ==> updated[f] == WithoutInFace(queues[f], face)
  {
    updated := queues;
    var todo := queues.Keys;
    while todo != {}
      invariant todo <= queues.Keys && updated.Keys == queues.Keys
      invariant forall f :: f in todo ==> updated[f] == queues[f]
      invariant forall f :: f in queues && f !in todo ==> updated[f] == WithoutInFace(queues[f], face)
      decreases todo
    {
      var f :| f in todo;
      updated := updated[f := WithoutInFace(updated[f], face)];
      todo := todo - {f};
    }
  }
}
