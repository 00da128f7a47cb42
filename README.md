# Interest-flooding mitigation for ndnSIM, in Dafny

This project models the parts of the ndnSIM DDoS extension that fight
Interest flooding in a Named Data Network, and proves properties of them:

- **Load statistics.** Each node keeps a trie of name-prefix statistics.
  For every prefix and every incoming face, two decayed counters record how
  many Interests were forwarded for it and how many were never satisfied.
  Once per second the trie is walked bottom-up: each node adds in its
  children's statistics, every node is stepped (smoothed), and nodes that
  have become empty are pruned. Modules `LoadStats`, `LoadStatsFace`,
  `LoadStatsNode`, `StatsTrie` and `Stats`.
- **Per-face limiters** and the FIB-face allowance: the sum of the current
  limits of a FIB entry's faces, or "unlimited" when one of them has its
  limiter disabled. Module `Limits`.
- **Satisfaction-based Interest acceptance.** An Interest from a face that
  sends more than its grace share of the allowance, and whose Interests go
  unsatisfied, is dropped at random with probability equal to the face's
  unsatisfied ratio. Module `InterestAcceptance`.
- **Satisfaction-based pushback.** Once per second a node tells each
  neighbour a limit for every FIB prefix. The limit is the prefix's
  allowance weighted by that neighbour's satisfaction ratio and normalised
  over all faces. The announcement is a link-local Interest named
  `<prefix>/limit/<value>`, and the receiving node sets the limit of the
  face it came in on. Module `Pushback`.
- **Token bucket with per-interface fairness.** An Interest goes out while
  the out-face's limiter has credit; otherwise its PIT entry waits in that
  face's queue until credit comes back. Module `TokenBucket`. Its central
  invariant is `Conserved`: at every face, the outstanding credit equals
  the number of live PIT entries that went out on that face. It also
  requires that a waiting entry sits in one queue only, and never in the
  queue of a face it already went out on. Every operation is proved to
  keep this invariant.
- **The offline capacity check.** It finds the largest common per-source
  rate at which no link between the sources and the producer is congested:
  doubling first, then bisection down to 0.1. Module `MaxCapacity`. The
  closed form is proved: the depth-first search accepts a rate exactly
  when every link carries at most (number of sources below it) × rate.
  The module also models the node-colouring rule of the topology writer.

## How the model is shaped

- **Values and classes.** The statistics objects (`LoadStatsFace`,
  `LoadStatsNode`, the trie) are held by value in the source, so they are
  datatypes here. Each loop of the source (`Step`, `operator +=`,
  `IsZero`, the walk) is a method proved equal to the function that
  specifies it. The strategy layers (`Stats`, `SatisfactionBasedPushback`,
  `TokenBucketWithPerInterfaceFairness`) and the limiter table are classes,
  and their methods change fields.
- **Token-bucket state.** The state the token-bucket layer sees is gathered
  in a `Snapshot`. Each of its methods is proved to move that state exactly
  as a function on snapshots says. The properties are lemmas about those
  functions.
- **Host inputs as parameters.** What the host decides is passed in:
  - the random draw;
  - the queue's admission and pop choices;
  - the map iteration order;
  - whether a node, PIT and FIB are present;
  - decimal parsing of a name component;
  - the counters' `IsZero` test and current value.
- **Where the code disagrees with comments or descriptions:**
  - The forwarded-Interest counter is smoothed with factor 1/64
    (`0.015625`), although the comment beside it, and descriptions of the
    system, say 1/32. The model uses the code's value.
  - When the sum of weights is at most 0.001, the normalisation factor is
    1000, as in the code. It is not `1 / 0.001` of a clamped sum.
  - In the pushback layer, a face whose smoothed count is exactly 0.001 is
    counted in the sum of weights (the guard is `< 0.001`). It is still
    announced weight 1, because that guard is `> 0.001`.
    `Pushback.FaceWeightBounds` states this case. So the normalised weights
    that are announced add up to exactly 1 only when no face is counted at
    exactly 0.001; `Pushback.NormalizedSumIsOne` states both cases.
- **Max-capacity search.** A source vertex that also has downstream
  vertices has its initial rank overwritten by its children's sum, as
  `finish_vertex` does.

## Model

| member | source | states |
|---|---|---|
| LoadStatsFace.LoadStatsFace.Step | extensions/stats/load-stats-face.cc:40-49 | one smoothing step of each counter, the unsatisfied one with 1/8 and the forwarded one with 1/64; no increment changes |
| LoadStatsFace.LoadStatsFace.Plus | extensions/stats/load-stats-face.cc:51-58 | each counter of the argument is accumulated into the counter of the same kind; the kinds are never mixed and no step is added |
| LoadStatsFace.LoadStatsFace.CountOne | extensions/stats/load-stats-node.cc:48-52 | one more forwarded Interest; the unsatisfied counter is untouched |
| LoadStatsFace.LoadStatsFace.UnsatisfiedOne | extensions/stats/load-stats-node.cc:54-58 | one more unsatisfied Interest; the forwarded counter is untouched |
| LoadStatsFace.LoadStatsFace.IsZero | extensions/stats/load-stats-face.cc:60-64 | zero exactly when both counters are zero |
| LoadStatsNode.LoadStatsNode.Entry | extensions/stats/load-stats-node.cc:51 | `m_incoming [face]` yields the stored entry, or a fresh one when the face has none |
| LoadStatsNode.LoadStatsNode.AddIncoming | extensions/stats/load-stats-node.cc:48-52 | the face gets an entry if it had none; its forwarded counter is incremented; its unsatisfied counter and every other face are unchanged |
| LoadStatsNode.LoadStatsNode.AddUnsatisfied | extensions/stats/load-stats-node.cc:54-58 | the face gets an entry if it had none; its unsatisfied counter is incremented; its forwarded counter and every other face are unchanged |
| LoadStatsNode.LoadStatsNode.Stepped | extensions/stats/load-stats-node.cc:35-46 | the same faces, each entry stepped once |
| LoadStatsNode.LoadStatsNode.Step | extensions/stats/load-stats-node.cc:35-46 | the loop over the map gives every entry stepped once, whatever order it visits them in |
| LoadStatsNode.LoadStatsNode.Plus | extensions/stats/load-stats-node.cc:61-75 | the union of both nodes' faces; a face of the argument has its entry added into this node's entry (fresh if missing); other faces keep theirs |
| LoadStatsNode.LoadStatsNode.Add | extensions/stats/load-stats-node.cc:61-75 | the loop of `operator +=` computes `Plus` |
| LoadStatsNode.LoadStatsNode.IsZero | extensions/stats/load-stats-node.cc:77-89 | true exactly when both counters of every entry are zero, so a node without entries is zero |
| LoadStatsNode.LoadStatsNode.RemoveFace | extensions/stats/load-stats-node.cc:92-97 | the face's entry is gone and every other entry is kept |
| LoadStatsNode.LoadStatsNode.Equals | extensions/stats/load-stats-node.cc:99-106 | false whenever the argument has an entry; otherwise true exactly when this node is zero |
| LoadStatsNode.LoadStatsNode.NotEquals | extensions/stats/load-stats-node.h:82-86 | the negation of `==` |
| LoadStatsNode.Empty | extensions/stats/load-stats-node.h:44 | a node without entries, zero under every test |
| LoadStatsNode.CopyOf | extensions/stats/load-stats-node.h:45 | the copy constructor copies nothing: the copy is empty |
| LoadStatsNode.Assigned | extensions/stats/load-stats-node.h:88-93 | assignment copies nothing: the target keeps its value |
| LoadStatsNode.EqualsEmptyMeansAllCountersZero | extensions/stats/load-stats-node.cc:99-106 | a node equals `LoadStatsNode ()`, the trie's pruning test, exactly when every counter of every entry is zero |
| LoadStatsNode.EqualsNotReflexive | extensions/stats/load-stats-node.cc:99-106 | a node with entries is not equal to itself |
| LoadStatsNode.AddIncomingAddUnsatisfiedCommute | extensions/stats/load-stats-node.cc:48-58 | recording a forwarded Interest and an unsatisfied one commute, for any two faces |
| Names.WithoutLast | extensions/stats.cc:126-127 | the name minus its last component, which put back gives the name; the empty name stays empty |
| StatsTrie.Leaf | extensions/stats.cc:64-69 | a node with an empty payload and no children, well formed |
| StatsTrie.UpdateLookup | extensions/stats.cc:126-128 | after insert-and-update at a key, the key's node holds the updated payload (of an empty node if it was missing); every proper prefix exists with its payload untouched; every other path holds what it held |
| StatsTrie.UpdateWellFormed | extensions/stats.cc:126-128 | insert-and-update keeps sibling keys distinct |
| StatsTrie.GetStatsIsDeepest | extensions/stats.cc:196-205 | the lookup returns the payload of the deepest existing node on the key's path; no longer prefix of the key exists |
| StatsTrie.GetStatsExact | extensions/stats.cc:196-205 | when the key itself exists, its own payload is returned |
| StatsTrie.RemoveFaceLookup | extensions/stats.cc:182-193 | removing a face everywhere keeps every path; each node's payload is the old one without the face |
| StatsTrie.RemoveFaceWellFormed | extensions/stats.cc:186-190 | removing a face everywhere keeps the trie well formed |
| StatsTrie.WalkAggregates | extensions/stats.cc:207-227 | the payload the walk leaves at a node is the post-order aggregate of its subtree |
| StatsTrie.RefreshedPayload | extensions/stats.cc:166-180 | a refreshed node holds the stepped aggregate of its old subtree |
| StatsTrie.RefreshedWellFormed | extensions/stats.cc:207-227 | a refresh keeps sibling keys distinct at every level |
| StatsTrie.RefreshedKeepsChild | extensions/stats.cc:220-223 | a child survives exactly when, refreshed, it has children or a non-empty payload; the survivor is the refreshed original |
| StatsTrie.RefreshedLookup | extensions/stats.cc:166-180 | every node present after a refresh was present at the same path before, and is that node refreshed |
| StatsTrie.RefreshedPayloadAt | extensions/stats.cc:166-180 | every node present after a refresh holds the stepped aggregate of the old subtree at its path |
| Stats.UnsatisfiedForCounts | extensions/stats.cc:139-142 | with distinct incoming faces, each gets one more unsatisfied Interest; its forwarded counter and all other faces are unchanged |
| Stats.Stats.constructor | extensions/stats.cc:64-69 | a single empty root, and no refresh scheduled |
| Stats.Stats.NotifyNewAggregate | extensions/stats.cc:86-101 | the refresh is switched on once, the first time a node is present; it reports whether a first run must be scheduled |
| Stats.Stats.DoDispose | extensions/stats.cc:78-84 | the refresh loop is switched off; the trie is unchanged |
| Stats.Stats.DidSendOutInterest | extensions/stats.cc:116-129 | at the name minus its last component, the incoming face's forwarded counter goes up; missing prefixes are created empty; nothing else changes |
| Stats.Stats.WillEraseTimedOutPendingInterest | extensions/stats.cc:131-145 | at the prefix minus its last component, every incoming face of the entry gets one unsatisfied Interest, in order |
| Stats.Stats.WalkLeftRightRoot | extensions/stats.cc:207-227 | the recursive walk with its prune loop computes `Walk` |
| Stats.Stats.WalkChild | extensions/stats.cc:213-224 | one turn of the walk loop (add, step, prune) leaves the rest of the walk to give the same result |
| Stats.Stats.RefreshStats | extensions/stats.cc:166-180 | while switched on, the trie becomes its refresh and the root holds the stepped aggregate, and it reschedules itself; once off, nothing changes |
| Stats.Stats.RemoveFace | extensions/stats.cc:182-193 | the face is removed from every node's statistics, and the trie stays well formed |
| Stats.Stats.GetStats | extensions/stats.cc:196-205 | the payload of the deepest recorded prefix of the key, and the key's own payload when it is recorded |
| Limits.Limiter.Borrowed | extensions/strategies/token-bucket-with-per-interface-fairness.cc:139-141 | one more outstanding Interest; the limit and the enabled flag are unchanged |
| Limits.Limiter.Returned | extensions/strategies/token-bucket-with-per-interface-fairness.cc:187-192 | one fewer outstanding Interest when there is one; the limit and the enabled flag are unchanged |
| Limits.Limiter.WithLimit | extensions/strategies/satisfaction-based-pushback.cc:287-288 | the current limit becomes the given value; nothing else changes |
| Limits.LimitTable.Attach | extensions/strategies/token-bucket-with-per-interface-fairness.cc:80-83 | the face carries the given limiter; other faces are unchanged |
| Limits.LimitTable.UpdateCurrentLimit | extensions/strategies/satisfaction-based-pushback.cc:288 | only the face's current limit changes |
| Limits.LimitTable.Borrow | extensions/strategies/token-bucket-with-per-interface-fairness.cc:141 | only the face's outstanding count goes up by one |
| Limits.LimitTable.Return | extensions/strategies/token-bucket-with-per-interface-fairness.cc:191 | only the face's outstanding count goes down by one |
| Limits.LimitTable.ReturnEach | extensions/strategies/token-bucket-with-per-interface-fairness.cc:187-192 | every face of the set returns one credit, whatever order the loop takes |
| Limits.LimitTable.TotalAllowance | extensions/strategies/satisfaction-based-pushback.cc:196-217 | `unlimited` exactly when some FIB face has its limiter disabled; otherwise the allowance is the sum of the faces' current limits |
| Limits.ReturnedAll | extensions/strategies/token-bucket-with-per-interface-fairness.cc:187-192 | the same faces; each listed face with credit out has one fewer; the others are unchanged |
| Limits.SumOfLimitsNonNegative | extensions/strategies/satisfaction-based-interest-acceptance.h:130-144 | with non-negative limits the allowance is non-negative |
| InterestAcceptance.CanSendOutInterest | extensions/strategies/satisfaction-based-interest-acceptance.h:121-180 | accepted exactly when the parent accepts and this layer does not drop: a drop needs a limited entry, a count above grace × allowance, some unsatisfied Interests, and a draw above the weight |
| InterestAcceptance.ConsideredHasPositiveCount | extensions/strategies/satisfaction-based-interest-acceptance.h:158-169 | with non-negative grace and limits, a face that passes the guard has a positive count, so the ratio is defined |
| InterestAcceptance.WeightIsSatisfiedFraction | extensions/strategies/satisfaction-based-interest-acceptance.h:169 | the weight lies in [0, 1) and is the satisfied fraction (count − unsatisfied)/count, or 0 when all Interests went unsatisfied |
| InterestAcceptance.DroppedDrawsAreAboveWeight | extensions/strategies/satisfaction-based-interest-acceptance.h:171-175 | drops are upward closed in the draw, so a uniform draw passes with probability equal to the weight; a face outside the guard is never dropped |
| InterestAcceptance.NeverDroppedWithoutUnsatisfied | extensions/strategies/satisfaction-based-interest-acceptance.h:147-160 | a face without statistics, a face with no unsatisfied Interests, or an unlimited FIB entry is never dropped |
| InterestAcceptance.FullyUnsatisfiedDropped | extensions/strategies/satisfaction-based-interest-acceptance.h:158-175 | a considered face whose Interests all went unsatisfied is dropped on every positive draw |
| Pushback.Normalization | extensions/strategies/satisfaction-based-pushback.cc:171-184 | the factor lies in [1, 1000]; it is 1 when the sum reaches 1; strictly between 0.001 and 1 it scales the sum to exactly 1 |
| Pushback.ContributionBounds | extensions/strategies/satisfaction-based-pushback.cc:166 | with grace in [0, 1], a counted face's weight lies in [grace, 1] |
| Pushback.SumOfWeightsBounds | extensions/strategies/satisfaction-based-pushback.cc:137-169 | the sum of weights over n faces lies in [0, n] |
| Pushback.FaceWeightBounds | extensions/strategies/satisfaction-based-pushback.cc:235-252 | a face counted above 0.001 is announced a normalised weight in [grace, 1000]; any other face gets weight 1; a face at exactly 0.001 still adds its weight to the sum |
| Pushback.NormalizedSumIsOne | extensions/strategies/satisfaction-based-pushback.cc:134-249 | when the sum of weights S lies strictly between 0.001 and 1, the weights announced to the faces counted above 0.001 add up to 1 less (1/S) times the weights of the faces counted exactly 0.001; with no face at exactly 0.001 they add up to exactly 1 |
| Pushback.ScaledToOne | extensions/strategies/satisfaction-based-pushback.cc:170-249 | for any factor that scales the sum of weights to 1, the weights announced to the faces counted above 0.001 add up to 1 less the factor times the weights of the faces at exactly 0.001 |
| Pushback.NormalizedIsScaled | extensions/strategies/satisfaction-based-pushback.cc:134-249 | the weights announced to the faces counted above 0.001, plus the factor times the weights of the faces at exactly 0.001, are the factor times the sum of weights |
| Pushback.TermScaled | extensions/strategies/satisfaction-based-pushback.cc:137-169 | per face: its announced weight when counted above 0.001, plus the factor times its weight when counted exactly 0.001, is the factor times what it adds to the sum of weights |
| Pushback.EntryAnnouncementsShape | extensions/strategies/satisfaction-based-pushback.cc:219-269 | one announcement per face, in face order, link-local, named `<prefix>/limit/<max(0, weight × allowance)>` |
| Pushback.AnnouncementsWellFormed | extensions/strategies/satisfaction-based-pushback.cc:189-271 | every announcement is link-local, sent to a face of the node, and named by a limited FIB entry's prefix, `limit` and a non-negative value |
| Pushback.AnnouncementRoundTrip | extensions/strategies/satisfaction-based-pushback.cc:260-263 | the receiver recovers exactly the limit sent from the last component, and the prefix from the rest |
| Pushback.SatisfactionBasedPushback.constructor | extensions/strategies/satisfaction-based-pushback.h:51-54 | no announcement scheduled yet |
| Pushback.SatisfactionBasedPushback.NotifyNewAggregate | extensions/strategies/satisfaction-based-pushback.cc:76-92 | the statistics layer's refresh switch first; announcements are switched on once, when node, PIT and FIB are all present |
| Pushback.SatisfactionBasedPushback.DoDispose | extensions/strategies/satisfaction-based-pushback.cc:69-74 | only the statistics refresh stops |
| Pushback.SatisfactionBasedPushback.AddFace | extensions/strategies/satisfaction-based-pushback.cc:102-113 | a face without a limiter is refused as a fatal error; any other face is accepted |
| Pushback.SatisfactionBasedPushback.SumOfWeights | extensions/strategies/satisfaction-based-pushback.cc:134-169 | the first loop computes the sum of weights of the faces with a count of at least 0.001 |
| Pushback.SatisfactionBasedPushback.AnnounceTo | extensions/strategies/satisfaction-based-pushback.cc:220-269 | one pass of the inner loop reads face `faceId`'s statistics at the root and builds its scope-0 announcement `<prefix>/limit/<max(0, weight × total allowance)>` |
| Pushback.SatisfactionBasedPushback.AnnounceEntry | extensions/strategies/satisfaction-based-pushback.cc:219-271 | the inner loop sends each face its announcement for the entry, in face order |
| Pushback.SatisfactionBasedPushback.AnnounceLimits | extensions/strategies/satisfaction-based-pushback.cc:127-276 | sends exactly `Announcements` under the normalisation of the sum of weights: nothing for an entry with a disabled limiter; it always reschedules |
| Pushback.SatisfactionBasedPushback.ApplyAnnouncedLimit | extensions/strategies/satisfaction-based-pushback.cc:278-289 | a parsable limit becomes the arrival face's current limit; a malformed one changes nothing and is reported |
| Pushback.SatisfactionBasedPushback.OnInterest | extensions/strategies/satisfaction-based-pushback.cc:115-124 | a non-link-local Interest goes to the parent with no limit changed; a link-local one is never forwarded and is applied as a limit |
| TokenBucket.Drain | extensions/strategies/token-bucket-with-per-interface-fairness.cc:229-252 | draining one queue keeps every queue's entries in the PIT and keeps the sets of queues, entries and limiters |
| TokenBucket.ProcessAll | extensions/strategies/token-bucket-with-per-interface-fairness.cc:221-253 | draining the queues in turn keeps the same properties |
| TokenBucket.ReloggedConserves | extensions/strategies/token-bucket-with-per-interface-fairness.cc:116 | changing an entry's expiry keeps credit conserved |
| TokenBucket.TransmitConserves | extensions/strategies/token-bucket-with-per-interface-fairness.cc:139-147 | borrowing and sending on a face the entry has not used keeps credit conserved |
| TokenBucket.DeferredConserves | extensions/strategies/token-bucket-with-per-interface-fairness.cc:155-170 | queueing (or not) without credit keeps credit conserved and each entry in one queue at most |
| TokenBucket.TrySendConserves | extensions/strategies/token-bucket-with-per-interface-fairness.cc:103-171 | every outcome of `TrySendOutInterest` keeps credit conserved |
| TokenBucket.FromQueueConserves | extensions/strategies/token-bucket-with-per-interface-fairness.cc:233-251 | one round of draining keeps credit conserved |
| TokenBucket.DrainConserves | extensions/strategies/token-bucket-with-per-interface-fairness.cc:229-252 | draining a queue keeps credit conserved |
| TokenBucket.ProcessAllConserves | extensions/strategies/token-bucket-with-per-interface-fairness.cc:215-254 | `ProcessFromQueue` keeps credit conserved |
| TokenBucket.ExpiredConserves | extensions/strategies/token-bucket-with-per-interface-fairness.cc:173-193 | a time-out and the PIT's erase keep credit conserved |
| TokenBucket.SatisfiedConserves | extensions/strategies/token-bucket-with-per-interface-fairness.cc:196-212 | a satisfaction and the PIT's erase keep credit conserved |
| TokenBucket.FaceAddedConserves | extensions/strategies/token-bucket-with-per-interface-fairness.cc:76-86 | a fresh limiter with no outstanding credit keeps credit conserved |
| TokenBucket.FaceRemovedConserves | extensions/strategies/token-bucket-with-per-interface-fairness.cc:88-101 | removing a face's queue and its entries from other queues keeps credit conserved |
| TokenBucket.TrySendWhileQueued | extensions/strategies/token-bucket-with-per-interface-fairness.cc:113-119 | an entry already queued is accepted with only its expiry reset to 0.1 s: no credit, queue, face, transmission or statistics change |
| TokenBucket.TrySendSuppressed | extensions/strategies/token-bucket-with-per-interface-fairness.cc:126-133 | a retry on a face the entry already went out on is refused and changes nothing |
| TokenBucket.TrySendAtOnce | extensions/strategies/token-bucket-with-per-interface-fairness.cc:138-149 | with credit, one credit is borrowed, the entry joins the face's outgoing set, one transmission is recorded, the statistics count it at the incoming face, and the queues are unchanged |
| TokenBucket.TrySendDeferred | extensions/strategies/token-bucket-with-per-interface-fairness.cc:155-170 | without credit, the expiry is shifted back by the Interest lifetime and then set to 0.1 s; the entry is queued with its in-face and weight 1.0 exactly when admitted; the result is the admission; nothing else moves |
| TokenBucket.ExpiredAccounting | extensions/strategies/token-bucket-with-per-interface-fairness.cc:173-193 | a timed-out entry leaves the PIT and every queue; each out-face has one credit fewer; it is counted unsatisfied exactly when it was not queued |
| TokenBucket.SatisfiedAccounting | extensions/strategies/token-bucket-with-per-interface-fairness.cc:196-212 | a satisfied entry leaves the PIT and every queue; each out-face has one credit fewer; the statistics are unchanged |
| TokenBucket.FaceRemovedQueues | extensions/strategies/token-bucket-with-per-interface-fairness.cc:88-101 | the face's queue is gone; no queue holds an entry from the face; every other queued entry stays |
| TokenBucket.DrainStops | extensions/strategies/token-bucket-with-per-interface-fairness.cc:230-238 | draining stops only when the queue is empty, the face is out of credit, or the pop holds back |
| TokenBucket.DrainKeepsOthers | extensions/strategies/token-bucket-with-per-interface-fairness.cc:221-253 | draining one face's queue leaves other queues and limiters alone |
| TokenBucket.FromQueueEffect | extensions/strategies/token-bucket-with-per-interface-fairness.cc:233-251 | one round removes the popped entry, borrows one credit on the face, and records one transmission |
| TokenBucket.DrainCounts | extensions/strategies/token-bucket-with-per-interface-fairness.cc:230-252 | draining only removes entries, one per Interest sent; the face's outstanding credit grows by the number sent; earlier transmissions stay |
| TokenBucket.DrainShrinks | extensions/strategies/token-bucket-with-per-interface-fairness.cc:230-252 | draining only removes entries from the queue, one per Interest sent |
| TokenBucket.DrainAppends | extensions/strategies/token-bucket-with-per-interface-fairness.cc:230-252 | draining only appends to the transmissions already made |
| TokenBucket.DrainBorrows | extensions/strategies/token-bucket-with-per-interface-fairness.cc:230-252 | the face's outstanding credit grows by the number of Interests the drain sends |
| TokenBucket.DrainSends | extensions/strategies/token-bucket-with-per-interface-fairness.cc:233-251 | every Interest the drain sends goes out on that face and is an entry that was in its queue and is no longer |
| TokenBucket.ProcessAllKeeps | extensions/strategies/token-bucket-with-per-interface-fairness.cc:221-253 | draining other queues leaves a face's queue and limiter alone |
| TokenBucket.ProcessAllStops | extensions/strategies/token-bucket-with-per-interface-fairness.cc:221-253 | afterwards every queue has stopped: empty, out of credit, or holding back |
| TokenBucket.DropInFace | extensions/strategies/token-bucket-with-per-interface-fairness.cc:92-97 | each queue loses exactly the entries that came in on the face |
| TokenBucket.TokenBucketWithPerInterfaceFairness.constructor | extensions/strategies/token-bucket-with-per-interface-fairness.h:52 | no queues, no PIT entries, nothing sent, credit conserved |
| TokenBucket.TokenBucketWithPerInterfaceFairness.AddFace | extensions/strategies/token-bucket-with-per-interface-fairness.cc:76-86 | the face gets a fresh limiter and the pushback layer accepts it; credit stays conserved |
| TokenBucket.TokenBucketWithPerInterfaceFairness.RemoveFace | extensions/strategies/token-bucket-with-per-interface-fairness.cc:88-101 | the state moves as `FaceRemoved` says (queues and statistics), and conservation is kept; the statistics layer's refresh flag is unchanged |
| TokenBucket.TokenBucketWithPerInterfaceFairness.SendNow | extensions/strategies/token-bucket-with-per-interface-fairness.cc:141-147 | borrow, add the out-face, send, and count, as `Transmit` says; the statistics layer's refresh flag is unchanged |
| TokenBucket.TokenBucketWithPerInterfaceFairness.TrySendOutInterest | extensions/strategies/token-bucket-with-per-interface-fairness.cc:103-171 | the new state and result are `TrySend`'s, whose four outcomes the lemmas above state; conservation is kept; the statistics layer's refresh flag is unchanged |
| TokenBucket.TokenBucketWithPerInterfaceFairness.WillEraseTimedOutPendingInterest | extensions/strategies/token-bucket-with-per-interface-fairness.cc:173-193 | the state moves as `TimedOut` says; the statistics layer's refresh flag is unchanged |
| TokenBucket.TokenBucketWithPerInterfaceFairness.TimeOut | extensions/strategies/token-bucket-with-per-interface-fairness.cc:173-193 | the hook followed by the PIT's erase, as `Expired` says, keeping conservation; the statistics layer's refresh flag is unchanged |
| TokenBucket.TokenBucketWithPerInterfaceFairness.WillSatisfyPendingInterest | extensions/strategies/token-bucket-with-per-interface-fairness.cc:196-212 | the state moves as `Satisfying` says |
| TokenBucket.TokenBucketWithPerInterfaceFairness.Satisfy | extensions/strategies/token-bucket-with-per-interface-fairness.cc:196-212 | the hook followed by the PIT's erase, as `Satisfied` says, keeping conservation |
| TokenBucket.TokenBucketWithPerInterfaceFairness.SendFromQueue | extensions/strategies/token-bucket-with-per-interface-fairness.cc:233-251 | one drain round, as `FromQueue` says: pop, give the lifetime back, borrow, send, count at the out-face; the statistics layer's refresh flag is unchanged |
| TokenBucket.TokenBucketWithPerInterfaceFairness.DrainQueue | extensions/strategies/token-bucket-with-per-interface-fairness.cc:229-252 | the while loop computes `Drain` and keeps conservation; the statistics layer's refresh flag is unchanged |
| TokenBucket.TokenBucketWithPerInterfaceFairness.ProcessFromQueue | extensions/strategies/token-bucket-with-per-interface-fairness.cc:215-254 | every queue drained in the map's order, as `ProcessAll` says, keeping conservation; the statistics layer's refresh flag is unchanged |
| MaxCapacity.Initial | extensions/calculate-max-capacity.h:127-132 | a source starts with rank `share`; any other vertex starts with 0 |
| MaxCapacity.Tally | extensions/calculate-max-capacity.h:63-85 | the loop's flag is set exactly when every child's rank fits its edge's capacity, and then the counter is the sum of the ranks |
| MaxCapacity.FinishVertex | extensions/calculate-max-capacity.h:43-87 | a vertex without out-edges keeps its rank; otherwise its rank is the counter, which is the children's sum when all fit; `valid` is cleared exactly when some child exceeds its capacity |
| MaxCapacity.Search | extensions/calculate-max-capacity.h:164-166 | the depth-first search yields the vertex's rank and clears `valid` exactly when the subtree does not pass |
| MaxCapacity.PassesIffFits | extensions/calculate-max-capacity.h:63-85 | the search passes exactly when every link carries at most (sources below it) × share, and then a vertex's rank is (sources below it) × share |
| MaxCapacity.PassesByChildren | extensions/calculate-max-capacity.h:63-85 | a vertex passes exactly when each target passes and the target's rank fits the capacity of its edge |
| MaxCapacity.FitsByChildren | extensions/calculate-max-capacity.h:63-85 | a rate fits below a vertex exactly when it fits each out-edge's load and the subtree behind it |
| MaxCapacity.RankOfPassing | extensions/calculate-max-capacity.h:63-87 | a passing vertex whose passing targets rank share × (their sources) ranks share × (its sources) |
| MaxCapacity.FitsDownward | extensions/calculate-max-capacity.h:191-203 | a rate below one that fits fits too, which is what makes the bisection sound |
| MaxCapacity.CheckNoCongestion | extensions/calculate-max-capacity.h:96-174 | accepts a rate exactly when it fits every link |
| MaxCapacity.OverCapacity | extensions/calculate-max-capacity.h:180-185 | a rate above the capacity of a link that carries a source does not fit, so the doubling ends |
| MaxCapacity.CalculateNonCongestionFlows | extensions/calculate-max-capacity.h:178-204 | the answer is at least 0.5 and lies in [2^n/2, 2^n) for the first power of two 2^n that does not fit; 0.1 more does not fit; it fits unless it is 0.5 after 1 already failed |
| MaxCapacity.PrefixesApart | extensions/calculate-max-capacity.h:218-244 | the six name prefixes differ in their first two characters |
| MaxCapacity.ClassifyByPrefix | extensions/calculate-max-capacity.h:215-248 | a name with one of the prefixes matches no other, and gets that prefix's size and colour |
| MaxCapacity.ClassifyOtherwise | extensions/calculate-max-capacity.h:245-248 | a name with none of the prefixes is drawn at size 0.1 in gray |

## Left out

- `LoadStats` smoothing: `load-stats.cc` is not part of this model; only
  the class declaration in `load-stats.h` is followed. So a counter is the
  term of the operations applied to it. `IsZero` and the current value are
  parameters.
- The ndnSIM trie's own code is not part of this model. The trie is a
  value with ordered children whose operations (`insert`, `find`,
  `prune_node`, the recursive iterator) follow how `stats.cc` uses them.
  - The trie keeps a node's children in a hashed set, so their visiting
    order is unspecified. Appending new children at the end stands for
    that unspecified order. It fixes the order of the `+=` terms in
    `StatsTrie.WalkAggregates` and `StatsTrie.RefreshedPayloadAt`, which
    the source leaves open.
- `Limits` (`ndn-limits.h`) is not part of this model. The limiter follows
  the window variant: it is below its limit when disabled, or when one
  more outstanding Interest fits under the current limit.
  - The `Limit` attribute choosing the variant is left out; a new
    limiter's enabled flag and limit are parameters of `AddFace`.
  - The available-slot callback is left out: the host calls
    `ProcessFromQueue`.
- `PitQueue` is not part of this model:
  - `Enqueue`'s answer and `Pop`'s choice (the weighted round robin) are
    parameters;
  - queue order is not modelled;
  - `PitQueueTag` is modelled as "the entry waits in some queue";
  - `Remove (face)` drops the items that came in on the face.
- The PIT itself is left out. Entry creation (`CreatePitEntry`) and the
  erase after a time-out or a satisfaction (`TimeOut`, `Satisfy`) are host
  steps around the hooks. Expiry changes are recorded as a log of
  `UpdateLifetime` and `OffsetLifetime` calls, because there is no clock.
- The simulator's scheduling, the one-second timers with their random
  start, and the random draw of the acceptance layer are left out. The
  methods report what they would schedule, and the draw is a parameter.
- The parent strategies (`BestRoute`, `PerOutFaceLimits`) and their
  `super::` calls are left out, since they keep no state here. Their
  decision in `CanSendOutInterest` is a parameter.
- Sending Interests is recorded in a list rather than performed.
- Trace sources and log messages are left out.
  - This includes the short-lifetime log at token-bucket line 121 and the
    `std::cerr` line at acceptance line 164, which is unreachable under its
    guard.
- `lexical_cast`:
  - The announcer's formatting of the limit is not modelled: the number is
    kept as a numeric name component.
  - The receiver's parsing of a textual component is a parameter.
  - A malformed limit throws in the source; here it is reported as
    `Malformed` and changes nothing.
- IEEE doubles: all arithmetic is on exact reals. Rounding, infinities and
  NaN are not modelled.
  - In the capacity check, the counter after a congested child is
    `-DBL_MAX` and later children are added to it. Exactly, that is the
    constant plus their ranks, which does not matter because `valid` is
    already false.
- In the capacity check, building the graph from the FIBs and net devices
  (`checkNoCongestion` lines 126-160) is left out. The graph is given as a
  tree rooted at the producer, with the kilobyte capacities on its edges.
  The model assumes that every vertex is reachable from the producer,
  which holds when every source's FIB chain ends at the producer. Boost's
  `depth_first_search` (line 166) also starts a search from every vertex
  still unvisited after the producer's, and `finish_vertex` can clear
  `valid` there too (lines 71-74). Those extra searches are not modelled,
  so for a graph with vertices the producer cannot reach, the model may
  accept a rate the source rejects.
- The graphviz output is left out: `saveActualGraph`, `write_graphviz`,
  and the attribute string written at line 252. Only the size and colour
  chosen are modelled, as `Classify`.
- The attack and scenario programs (`ddos-app`, `scenarios/`, `run.py`)
  and the `TypeId` attribute registration are left out.
- MaxCapacity.CalculateNonCongestionFlows: requires that some link carries
  a source, because otherwise the source's doubling loop never ends (every
  rate fits).
- TokenBucket.TokenBucketWithPerInterfaceFairness.TrySendOutInterest:
  requires only what the source needs: the PIT entry, the out-face's
  limiter, and a well-formed trie. So it promises credit conservation
  afterwards only when it held before.
- TokenBucket.TokenBucketWithPerInterfaceFairness.RemoveFace: likewise
  requires only a well-formed trie, and keeps conservation when it held
  before.
- TokenBucket.Popped and TokenBucket.Drain: the pop policy is a parameter,
  so which entries are sent, and in what order, is stated only through
  `DrainSends` and `DrainCounts`.
