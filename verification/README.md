# Verified model of the FIPS mesh node

A Dafny 4.11 model of the protocol core of the FIPS node: the state machines whose guarantees range over every
run, every network or every input. `dafny verify dfyconfig.toml` checks the whole project. Each file holds one
module; a class or a loop in the Rust code is a class or a loop here, proved against a function of its inputs
or of its old state, and the theorems are lemmas about those functions.

| files | what they model |
|---|---|
| `Words`, `ReplayWindow` | the anti-replay bitmap (section 3.4.3 of RFC 4303), down to 64-bit words with shifts and carries |
| `Basics`, `Division` | shared types, and arithmetic with remainders |
| `BloomFilter`, `BloomState`, `BloomNode` | the filter, one node's announcement state and its two handlers |
| `SpanningTree`, `BloomGossip`, `BloomConvergence`, `BloomBound`, `BloomSettling`, `BloomLoss` | announcements over a whole network as a step system: split horizon, change detection, convergence and what losses do to it, a bound on traffic and on the way to quiet |
| `Forwarding`, `Delivery` | the choice of the next hop, loop freedom, and delivery once announcing is quiet |
| `SpinBit` | the spin bit between two ends over lossy paths and through key changes |
| `LossAccounting`, `Estimators`, `PathMtu` | loss conservation, the integer estimators, path MTU hysteresis |
| `TokenBucket`, `IntervalLimiter`, `CoordCache` | limiters and the bounded cache against unbounded references |
| `Rekey` | key rotation of one entry, and of both ends with frames under way |
| `NoiseSymbols`, `NoiseHandshake`, `NoiseAgreement` | the IK and XK handshakes over symbolic cryptography |
| `Bytes`, `Wire`, `Reports` | little-endian records, headers and reports |

## Where the code and its documentation part

- Path MTU (`fips/src/mmp/mod.rs:419-462`): a higher value reported three times over two intervals is documented
  to be accepted. Two things prevent it. After a decrease the proposed value is kept while its start time is
  cleared, so the same value never counts again; and the 8-bit count wraps, so that after 256 reports it starts
  below three. `PathMtu.RaisedIff` gives the exact condition, `StaleReachable` and `WrapMissesIncrease` the inputs.
- Next hop (`fips/src/node/mod.rs:1571-1589`): the greedy tree hop is listed as a fallback after the filter
  candidates; it is tried only when there is no candidate at all. `Forwarding.RefusedIff`.
- Filter merge (`fips/src/bloom/filter.rs:103-106`): the merged filter is documented to contain all elements of
  both. Hash counts are not compared. `BloomFilter.MergeKeepsMembersIff`, with the input in `LosesMember`.
- Rekey (`fips/src/node/handlers/rekey.rs:291-303`): the cutover delay is there so that the third handshake
  message arrives first, but that message is sent once and never acknowledged. `Rekey.SafeIffNoThirdLost`, with
  the run in `LostThirdRun`.
- Lost announcements (`fips/src/node/bloom.rs:49-98`, `fips/src/bloom/state.rs:159-178`): change detection compares
  with the filter last sent, not with one received, so a lost announcement is not sent again until something
  else changes that filter or marks the peer. `BloomConvergence.QuietIsExactIff`, with the run in `BloomLoss.LostAnnouncementRun`.
- IK message 2 (`fips/src/noise/handshake.rs:488-490`): the token called `se` pairs the responder's static with
  the initiator's ephemeral key, which the Noise Protocol Framework (section 7.5) calls `es`. The model follows
  the code. Handshake payloads carry no associated data (line 72), also modelled so.
- Limiters (`fips/src/node/discovery_rate_limit.rs:206-209`): pruning is harmless only while the interval is at
  most the maximum age, as it is with the defaults. `IntervalLimiter.PruningHarmlessIff`.
- Spin bit (`fips/src/mmp/algorithms.rs:326-343`): reordering is guarded against on the responder's side only,
  and its guard is not reset when keys change (`fips/src/mmp/mod.rs:200-204`) although counters restart.
  `SpinBit.NextInvIff`, `SpinBit.StallsAfterRekey`.

## Model

| member | source | states |
|---|---|---|
| `ReplayWindow.ReplayWindow.ShiftBitmap` | fips/src/noise/replay.rs:83-111 | Moving whole words and then carrying bits moves every bit `i` of the array to `i + shift`, clears the low bits and drops the rest, for every shift. |
| `ReplayWindow.WordsThenBits` | fips/src/noise/replay.rs:92-110 | A move by words followed by a carried shift of 0 to 63 bits is one shift of the whole bit string. |
| `ReplayWindow.ReplayWindow.Check` | fips/src/noise/replay.rs:33-50 | True exactly when the counter is not among the accepted ones and not a whole window behind the highest; changes nothing. |
| `ReplayWindow.ReplayWindow.Accept` | fips/src/noise/replay.rs:56-77 | After accepting a fresh counter the bitmap represents exactly the accepted counters still in the window. |
| `ReplayWindow.ReplayWindow.Receive` | fips/src/noise/session.rs:87-105 | Check, authenticate, accept: only authentic fresh frames are delivered and recorded. |
| `ReplayWindow.ReplayWindow.Reset` | fips/src/noise/replay.rs:119-122 | Forgets every counter. |
| `ReplayWindow.DeliveryCharacterised` | fips/src/noise/replay.rs:33-77 | Over any run, a frame is delivered if and only if it is authentic, no delivered frame had its counter, and none was a window or more ahead of it. |
| `ReplayWindow.NoReplay` | fips/src/noise/session.rs:87-105 | No counter is delivered twice in any run. |
| `BloomFilter.Hash` | fips/src/bloom/filter.rs:186-200 | Every hash is an index below the filter size. |
| `BloomFilter.HashIs` | fips/src/bloom/filter.rs:193-200 | Hash function `k` is the first base hash plus `k` times the second, in 64 bits, modulo the size; function 0 is the first base hash. |
| `BloomFilter.DefaultHash` | fips/src/bloom/filter.rs:193-200 | At the default size no wrap-around shows: the sum itself modulo 8192. |
| `BloomFilter.OneBitLayout` | fips/src/bloom/filter.rs:202-212 | A filter with one position set has that bit, counted from the lowest, in the byte at an eighth of the position. |
| `BloomFilter.BloomFilter.FromBytes` | fips/src/bloom/filter.rs:48-61 | The two error cases in their order, and otherwise a filter with exactly the given bytes. |
| `BloomFilter.BloomFilter.Insert` | fips/src/bloom/filter.rs:77-82 | Adds exactly the element's hash positions to the set of one-bits. |
| `BloomFilter.BloomFilter.Contains` | fips/src/bloom/filter.rs:93-101 | True exactly when all hash positions are set. |
| `BloomFilter.BloomFilter.Merge` | fips/src/bloom/filter.rs:106-118 | Unites the one-bits; a filter of another size is refused with both sizes in the error and changes nothing. |
| `BloomFilter.BloomFilter.Union` | fips/src/bloom/filter.rs:121-125 | A new filter with the bits of both and this one's hash count, or the size error with both sizes. |
| `BloomFilter.CountOnesIsCard` | fips/src/bloom/filter.rs:133-135 | The byte-wise population count is the size of the set of one-bits. |
| `BloomFilter.BloomFilter.CountOnes` | fips/src/bloom/filter.rs:133-135 | The loop computes that size. |
| `BloomFilter.EqualIffSameOnes` | fips/src/bloom/filter.rs:221-228 | Filters are equal if and only if size, hash count and set of one-bits are. |
| `BloomFilter.OnesAfterIsUnion` | fips/src/bloom/filter.rs:69-118 | After any history of inserts and merges a bit is one if and only if some operation set it. |
| `BloomFilter.OrderIrrelevant` | fips/src/bloom/filter.rs:69-118 | Histories with the same operations, in any order and repeated at will, leave equal filters. |
| `BloomFilter.NoFalseNegatives` | fips/src/bloom/filter.rs:88-118 | What was inserted, directly or into a merged filter with at least as many hash functions, is always found. |
| `BloomFilter.KeepsMembersIffCovers` | fips/src/bloom/filter.rs:103-118 | A merge with a filter of `other` hash functions into one of `own` keeps all of its members, for every pair of filters and every digest, if and only if every digest's first `own` positions are among its first `other`. |
| `BloomFilter.MergeKeepsMembersIff` | fips/src/bloom/filter.rs:103-118 | The exact condition for every size: members are kept if and only if the merged-in filter uses at least as many hash functions, or at least as many as there are bits in a size that divides the 64-bit range. |
| `BloomFilter.LosesMember` | fips/src/bloom/filter.rs:103-118 | Otherwise a concrete pair: an empty filter, and one that holds a single element which the merged filter no longer reports. |
| `BloomState.BloomState.ShouldSendUpdate` | fips/src/bloom/state.rs:120-129 | True exactly when an update is pending and the debounce time has passed since the last one. |
| `BloomState.BloomState.RemovePeerState` | fips/src/bloom/state.rs:148-152 | Drops the peer from all three tables and touches no other peer. |
| `BloomState.BloomState.BaseFilter` | fips/src/bloom/state.rs:216-223 | Exactly the bits of the node and its leaf dependents, whatever the order of the set. |
| `BloomState.BloomState.ComputeOutgoingFilter` | fips/src/bloom/state.rs:189-213 | Exactly the base bits and those of the other peers' filters of the default size, whatever the order of the map. |
| `BloomState.BloomState.MarkChangedPeers` | fips/src/bloom/state.rs:159-178 | Adds exactly the peers, except the given one, whose outgoing filter differs from the one sent last. |
| `BloomState.OutgoingKnows` | fips/src/bloom/state.rs:189-223 | An outgoing filter knows this node, its dependents and all that the other peers' filters know, and no bit of it has another origin. |
| `BloomState.SizeOfClass` | fips/src/protocol/filter.rs:54-68 | A valid announcement has the size of its class and the hash count it declares; only the class of 1024 bytes is accepted. |
| `BloomState.SendsAreSpaced` | fips/src/bloom/state.rs:120-135 | Announcements to one peer are at least the debounce time apart in any run, until its state is removed. |
| `BloomState.SentIffSpaced` | fips/src/bloom/state.rs:120-152 | And nothing else holds one back: with an update pending and a working transport it is sent exactly if no send since the peer's last removal is nearer than that. |
| `BloomNode.OutgoingAgrees` | fips/src/node/bloom.rs:19-43 | The filter objects compute what the protocol computes on sets of bits. |
| `BloomNode.Node.SendFilterAnnounceToPeer` | fips/src/node/bloom.rs:49-98 | Suppressed, failed or sent: each outcome is the protocol step it stands for; a failed send keeps the update pending but uses up a sequence number. |
| `BloomNode.Node.HandleFilterAnnounce` | fips/src/node/bloom.rs:131-206 | Invalid, non-v1, unknown or stale announcements change nothing; any other is the protocol's receive step. |
| `BloomGossip.OutgoingIgnoresExcluded` | fips/src/bloom/state.rs:189-213 | A peer's own filter plays no part in the filter computed for it. |
| `BloomGossip.ReceiveKeepsUpToDate` | fips/src/node/bloom.rs:185-205 | After a receive every peer is pending or was sent exactly the current filter, although the source is skipped when marking. |
| `BloomGossip.SendKeepsUpToDate` | fips/src/node/bloom.rs:49-98 | Sending keeps that property. |
| `BloomGossip.StaleIgnored` | fips/src/node/bloom.rs:155-176 | After an announcement nothing with its number or a lower one changes anything; one with a higher number replaces what was stored. |
| `BloomGossip.InitInv` | fips/src/node/bloom.rs:36-206 | The joint invariant (split horizon, change detection, newest announcement) holds initially. |
| `BloomGossip.NextInv` | fips/src/node/bloom.rs:36-206 | Every step keeps it: sends, failed sends, deliveries in any order and again, losses, marks. |
| `BloomConvergence.SplitHorizon` | fips/src/node/bloom.rs:31-43 | In every reachable state, under any loss, repetition or reordering, a filter stored from a tree peer, under way from it or last sent by it holds only bits of nodes on that peer's side. |
| `BloomConvergence.NoUpdateForgotten` | fips/src/bloom/state.rs:154-178 | In every reachable state each peer has an update pending or was last sent the filter computed now. |
| `BloomConvergence.StoredIsOutgoing` | fips/src/node/bloom.rs:180-206 | In a quiet state a stored last announcement is what its sender would compute now. |
| `BloomConvergence.QuietIsExactIff` | fips/src/node/bloom.rs:131-206 | The exact condition after any run, losses included: in a quiet state every filter is exact if and only if every receiver has the filter its sender recorded as sent, by whatever announcement it came. |
| `BloomConvergence.ExactWhenStored` | fips/src/node/bloom.rs:131-206 | In particular filters are exact in a quiet state if every link's last announcement was stored. |
| `BloomLoss.LostAnnouncementRun` | fips/src/node/bloom.rs:49-98 | A concrete run: one announcement between two nodes is lost, and the network is quiet although the child has not heard of the root. |
| `BloomConvergence.QuietIsExact` | fips/src/node/bloom.rs:131-206 | Convergence: once a run without losses is quiet, every filter holds exactly the bits of all nodes behind its link. |
| `BloomBound.NoUpdateStorm` | fips/src/bloom/state.rs:154-178 | In any run without outside marks each link carries at most one announcement more than there are bits to learn over it: no update loops. |
| `BloomSettling.QuietIffStuck` | fips/src/node/bloom.rs:49-206 | A state is quiet if and only if no announcement can be sent and none delivered. |
| `BloomSettling.RunsAreBounded` | fips/src/node/bloom.rs:49-206 | A run of sends and first deliveries has at most twice as many steps as the links together can carry announcements: per link one, and one for each bit its receiver has to learn. |
| `BloomSettling.Settles` | fips/src/node/bloom.rs:49-206 | Any such run can be taken on to a quiet state, within that bound. |
| `BloomSettling.StuckRunsAreExact` | fips/src/node/bloom.rs:49-206 | However it is taken on, when it cannot go on it is quiet and every filter on every link is exact. |
| `SpanningTree.ComputeLcaDepth` | fips/src/tree/coordinate.rs:157-172 | The walk from the root ends finds the depth of the lowest common ancestor, proved against a recursive definition. |
| `SpanningTree.HopsZero` | fips/src/tree/coordinate.rs:141-151 | The computed distance is zero exactly between a node and itself. |
| `SpanningTree.DistanceIs` | fips/src/tree/coordinate.rs:141-172 | For any two coordinates: the entries outside their common end, or infinity if there is none. |
| `SpanningTree.PeerStep` | fips/src/tree/coordinate.rs:141-151 | Across a tree link the distance to any node changes by exactly one, down if and only if the node is on the other side. |
| `SpanningTree.SideDecomposed` | fips/src/node/mod.rs:1553-1569 | A link's side is its near end and the sides behind that end's other tree peers, and nothing else. |
| `SpanningTree.OnlyOneTowards` | fips/src/node/mod.rs:1553-1569 | At most one tree peer leads to a given node. |
| `Forwarding.Router.SelectBestCandidate` | fips/src/node/mod.rs:1635-1678 | The unique lexicographic minimum of (cost, distance, address) among usable, strictly nearer candidates; none if there is none. |
| `Forwarding.Router.GreedyNextHop` | fips/src/tree/state.rs:217-245 | The nearest peer, smallest address first, if strictly nearer than the node itself and in the same tree. |
| `Forwarding.Router.FindNextHop` | fips/src/node/mod.rs:1590-1623 | All branches: local delivery, direct peer, unknown coordinates, filter candidates, greedy fallback with an unusable peer refused. |
| `Forwarding.NextHopUnique` | fips/src/node/mod.rs:1590-1678 | The answer does not depend on the iteration order of any map. |
| `Forwarding.WithoutRouting` | fips/src/node/mod.rs:1590-1610 | A packet for the node itself goes nowhere, one for a usable peer to that peer, and without cached coordinates there is no other way. |
| `Forwarding.HopIsNamed` | fips/src/node/mod.rs:1612-1623 | If some peer's filter holds the destination, so does that of the hop; only otherwise it is the greedy hop. |
| `Forwarding.UnnamedIsGreedy` | fips/src/node/mod.rs:1617-1623 | If no filter holds it, a usable greedy hop is the answer and nothing else is. |
| `Forwarding.NamedIsFirst` | fips/src/node/mod.rs:1635-1678 | If some filter holds it, the hop is the first by link cost, distance and address among the usable, strictly nearer peers whose filters do. |
| `Forwarding.GreedyIsNearest` | fips/src/tree/state.rs:217-245 | The greedy hop is the nearest peer in the destination's tree, the first by address among equals, if nearer than the node. |
| `Forwarding.HopIsProgress` | fips/src/node/mod.rs:1656-1660 | Under agreed coordinates every hop is strictly nearer to the destination in the tree. |
| `Forwarding.NoLoops` | fips/src/node/mod.rs:1571-1589 | No packet visits a node twice and its way is at most the tree distance, even while filters, costs and caches change under way. |
| `Forwarding.RefusedIff` | fips/src/node/mod.rs:1612-1623 | With the greedy hop usable, a route is refused if and only if there are candidates and none is eligible: the fallback is then not tried. |
| `Forwarding.RefusedExample` | fips/src/node/mod.rs:1612-1623 | A concrete node where a usable nearer tree hop is passed over because the filter of a farther peer, with two other nodes in it, happens to cover the destination's positions. |
| `Delivery.HopFound` | fips/src/node/mod.rs:1590-1678 | A usable tree peer towards the destination whose filter names it is enough for a hop. |
| `Delivery.ExactDelivers` | fips/src/node/mod.rs:1571-1678 | With exact filters, usable tree links and the destination's coordinates cached at every node, a packet for any node has a route that reaches it within the tree distance, whatever the costs and extra links. |
| `Delivery.QuietDelivers` | fips/src/node/mod.rs:1571-1678 | So it has, with usable tree links and cached coordinates, once announcing is quiet after a lossless run. |
| `SpinBit.SpinBitState.RxObserve` | fips/src/mmp/algorithms.rs:320-347 | Both roles' updates and the sample. |
| `SpinBit.NextInvIff` | fips/src/mmp/algorithms.rs:317-347 | A step of the two-party system keeps the epoch invariant if and only if it is harmless: no send below the counter of a frame of the other bit that still counts, no echo taken before one of the other bit. |
| `SpinBit.OneChange` | fips/src/mmp/algorithms.rs:317-347 | In every state of a harmless run, with losses both ways, reordering and repetition forward and any number of key changes: from the oldest returning frame through the responder and the frames it would still take, the bit changes at most once. |
| `SpinBit.AnyHarmShows` | fips/src/mmp/algorithms.rs:317-347 | That condition is exact: any other run has a prefix from which at most three more steps lead to a second change. |
| `SpinBit.SampleCoversRoundTrip` | fips/src/mmp/algorithms.rs:326-336 | In those runs every edge but the first yields a sample, from whichever echo is delivered next, and it is at least the true round trip of a frame that left after the previous edge. |
| `SpinBit.OvertakenEchoIsAnEdge` | fips/src/mmp/algorithms.rs:326-336 | The initiator has no counter guard: an overtaken echo yields a sample of zero. |
| `SpinBit.OvertakenFrameReverts` | fips/src/mmp/algorithms.rs:338-343 | A frame of the old key with a counter above that of a newer frame takes the responder back to the bit it had left. |
| `SpinBit.OrderlyIsHarmless` | fips/src/mmp/mod.rs:200-204 | Order on the return path, and key changes only while the responder would take none of the frames under way, make any run harmless. |
| `SpinBit.StallsAfterRekey` | fips/src/mmp/mod.rs:200-204 | The highest counter survives a key change: until the initiator has counted past it, the responder does not move and at most one more edge comes back. |
| `SpinBit.OvertakingReachable` | fips/src/mmp/algorithms.rs:326-336 | A concrete run with an overtaken echo. |
| `SpinBit.OvertakenSendReachable` | fips/src/mmp/mod.rs:200-204 | A concrete run with one key change after which the next frame is overtaken. |
| `LossAccounting.GapTracker.Observe` | fips/src/mmp/receiver.rs:62-98 | The loss returned and the new burst state, with the 16-bit truncation and saturation of burst lengths. |
| `LossAccounting.ReceiverState.RecordRecv` | fips/src/mmp/receiver.rs:249-271 | Packet, reordering and highest counter updates and the gap tracker's. |
| `LossAccounting.ReceiverState.BuildReport` | fips/src/mmp/receiver.rs:316-353 | No report without data; otherwise the counters and finished bursts, and a fresh interval. |
| `LossAccounting.FirstFrameStarts` | fips/src/mmp/receiver.rs:62-67 | The first frame of a key epoch establishes that the next expected counter follows the highest. |
| `LossAccounting.Conservation` | fips/src/mmp/receiver.rs:62-98 | For any frames in any order: span + reordered + repeats of the highest = packets + losses, and the next expected counter stays the highest plus one. |
| `LossAccounting.NewNeverRepeats` | fips/src/mmp/receiver.rs:249-271 | Distinct new counters never repeat the highest, so that term vanishes. |
| `LossAccounting.LossesAreMissing` | fips/src/mmp/receiver.rs:62-98 | Losses counted are the counters truly missing plus those that arrived late within the run. |
| `LossAccounting.MmpMetrics.ProcessReceiverReport` | fips/src/mmp/metrics.rs:113-161 | Forward ratio and ETX from two snapshots; the reverse direction is untouched. |
| `LossAccounting.MmpMetrics.UpdateReverseDelivery` | fips/src/mmp/metrics.rs:205-221 | The same for the reverse direction. |
| `LossAccounting.LossRate` | fips/src/mmp/metrics.rs:143-161 | The loss rate between two reports is the missing frames less those late from before the first report, over the span; it is the true rate if and only if nothing is late or nothing missing. |
| `LossAccounting.BurstsAreLosses` | fips/src/mmp/receiver.rs:70-131 | Recorded bursts never exceed the losses, equal them while these fit 16 bits, and exist exactly if something was lost. |
| `LossAccounting.ReportedBursts` | fips/src/mmp/receiver.rs:62-131 | A report tells of exactly the bursts of its interval: their number, the longest and the total of their recorded lengths, read off the counters alone. |
| `LossAccounting.RatioIs` | fips/src/mmp/metrics.rs:113-161 | A report with a higher counter sets the ratio to the frames received over the counters passed, at most one; the first report and any other leave it. |
| `LossAccounting.EtxIs` | fips/src/mmp/algorithms.rs:269-275 | ETX is the inverse of the product of the two ratios, kept between 1 and 100. |
| `Estimators.JitterEstimator.Update` | fips/src/mmp/algorithms.rs:33-39 | One step of the shared shift arithmetic with divisor 16. |
| `Estimators.IntervalKept` | fips/src/mmp/algorithms.rs:33-92 | An interval is invariant under every input between the quotients of its ends. |
| `Estimators.FixedIff` | fips/src/mmp/algorithms.rs:33-92 | Constant input leaves a value alone if and only if it is one of the `n` values from `n * c`. |
| `Estimators.Converges` | fips/src/mmp/algorithms.rs:33-92 | Constant input brings any start to the nearest fixed point without overshoot, in at most as many steps as it is away, and leaves it there. |
| `Estimators.GapShrinks` | fips/src/mmp/algorithms.rs:33-92 | Each step closes exactly the `n`-th part, rounded up, of the distance left to climb. |
| `Estimators.JitterBounded` | fips/src/mmp/algorithms.rs:33-44 | Deltas up to `m` keep the scaled value within `16m + 15` and the estimate within `m` (section 6.4.1 of RFC 3550). |
| `Estimators.JitterConverges` | fips/src/mmp/algorithms.rs:33-44 | Under deltas of constant size `d` the estimate is exactly `d` after `16d` frames, never above it before. |
| `Estimators.SrttEstimator.Update` | fips/src/mmp/algorithms.rs:79-92 | First sample and later samples, with the machine's rounding. |
| `Estimators.SrttEstimator.RtoUs` | fips/src/mmp/algorithms.rs:108-111 | At least one second, and a second above a non-negative smoothed time. |
| `Estimators.FirstSample` | fips/src/mmp/algorithms.rs:80-84 | The first sample is the smoothed time and half of it the variance, rounded towards zero. |
| `Estimators.LaterSample` | fips/src/mmp/algorithms.rs:85-92 | Later ones move the smoothed time an eighth and the variance a quarter of the way, exactly up to the bits the shifts drop. |
| `Estimators.TimeoutIsLeast` | fips/src/mmp/algorithms.rs:108-111 | The timeout is the least that is a second, a second above the smoothed time and four variances above it. |
| `Estimators.SrttBounded` | fips/src/mmp/algorithms.rs:79-111 | Samples in `[low, high]` keep the smoothed time within the multiples of eight around them, the variance bounded and the timeout a second above (section 2 of RFC 6298). |
| `Estimators.SrttConverges` | fips/src/mmp/algorithms.rs:86-92 | A constant round-trip time is tracked to within seven microseconds, in a bounded number of samples. |
| `Estimators.RttvarSettles` | fips/src/mmp/algorithms.rs:86-92 | The variance then settles on at most seven microseconds. |
| `TokenBucket.TokenBucket.TryAcquireN` | fips/src/node/rate_limit.rs:80-126 | Refill, cap and consumption. |
| `TokenBucket.LevelIsLeastRoom` | fips/src/node/rate_limit.rs:80-126 | The level is the least room left in any window that ends now. |
| `TokenBucket.GrantedIff` | fips/src/node/rate_limit.rs:80-126 | A request is granted if and only if no window ending with it would exceed capacity plus refill. |
| `TokenBucket.WindowBound` | fips/src/node/rate_limit.rs:80-126 | Over every window of time at most capacity + rate x length is granted. |
| `TokenBucket.HandshakeRateLimiter.StartHandshake` | fips/src/node/rate_limit.rs:198-209 | Granted exactly below the pending limit with a token; a refusal at the limit takes no token. |
| `TokenBucket.StartsInWindow` | fips/src/node/rate_limit.rs:198-209 | Over every window of time of any run at most capacity + rate x length handshakes are started. |
| `TokenBucket.StartAllowedIff` | fips/src/node/rate_limit.rs:198-209 | A start is allowed if and only if fewer than the maximum are pending and no window ending with it would exceed that; refusals take nothing. |
| `TokenBucket.PendingBalance` | fips/src/node/rate_limit.rs:198-218 | Pending handshakes never exceed the maximum and are the most that any final stretch of the run started without completing. |
| `TokenBucket.PendingIsDifferenceIff` | fips/src/node/rate_limit.rs:214-218 | The count equals starts less completions if and only if completions never outran starts. |
| `IntervalLimiter.IntervalLimiter.Ask` | fips/src/node/discovery_rate_limit.rs:185-197 | The answer, the recorded grant and the pruning, whatever the map's order. |
| `IntervalLimiter.IntervalLimiter.Cleanup` | fips/src/node/discovery_rate_limit.rs:206-209 | Keeps exactly the entries younger than the maximum age. |
| `IntervalLimiter.PruningHarmlessIff` | fips/src/node/routing_error_rate_limit.rs:49-67 | Pruning changes no answer on any run if and only if the interval is at most the maximum age. |
| `IntervalLimiter.PruningForgetsTooSoon` | fips/src/node/routing_error_rate_limit.rs:49-67 | The three requests that show it otherwise. |
| `IntervalLimiter.GrantedIffSpaced` | fips/src/node/discovery_rate_limit.rs:185-209 | A target is granted if and only if it had no grant within the interval before. |
| `IntervalLimiter.GrantedIffForgotten` | fips/src/node/discovery_rate_limit.rs:185-209 | For any interval and age, in any run: a target is granted if and only if every grant for it within the interval before was pruned by another grant in between. |
| `CoordCache.CoordCache.InsertEntry` | fips/src/cache/coord_cache.rs:66-127 | The three insertions: update in place keeping an old path MTU, or make room by one eviction; the bound on the size is kept. |
| `CoordCache.CoordCache.GetAndTouch` | fips/src/cache/coord_cache.rs:141-161 | A hit is refreshed, an expired entry removed. |
| `CoordCache.CoordCache.PurgeExpired` | fips/src/cache/coord_cache.rs:189-194 | Keeps exactly the unexpired entries and counts the others. |
| `CoordCache.CoordCache.EvictOne` | fips/src/cache/coord_cache.rs:202-225 | Removes one expired entry if there is any, else one of the longest idle. |
| `CoordCache.EvictedIsOldest` | fips/src/cache/coord_cache.rs:202-225 | An unexpired entry goes only when all are unexpired and none was used before it. |
| `CoordCache.RunWithin` | fips/src/cache/coord_cache.rs:66-225 | In any run the bounded cache is part of the unbounded one, with equal coordinates and times, whatever was evicted. |
| `CoordCache.HitsAreRight` | fips/src/cache/coord_cache.rs:130-161 | Any hit is the unbounded cache's answer and the coordinates inserted last for that address. |
| `CoordCache.FoundIff` | fips/src/cache/coord_cache.rs:130-161 | Without eviction an address is found, with the coordinates inserted last, exactly until its time to live has passed since its latest insertion or successful touch, computed from the events alone. |
| `CoordCache.FoundIffWithRoom` | fips/src/cache/coord_cache.rs:66-161 | So it is in the bounded cache while that has room for all addresses. |
| `CoordCache.FoundIffKept` | fips/src/cache/coord_cache.rs:66-161 | And in any run, for every address not evicted. |
| `CoordCache.EvictedIsLeastRecent` | fips/src/cache/coord_cache.rs:202-225 | An insertion evicts only at capacity: an address that has had its time, or if there is none the one whose latest use is furthest back. |
| `CoordCache.KeptWithAddress` | fips/src/cache/coord_cache.rs:66-127 | An entry keeps the path MTU that came last and the time it was first inserted, until the address goes. |
| `CoordCache.NoEvictionWithinCapacity` | fips/src/cache/coord_cache.rs:66-83 | With no more addresses than entries the two caches are equal. |
| `PathMtu.PathMtuState.ApplyNotification` | fips/src/mmp/mod.rs:426-462 | All branches, with the 8-bit counter wrapping; a lower report applies at once; the result tells whether the MTU changed. |
| `PathMtu.RaiseIsJustified` | fips/src/mmp/mod.rs:419-462 | In every run only a notification raises the MTU, and to its own value, seen at least three times with no decrease and no other higher value in between, the first two intervals before the last. |
| `PathMtu.RaiseIff` | fips/src/mmp/mod.rs:426-462 | After any history a report raises the MTU if and only if it is above it, repeats the value proposed, and is with the wrapped count at least the third in a row, two intervals after the first; it lowers it if and only if it is below. Count, value and time are read off the reports alone. |
| `PathMtu.LeastUntilRaised` | fips/src/mmp/mod.rs:366-370 | Until the next raise the MTU is exactly the least of its value and everything reported or seeded since. |
| `PathMtu.RaisedIff` | fips/src/mmp/mod.rs:419-462 | Reports of one higher value raise the MTU to it if and only if the value is not a stale proposal and some report comes two intervals after the start of the increase with an 8-bit count of at least three. |
| `PathMtu.RaisedInRunIff` | fips/src/mmp/mod.rs:419-462 | That condition over runs: after any history, in which the count always fits its 8 bits. |
| `PathMtu.RaisedAsDocumented` | fips/src/mmp/mod.rs:419-425 | The documented rule, three reports over two intervals, while the count does not wrap: met if and only if the value is not stale. |
| `PathMtu.WrapMissesIncrease` | fips/src/mmp/mod.rs:445-457 | 256 reports of a value that is not stale, over two intervals, that change nothing because the count wrapped. |
| `PathMtu.StaleNeverRaises` | fips/src/mmp/mod.rs:427-444 | Reports of a stale proposal never raise it, however many. |
| `PathMtu.StaleReachable` | fips/src/mmp/mod.rs:427-444 | 1500 confirmed, then 1400: 1500 is stale. |
| `Rekey.SessionEntry.CutoverToNewSession` | fips/src/node/session.rs:418-444 | The promotion, field by field; nothing without a pending session. |
| `Rekey.SessionEntry.HandlePeerKbitFlip` | fips/src/node/session.rs:447-472 | The same on the responder's side. |
| `Rekey.RotationHistory` | fips/src/node/session.rs:398-495 | Over every run from an established entry: established throughout, K-bit the parity of promotions, current the session promoted last, previous exactly the one before until drained. |
| `Rekey.DrainingIffKept` | fips/src/node/session.rs:475-488 | A drain is in progress exactly while a previous session is kept. |
| `Rekey.FieldsFromEvents` | fips/src/node/session.rs:385-495 | Over every run the pending session, the handshake under way, who began it and the times of session, drain and completion are those the events give. |
| `Rekey.EndsAgree` | fips/src/node/handlers/rekey.rs:288-303 | In every state reached without a lost third message, however late it arrives and whatever handshakes failed: at most one session apart, equal K-bits exactly for equal sessions, and the end behind has the other's session pending once the message arrived. |
| `Rekey.ReadableIff` | fips/src/node/handlers/session.rs:180-250 | In any state, exactly which sessions a frame can be read with: the pending one only on a differing K-bit, the previous one only if that brought nothing in. |
| `Rekey.DecryptedIff` | fips/src/node/handlers/session.rs:180-250 | Without a lost third message, exactly which frames decrypt on arrival: of the same session, of the next with it pending, of the one before while kept and nothing further pending. |
| `Rekey.CurrentFramesDecrypt` | fips/src/node/handlers/session.rs:180-250 | In those runs, frames of the sender's current session decrypt however late, once no third message is under way and while the receiver has not moved on. |
| `Rekey.SafeIffNoThirdLost` | fips/src/node/handlers/session.rs:656-681 | Over every run: every state is safe, the end that is not behind staying audible whatever happens next short of a loss, if and only if no third message was lost. |
| `Rekey.LostThirdRun` | fips/src/node/handlers/session.rs:468-485 | A lost third message and one more rotation: equal K-bits, sessions two apart, neither end hears the other. |
| `Rekey.OneHandshakeWins` | fips/src/node/handlers/session.rs:464-486 | When both ends have begun a handshake, exactly the one of the end with the smaller address can complete. |
| `Wire.BuildEstablishedHeader` | fips/src/node/wire.rs:352-365 | The buffer filled piece by piece is the packed header. |
| `Wire.ParseOfEstablished` | fips/src/node/wire.rs:151-180 | Parsing a built header returns every field for all values, if and only if the tag has room. |
| `Wire.EstablishedOfParse` | fips/src/node/wire.rs:151-180 | Building from the fields of any accepted packet reproduces its 16 header bytes. |
| `Wire.EstablishedLayout` | fips/src/node/wire.rs:352-365 | Each field at its offset, whatever the parser does. |
| `Wire.BuildMsg1` | fips/src/node/wire.rs:313-324 | The packet assembled in order. |
| `Wire.ParseOfMsg1` | fips/src/node/wire.rs:216-239 | A built message 1 parses if and only if the Noise part has its size, and gives back both parts. |
| `Wire.Msg1OfParse` | fips/src/node/wire.rs:216-239 | The parser ignores the length field: building again reproduces an accepted packet if and only if that field was right. |
| `Wire.ParseOfMsg2` | fips/src/node/wire.rs:272-297 | The same for message 2. |
| `Wire.Msg2OfParse` | fips/src/node/wire.rs:272-297 | The same for message 2. |
| `Wire.Msg1Layout` | fips/src/node/wire.rs:313-324 | Each part of message 1 at its offset, with the length of what follows the first four bytes. |
| `Wire.Msg2Layout` | fips/src/node/wire.rs:330-346 | The same for message 2. |
| `Wire.ParsersDisjoint` | fips/src/node/wire.rs:151-297 | No packet is accepted by two of the three parsers. |
| `Wire.BuildFspHeader` | fips/src/node/session_wire.rs:244-251 | The buffer filled piece by piece is the packed header. |
| `Wire.ParseOfFsp` | fips/src/node/session_wire.rs:190-223 | A built session header parses back if and only if the plaintext flag is clear and the tag has room. |
| `Wire.FspOfParse` | fips/src/node/session_wire.rs:190-223 | Building from any accepted message reproduces its 12 header bytes. |
| `Wire.FspLayout` | fips/src/node/session_wire.rs:244-251 | Each field of the session header at its offset. |
| `Wire.StripOfPrepend` | fips/src/node/wire.rs:389-405 | Stripping undoes prepending if and only if the message has a type byte. |
| `Wire.PrependOfStrip` | fips/src/node/wire.rs:389-405 | Prepending undoes stripping. |
| `Wire.FspStripOfPrepend` | fips/src/node/session_wire.rs:300-331 | Stripping the session's inner header undoes prepending for all values. |
| `Wire.FspPrependOfStrip` | fips/src/node/session_wire.rs:300-331 | And the other way round. |
| `Reports.EncodeSender` | fips/src/mmp/report.rs:81-92 | The bytes appended field by field are the packed report. |
| `Reports.DecodeSenderOfEncode` | fips/src/mmp/report.rs:81-116 | Decoding undoes encoding for all values. |
| `Reports.EncodeSenderOfDecode` | fips/src/mmp/report.rs:81-116 | Encoding undoes decoding if and only if the reserved bytes are zero and nothing trails. |
| `Reports.SenderLayout` | fips/src/mmp/report.rs:81-92 | Each field at its offset in the encoded report. |
| `Reports.EncodeReceiver` | fips/src/mmp/report.rs:121-141 | The bytes appended field by field are the packed report. |
| `Reports.DecodeReceiverOfEncode` | fips/src/mmp/report.rs:121-171 | Decoding undoes encoding for all values, the signed trend included. |
| `Reports.EncodeReceiverOfDecode` | fips/src/mmp/report.rs:121-171 | Encoding undoes decoding if and only if all reserved bytes are zero and nothing trails. |
| `Reports.ReceiverLayout` | fips/src/mmp/report.rs:121-141 | Each field at its offset in the encoded report. |
| `Bytes.FieldIs` | fips/src/mmp/report.rs:107-115 | Reading at a fixed offset reads the field of the record that starts there. |
| `Bytes.FromLeJoins` | fips/src/mmp/report.rs:107-115 | Numbers are little-endian: what follows `n` bytes counts `256` to the `n` times. |
| `NoiseSymbols.EcdhAgreesIff` | fips/src/noise/handshake.rs:312-322 | Two ends compute the same secret if and only if the same two points take part, whoever holds which key and whatever the parities. |
| `NoiseSymbols.OpensIffSealed` | fips/src/noise/handshake.rs:71-82 | What opens is exactly what was sealed in the same state; a failure uses up the nonce and changes nothing else. |
| `NoiseSymbols.HashIsTranscript` | fips/src/noise/handshake.rs:48-53 | Handshake hashes are equal if and only if protocol and everything mixed in are. |
| `NoiseHandshake.HandshakeState.WriteMessage1` | fips/src/noise/handshake.rs:332-384 | IK message 1, with its guards and pieces. |
| `NoiseHandshake.HandshakeState.ReadMessage1` | fips/src/noise/handshake.rs:390-446 | Its reader, with every error and what each leaves changed. |
| `NoiseHandshake.HandshakeState.WriteMessage2` | fips/src/noise/handshake.rs:454-500 | IK message 2. |
| `NoiseHandshake.HandshakeState.ReadMessage2` | fips/src/noise/handshake.rs:505-555 | Its reader. |
| `NoiseHandshake.HandshakeState.ReadXkMessage2` | fips/src/noise/handshake.rs:701-744 | Reader of XK message 2. |
| `NoiseHandshake.HandshakeState.WriteXkMessage3` | fips/src/noise/handshake.rs:754-794 | XK message 3. |
| `NoiseHandshake.HandshakeState.ReadXkMessage3` | fips/src/noise/handshake.rs:800-849 | Its reader, which learns the initiator's identity. |
| `NoiseHandshake.HandshakeState.IntoSession` | fips/src/noise/handshake.rs:854-879 | No session before completion; the split keys by role and the peer's static key. |
| `NoiseAgreement.IkMessage1Agreement` | fips/src/noise/handshake.rs:332-446 | An honest message 1 is accepted if and only if the initiator has the responder's key up to parity; then chaining key, hash, cipher, identity and epoch agree. |
| `NoiseAgreement.IkAgreement` | fips/src/noise/handshake.rs:332-555 | An honest IK run leaves both ends complete with equal symmetric states, right identities and epochs, and sessions that name the peer's key; the initiator sends with the first key of the split and the responder with the second. |
| `NoiseAgreement.IkExchanges` | fips/src/noise/handshake.rs:332-555 | Its keys come from four exchanges in this order: initiator's ephemeral and static with the responder's static, the two ephemerals, and the first again. |
| `NoiseAgreement.IkWire` | fips/src/noise/handshake.rs:332-500 | What it puts on the wire: ephemerals in the clear, identity and epochs each sealed under a key of its own. |
| `NoiseAgreement.IkHashBinds` | fips/src/noise/handshake.rs:48-53 | Whatever was delivered, two completed ends have equal hashes if and only if each read what the other wrote and they mean the same responder; then they agree on everything. |
| `NoiseAgreement.XkMessage2Agreement` | fips/src/noise/handshake.rs:567-744 | XK message 1 is always accepted; the initiator accepts message 2 if and only if it has the responder's key up to parity. |
| `NoiseAgreement.XkAgreement` | fips/src/noise/handshake.rs:567-849 | An honest XK run, as for IK. |
| `NoiseAgreement.XkWire` | fips/src/noise/handshake.rs:567-794 | What it puts on the wire and the three exchanges its keys come from; no two pieces are sealed alike. |
| `NoiseAgreement.XkHashBinds` | fips/src/noise/handshake.rs:567-849 | Hash binding over the three messages of XK. |
| `NoiseAgreement.RetryIff` | fips/src/noise/handshake.rs:409-443 | A failed read is not undone: an honest message is accepted after a rejected one if and only if the latter had the wrong length or did not begin with a public key. |
| `NoiseAgreement.SecondRetryIff` | fips/src/noise/handshake.rs:505-555 | The same of message 2 at the initiator. |
| `NoiseAgreement.ThirdRetryIff` | fips/src/noise/handshake.rs:800-849 | After a rejected XK message 3 an honest one is accepted if and only if the rejected one had the wrong length. |
| `NoiseAgreement.OutOfTurn` | fips/src/noise/handshake.rs:332-849 | A message method of the other role, or of another stage, is refused with the matching error and changes nothing. |

## Left out

- User interface, Tauri commands, transports, TUN, DNS, control socket, configuration, logging and statistics: input and output. A send is a step that puts a frame on a link.
- Real cryptography: SHA-256 on addresses is an arbitrary function; in the handshakes keys, hashes and ciphertexts are free symbols. No secrecy or attack claims are made. Nonce overflow and oversized plaintexts cannot arise in the handshakes and have no error case.
- Randomness: ephemeral keys are parameters. Clocks: the time is a parameter of each call, in one unit per module.
- Handshake messages are given as their pieces at the reader's offsets; cutting the byte strings is not modelled. `SymmetricState` and `CipherState` are values held by the handshake object, not objects of their own.
- Cache entries are values in the map of `CoordCache`; an entry's update in place is an update of the map. Statistics and the plain getters are omitted.
- The next-hop model sees the coordinate cache as a map of unexpired entries; refreshing an entry on lookup is in `CoordCache`.
- Discovery of coordinates and failing links: `Delivery` takes every tree link to be usable and the destination to be cached at every node.
- Parent selection and tree announcements: coordinates are those of one fixed tree that all nodes agree on, whose distances fit a machine word. Addresses are natural numbers in the order of their bytes.
- The network model sends every announcement on a set of wires. `BloomSettling` is about runs without losses, failed sends and repeats. Peers and leaf dependents do not change during a run; a peer's removal is `BloomState.RemovePeerState`.
- Sequence numbers, packet and burst counters are unbounded naturals where the code has 64 or 32 bits that do not overflow in practice. Burst lengths and the path MTU count wrap or saturate as in the code; the path MTU count wraps as in a release build.
- LossAccounting.ReceiverState.RecordRecv: only the counter, not the byte counts, congestion marks, timestamps and one-way-delay trend; the jitter update is in `Estimators`.
- LossAccounting.ReceiverState.BuildReport: only the counter and burst fields, not byte counts, echoed timestamps, jitter, congestion marks and trend.
- LossAccounting.MmpMetrics.UpdateReverseDelivery: not the trend average of ETX.
- LossAccounting.MmpMetrics.ProcessReceiverReport: not the round-trip sample, goodput and trend averages; the estimator itself is in `Estimators`.
- Floating point: token counts, costs, ratios and ETX are real numbers; rounding, NaN and overflow are not modelled.
- The destination side of path MTU tracking, backoff of failed lookups, report scheduling and the trend detectors: they would add only easy members.
- Rekey.EndsAgree: the first two messages of a handshake are one step, so none of it is seen half done between them; a third message overtaken by another handshake at its receiver counts as lost. Sessions are numbered in the order of their handshakes.
- Rekey.SessionEntry.CutoverToNewSession: not the reset of the session's measurement counters that goes with it.
- Rekey.SessionEntry.HandlePeerKbitFlip: not that reset either.
- Coordinates carried behind a session header and the other message bodies of both layers are not modelled.
