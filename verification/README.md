# SketchLog: a verified model

SketchLog counts event streams in mergeable sketches, replicates the sketches of every
node through a gossip mesh, keeps the busy streams in a bounded cache over storage, and
compares streams by the distance of their latency distributions. This project models those
parts and proves what they promise together.

* **Sketches.** `Gamma`, `SketchAlgebra`, `QuantileSketch`, `CountMin`, `Cardinality` and
  `StreamLogs` model the quantile sketch, the frequency table, the register array and the
  log that combines them. Each sketch is a class whose ghost history says what was
  recorded; its fields are proved to be a function of that history, and the functions form
  partial commutative monoids. Hash functions are arbitrary.
* **Distances.** `LatencyCdf` and `Distances` turn a sketch into a cumulative function and
  measure two of them by Kolmogorov-Smirnov and Wasserstein distance.
* **Mesh.** `Json` and `GossipBudget` do the byte accounting, `PeerStore` the versioned
  registers of a node, `Mesh` the transition system with a network that delays, reorders,
  duplicates and drops, `Exchange` one anti-entropy round, `MergedView` what a node shows,
  `Membership` the failure detector. `KeyTexts`, `Digests` and `ReplySizes` are what travels
  and how large it is; `ClusterManagers` and `GossipRounds` are the node object itself, whose
  methods are proved to compute those values. `BoundedDigests`, `Learning`, `CatchUps` and
  `Convergence` follow consecutive rounds with bounded messages until both nodes agree.
* **Checkpoints.** `Documents`, `BucketStores` and `Restore` save a log as a document and
  read it back; `Recordable` says which documents are accepted in terms of what was recorded.
* **Bounded state machines.** `Registry` is the write-back cache, `TokenBuckets`,
  `QuotaCounters`, `Admission` and `RateLimit` the admission control.

Floating-point values are exact reals. The bucket index of a value v is the least i with
v <= gamma^i. Clock readings, storage failures and the contents of messages are parameters.

## Findings

Statements one might expect that do not hold of the code, each with the exact condition
under which they do:

* A digest may list fifty-one origins of a stream, the node's own and fifty peers, while
  its receiver reads all valid origins of a stream if and only if there are at most fifty
  (`Digests.KeptIsCompleteUpToFifty`; failing: `GossipRounds.FiftyOneOriginsDoNotArrive`).
* A node does not list snapshots of origins it takes for dead. An exchange started by it
  leaves both nodes with one entry if and only if no newer snapshot of such an origin was
  withheld (`Exchange.ExchangeAgreesOnThirdParties`; failing: `Exchange.WithheldStaysBehind`).
* A node answers a request with something its origin published if and only if it has
  published the stream itself, when asked about its own, or holds an entry of that origin,
  when asked about another (`Mesh.AnswerIsPublished`). Otherwise it answers with a tombstone
  of version 0 that nobody published (failing: `Mesh.UnheardIsAnswered`, a node that has just
  started and is asked for anything).
* Two nodes that are up to date with each other show the same of a stream, a log or a refusal,
  if and only if the stream is not one-sided: exactly one of them has it itself, with a
  configuration other than the default one that all logs of the view share, and the sum fits
  (`MergedView.UpToDateGivesOneView`). Then that node shows the sum and the other, whose view
  starts from the default configuration, refuses (failing: `MergedView.OneSidedView`).
* A deletion that is rolled back after a peer received its tombstone stays in force at that
  peer: it shows the stream again if and only if the stream is newer than the tombstone
  (`ClusterManagers.RollbackLeavesPeersBehind`). Two failed deletions of one stream are undone
  only in reverse order (`ClusterManagers.RollbacksNest`).
* A deletion takes a version above everything published if and only if its reservation is
  newer than the live stream (`ClusterManagers.ClusterManager.DeleteStream`). A clock that fell
  behind the stream's last update publishes a tombstone that loses to it
  (`ClusterManagers.LateClockLosesDeletion`).
* A check that the bucket turns away goes unnoticed by every later sequence of checks if and
  only if its namespace already had a counter and no window of that had run out by the last
  reading of the check (`Admission.TurnedAwayIsUnnoticed`, for a running enforcer
  `RateLimit.RefusalIsUnnoticed`). It is noticed when it is the first of its namespace
  (`Admission.FirstRequestIsNoticed`), when a window has run out when it is counted
  (`Admission.ExpiredWindowIsNoticed`) and when one runs out before its use is reported
  (`Admission.LateReadingIsNoticed`).
* Two nodes that heard the same rumours agree on a member's incarnation and on whether it is
  accused (`Membership.SameRumoursSameVerdict`). They agree on suspect against dead if and only
  if the same kind of accusation came first to both (`Membership.SameStatusExactly`); the order
  matters if and only if both kinds are heard at the final incarnation and no accusation of it
  was on record before (`Membership.OrderMattersExactly`).
* A restored quantile sketch is one that some samples leave if and only if its extrema do not
  differ within the bucket of a single sample (`Recordable.RestorableIsRecordable`; failing:
  `Recordable.AcceptedThoughUnrecordable`, one sample with two extrema).
* A bounded digest respects the payload limit if and only if the empty digest does
  (`GossipBudget.DigestCursor.BoundedVersionVector`; failing:
  `GossipBudget.LongNameExceedsLimit`).

The comment on `begin_deletion` calls the tombstone monotonic; the code makes it so against
earlier tombstones of the stream, not against the stream's own updates. The documentation
of the rate limiter calls the charge rolled back; the code rolls the count back but not the
windows. In both cases the model follows the code.

## Model

| member | source | states |
|---|---|---|
| Gamma.KeyBrackets | include/ddsketch.hpp:350-352 | every positive magnitude lies in (gamma^(i-1), gamma^i] for its bucket index i, so an index exists |
| Gamma.KeyIsLeast | include/ddsketch.hpp:350-352 | the index is the least i with v <= gamma^i, for every v and gamma > 1 |
| Gamma.KeyMonotone | include/ddsketch.hpp:350-352 | larger magnitudes never get a smaller index |
| Gamma.BucketAccuracy | include/ddsketch.hpp:354-361 | any value of a bucket is within a factor (1-alpha) to (1+alpha) of the bucket's representative |
| Gamma.BucketValueIncreases | include/ddsketch.hpp:354-361 | representatives grow strictly with the index |
| Gamma.AccuracyTestNeverFires | include/ddsketch.hpp:390-396 | for every alpha in (0,1) and every magnitude the accuracy rejection of an add cannot happen |
| SketchAlgebra.CombineCommutes | include/ddsketch.hpp:557-587 | merging two sketches gives the same bins, counters and extrema either way round |
| SketchAlgebra.CombineAssociates | include/ddsketch.hpp:557-587 | merging three sketches does not depend on the grouping |
| SketchAlgebra.FitsDown | include/ddsketch.hpp:557-587 | if the merge of two sketches fits the counters and stores, so does each of them |
| SketchAlgebra.MergeIsConcatenation | include/ddsketch.hpp:557-587 | the merge of the sketches of two sample sequences is the sketch of the joined sequence |
| SketchAlgebra.OrderIsIrrelevant | include/ddsketch.hpp:372-380 | sequences with the same multiset of samples leave the same sketch |
| SketchAlgebra.CountersMeanWeights | include/ddsketch.hpp:386-448 | each counter is the total weight of the samples whose bucket it is, and count their total |
| SketchAlgebra.ExtremaAreExact | include/ddsketch.hpp:430-448 | the extrema are attained by samples and bound all of them |
| SketchAlgebra.FitsMeans | include/ddsketch.hpp:157-204 | samples are within the limits exactly when each sign has at most 1024 buckets, no bucket's weight exceeds a signed 64-bit counter and all weight no unsigned one |
| QuantileSketch.StoreAdd | include/ddsketch.hpp:157-188 | a bucket counter is raised exactly when the store then still fits its width and capacity, and refused otherwise |
| QuantileSketch.MergeStore | include/ddsketch.hpp:199-204 | merging two stores succeeds exactly when the bucket-wise sum fits, and gives that sum |
| QuantileSketch.DDSketch.constructor | include/ddsketch.hpp:217-230 | a new sketch holds no sample |
| QuantileSketch.DDSketch.Add | include/ddsketch.hpp:386-448 | non-finite values are ignored; any other is accepted exactly when all counters can hold it, and a refusal changes nothing |
| QuantileSketch.DDSketch.AddBatch | include/ddsketch.hpp:372-380 | a batch is recorded whole or not at all, and accepted exactly when the sketch of everything fits |
| QuantileSketch.DDSketch.Merge | include/ddsketch.hpp:557-587 | accepted exactly when the accuracies agree and the joined samples fit; then the sketch is that of the joined samples, otherwise unchanged; merging with itself included |
| QuantileSketch.StillRejected | include/ddsketch.hpp:372-380 | what does not fit never fits after more samples, so acceptance of a batch is independent of order |
| QuantileSketch.DDSketch.ExtremaAreTracked | include/ddsketch.hpp:430-448 | after any run of adds and merges min and max are the least and greatest recorded value |
| QuantileSketch.DDSketch.Quantile | include/ddsketch.hpp:454-492 | for 0 < q < 1 the walk ends in the bucket that holds the rank, so the last fallback is unreachable; the ends and the empty sketch answer as documented |
| QuantileSketch.QuantileIsAccurate | include/ddsketch.hpp:454-492 | any answer of the walk is within alpha*abs(x) of x, the order statistic of rank ceil(q*count) over the weighted samples, across negative, zero and positive buckets |
| QuantileSketch.SortedPositionIsOrderStatistic | include/ddsketch.hpp:454-492 | that x is the element at that position of the sorted values |
| QuantileSketch.QuantileIsMonotone | include/ddsketch.hpp:454-492 | answers never decrease as q grows inside (0,1) |
| QuantileSketch.DDSketch.CountGreaterThan | include/ddsketch.hpp:494-537 | the count is the weight of the values above the threshold plus that of the smaller values in its own bucket |
| QuantileSketch.CountIsConservative | include/ddsketch.hpp:494-537 | never below the true number of values above the threshold, and exact at 0, below the minimum and from the maximum on |
| QuantileSketch.CountIsTight | include/ddsketch.hpp:494-537 | never above the weight of the values that are above the threshold or within its accuracy |
| QuantileSketch.CountIsAntitone | include/ddsketch.hpp:494-537 | never increases as the threshold grows, across sign changes |
| CountMin.CountMinSketch.constructor | include/countmin.hpp:82-98 | a new table holds an empty stream |
| CountMin.CountMinSketch.Add | include/countmin.hpp:185-214 | fails exactly on a non-positive count or a total overflow, leaving the table alone; no per-cell overflow is reachable |
| CountMin.CountMinSketch.Estimate | include/countmin.hpp:228-235 | true frequency <= estimate <= total; the estimate is the least over the rows of what was counted for all keys of the key's remainder modulo the width, and exact if and only if in some row no other counted key has it, for every hash function |
| CountMin.CountMinSketch.Merge | include/countmin.hpp:259-278 | fails exactly on a dimension mismatch or a total overflow; otherwise the table is that of the joined streams |
| CountMin.CountMinSketch.Sound | include/countmin.hpp:185-214 | after any run every row sums to the total and no cell is negative |
| CountMin.CellAtMostTotal | include/countmin.hpp:200-212 | a well-formed table has every cell between 0 and the total, which is why per-cell overflow cannot occur first |
| CountMin.CellCoversFrequency | include/countmin.hpp:228-235 | every counter of a key covers its true frequency, whatever the hashes collide on |
| CountMin.CounterIsShared | include/countmin.hpp:203-235 | the counter of a key in a row is the sum of the counts of all occurrences whose keys have its remainder, for every hash function |
| CountMin.SharingIsExact | include/countmin.hpp:228-235 | that sum is the key's frequency if and only if no other counted key has its remainder |
| CountMin.StreamsJoin | include/countmin.hpp:259-278 | cell-wise addition of two tables is the table of the joined stream |
| Cardinality.RhoIsLeadingPosition | include/hyperloglog.hpp:139-154 | the rank of a hash is the position of its first set bit after the index bits, between 1 and 65-p |
| Cardinality.IndexIsTopBits | include/hyperloglog.hpp:196-198 | the register of a 64-bit hash is its top p bits |
| Cardinality.HyperLogLog.Add | include/hyperloglog.hpp:196-206 | after any run the registers are those of the hashes added |
| Cardinality.HyperLogLog.Merge | include/hyperloglog.hpp:248-257 | fails exactly on a precision mismatch; otherwise the registers are those of all hashes of both |
| Cardinality.RegistersInRange | include/hyperloglog.hpp:196-206 | no register exceeds 65-p |
| Cardinality.RegisterIsMaximum | include/hyperloglog.hpp:196-206 | a register is the greatest rank among the hashes that fall on it, or zero |
| Cardinality.OnlyTheSetMatters | include/hyperloglog.hpp:196-206 | duplicates and order of the hashes do not change any register |
| Cardinality.HashesJoin | include/hyperloglog.hpp:248-257 | register-wise maximum is the register array of the joined hashes |
| StreamLogs.StreamLog.constructor | include/sketchlog.hpp:164-172 | a new log has an empty history |
| StreamLogs.StreamLog.AddLatency | include/sketchlog.hpp:174-184 | succeeds exactly when the log of the longer history is representable; a failure leaves history and state alone |
| StreamLogs.StreamLog.AddBatch | include/sketchlog.hpp:186-202 | all or nothing, and accepted exactly when the calls one by one would be |
| StreamLogs.StreamLog.AddEvent | include/sketchlog.hpp:222-242 | refuses non-positive counts and any overflow of cell total or grand total before touching anything |
| StreamLogs.StreamLog.AddUnique | include/sketchlog.hpp:254-262 | records the item and leaves the event total alone |
| StreamLogs.StreamLog.Merge | include/sketchlog.hpp:298-317 | accepted exactly when the configurations agree and the joined history is; commits all three sketches together or none |
| StreamLogs.StreamLog.HoldsItsHistory | include/sketchlog.hpp:174-317 | at any time the fields are the log of the accepted history, and its total is latency count plus event total |
| StreamLogs.HistoriesJoin | include/sketchlog.hpp:298-317 | merging the logs of two histories is the log of the joined history |
| StreamLogs.AcceptanceIsFinal | include/sketchlog.hpp:174-242 | no call of a run fails exactly when the final log is representable and all counts are positive |
| StreamLogs.AcceptanceMeans | include/sketchlog.hpp:174-242 | in terms of what was recorded: positive counts, at most 1024 buckets of each sign, and no counter, bucket or total beyond its width |
| StreamLogs.HistoryGrows | include/sketchlog.hpp:174-262 | a history contains its finite latencies once each, its occurrences and its hashes, in order |
| StreamLogs.MergeIsReplay | python/sketchlog/facade.py:471-561 | merging two accepted logs accepts exactly when replaying one history after the other does, with the same result |
| StreamLogs.OrderOfCallsIsIrrelevant | include/sketchlog.hpp:174-242 | acceptance and final log depend only on the multiset of calls |
| StreamLogs.JoinCommutes | python/sketchlog/facade.py:471-561 | merging logs is commutative |
| StreamLogs.JoinAssociates | python/sketchlog/facade.py:471-561 | merging logs is associative |
| StreamLogs.JoinFitsDown | python/sketchlog/facade.py:471-561 | the parts of a representable merge are representable |
| LatencyCdf.GetCdf | python/sketchlog/diff.py:7-46 | the result is strictly increasing and ends at exactly 1; its value at x is the share of the samples reported at or below x; it is empty exactly for an empty sketch |
| Distances.KsStatistic | python/sketchlog/diff.py:48-75 | the result is attained and bounds the gap of the two functions at every real |
| Distances.OneIsEmpty | python/sketchlog/diff.py:52-55 | the special answer 1 for one empty input is that supremum |
| Distances.KsRangeAndZero | python/sketchlog/diff.py:48-75 | lies in [0,1] and is zero exactly for equal functions |
| Distances.KsSymmetric | python/sketchlog/diff.py:48-75 | symmetric |
| Distances.KsTriangle | python/sketchlog/diff.py:48-75 | satisfies the triangle inequality |
| Distances.WassersteinDistance | python/sketchlog/diff.py:77-108 | the sweep computes the step integral of the gap over the union of the breakpoints |
| Distances.RefinementKeepsIntegral | python/sketchlog/diff.py:85-106 | adding breakpoints anywhere does not change the integral |
| Distances.DistanceIsIntegral | python/sketchlog/diff.py:77-108 | the result is the integral of the gap over every breakpoint set that covers both inputs |
| Distances.LevelIsAt | python/sketchlog/diff.py:48-75 | a cumulative function has at x the share of the last point at or before x, and 0 before the first |
| Distances.IntegralGrows | python/sketchlog/diff.py:77-108 | every breakpoint adds the gap up to it times its distance from the one before |
| Distances.PointMasses | python/sketchlog/diff.py:77-108 | the distance of two distributions concentrated in one value each is the difference of the values |
| Distances.WassersteinSymmetric | python/sketchlog/diff.py:77-108 | symmetric |
| Distances.WassersteinZero | python/sketchlog/diff.py:77-108 | non-negative, and zero exactly for equal step functions |
| Distances.WassersteinTriangle | python/sketchlog/diff.py:77-108 | satisfies the triangle inequality |
| Json.ArrayGrows | python/sketchlog/cluster.py:113-116 | the compact text of an array (RFC 8259 section 5) grows by the item and a comma |
| Json.ObjectGrows | python/sketchlog/cluster.py:113-116 | the compact text of an object (RFC 8259 section 4) grows by key, colon, value and a comma |
| Json.PutSize | python/sketchlog/cluster.py:578-619 | how storing a key in an object changes its size, whether the key is new or replaced |
| GossipBudget.DigestCursor.BoundedVersionVector | python/sketchlog/cluster.py:137-178 | the whole vector when it fits; else a maximal window from the cursor on, without the streams too large alone, with the cursor moved past it; within the limit exactly when the empty digest is |
| GossipBudget.CallMeans | python/sketchlog/cluster.py:137-178 | a vector that fits goes out whole; otherwise a call carries every stream that fits alone, or stops before one that would take it beyond the limit, where the next call starts |
| GossipBudget.EveryStreamIsSent | python/sketchlog/cluster.py:151-178 | n consecutive calls on a vector of n streams send a stream if and only if a digest with that stream alone is within the limit |
| GossipBudget.OversizedIsNeverSent | python/sketchlog/cluster.py:168-175 | whatever a call sends is of the vector, and a digest with it alone is within the limit |
| GossipBudget.FitsAloneIs | python/sketchlog/cluster.py:155-166 | what the loop reckons for a stream is the size of a digest with that stream alone |
| GossipBudget.LongNameExceedsLimit | python/sketchlog/cluster.py:147-155 | a node whose name alone reaches the limit exceeds it with every digest, even an empty one |
| GossipBudget.ReplyBuilder.AddRequest | python/sketchlog/cluster.py:578-598 | asks exactly when the whole reply stays within a quarter of the limit; the running size stays the exact size of the reply |
| GossipBudget.ReplyBuilder.AddUpdate | python/sketchlog/cluster.py:600-619 | adds or overwrites an origin exactly when the whole reply stays within the limit; the running size stays exact |
| GossipBudget.SyncQueue.Queue | python/sketchlog/cluster.py:454-482 | an update joins the open payload in place of what that carries of the same origin, opens a new one when that would overflow, or is dropped when it does not fit alone |
| GossipBudget.QueueingIsFaithful | python/sketchlog/cluster.py:454-482 | queueing keeps that only queued updates which fit alone are carried, and that each of them, or a later one for the same origin, is |
| GossipBudget.SendRequested | python/sketchlog/cluster.py:440-543 | for any list of updates the payloads are within the limit, carry only listed updates that fit alone, and each of those unless a later one for the same origin took its place; when they come stream by stream and name no origin twice, exactly once and in order |
| GossipBudget.SyncFittingIs | python/sketchlog/cluster.py:453-482 | of the updates, in order, those stay with which alone a payload is within the limit |
| PeerStore.InstallChangesOneEntry | python/sketchlog/cluster.py:761-798 | receiving changes the entry it is about, exactly when there is room and the version is newer, and no other |
| PeerStore.InstallMeans | python/sketchlog/cluster.py:761-798 | an entry is taken in exactly when its stream is known or there are fewer than 10000, its origin is known for it or there are fewer than 50, and it is newer than what is held |
| PeerStore.InstallKeepsLimits | python/sketchlog/cluster.py:761-778 | a node never comes to hold more than 10000 streams, nor 50 origins of one |
| PeerStore.InstallLeavesNoEmptyStream | python/sketchlog/cluster.py:779-798 | receiving leaves no stream without an origin behind |
| PeerStore.ParseMeans | python/sketchlog/cluster.py:732-760 | exactly which items of a payload count, and with which version: the payload's time if they have none |
| PeerStore.InstallKeepsValid | python/sketchlog/cluster.py:785-798 | a snapshot and a tombstone of one origin never coexist |
| PeerStore.InstallIsMonotone | python/sketchlog/cluster.py:779-783 | the known version of every entry only grows |
| PeerStore.HoldsNewest | python/sketchlog/cluster.py:725-798 | after any run of deliveries within the limits a node holds a newest entry of what it held and was delivered |
| PeerStore.SameDeliveriesSameEntries | python/sketchlog/cluster.py:725-798 | two nodes delivered the same third-party entries in any order and multiplicity hold the same entries |
| Mesh.StepKeepsInv | python/sketchlog/cluster.py:747-826 | every update, deletion, send and delivery keeps the mesh invariant |
| Mesh.RunKeepsInv | python/sketchlog/cluster.py:747-826 | in every reachable state stored entries are published ones, and anything else in flight is a tombstone of version 0 |
| Mesh.RunIsMonotone | python/sketchlog/cluster.py:779-783 | known versions never fall over a run |
| Mesh.DeletedStaysDeleted | python/sketchlog/cluster.py:785-798 | once a tombstone at v is held, no snapshot of version v or less is held again, whatever is resent |
| Mesh.AnswerAboutPeer | python/sketchlog/cluster.py:517-541 | a node answers a request with what it holds, and with a version-0 tombstone when it holds nothing |
| Mesh.AnswerAboutOwn | python/sketchlog/cluster.py:492-516 | about its own stream a node answers with the stream if that is newer than its last deletion, and else with the deletion, ties included |
| Mesh.AnswerIsPublished | python/sketchlog/cluster.py:492-541 | an answer was published by its origin if and only if the node has published the stream itself or, asked about another origin, holds an entry of it |
| Mesh.UnheardIsAnswered | python/sketchlog/cluster.py:517-541 | an example: a node that has just started is asked for any stream of anyone and sends a tombstone nobody published |
| Exchange.AfterReply | python/sketchlog/cluster.py:433-436 | what the initiator holds of any other origin once the reply is in: the newer of the two |
| Exchange.AnswersKeepPromises | python/sketchlog/cluster.py:438-541 | the initiator answers every request with at least the version its digest listed |
| Exchange.AfterSync | python/sketchlog/cluster.py:721-723 | what the responder holds once the sync is in |
| Exchange.ExchangeAgreesOnThirdParties | python/sketchlog/cluster.py:381-719 | after a complete exchange the initiator has the maximum of both versions; both hold the same entry if and only if no newer snapshot of an origin held for dead was withheld |
| Exchange.ExchangeSharesOwnState | python/sketchlog/cluster.py:381-719 | each partner holds the other's current snapshot or tombstone of every stream it published, and nothing if it published nothing |
| Exchange.WithheldStaysBehind | python/sketchlog/cluster.py:409-414 | an example: the partner of a complete exchange holds nothing of an origin the initiator holds for dead |
| MergedView.AnyOrderGivesTheSameView | python/sketchlog/cluster.py:868-875 | the merged view, or its refusal, does not depend on the order in which the dictionary lists the origins |
| MergedView.MergeSucceedsWhenSumFits | python/sketchlog/cluster.py:868-875 | the view is refused exactly when the sum of all logs is not representable |
| MergedView.UpToDateSharesLogs | python/sketchlog/cluster.py:868-875 | two nodes with equal entries for every third party, each holding the other's current state, have the same logs of a stream, each origin once |
| MergedView.ViewIsShown | python/sketchlog/cluster.py:868-875 | a node shows a view exactly when all logs have the configuration of its own log, or the default one without it, and a representable sum |
| MergedView.UpToDateGivesOneView | python/sketchlog/cluster.py:868-875 | such nodes show one log, or both refuse, if and only if it is not the case that exactly one of them has the stream itself, with a configuration other than the default that all logs share, and the sum fits |
| MergedView.OneSidedView | python/sketchlog/cluster.py:868-875 | an example: two up-to-date nodes of which one shows its own stream and the other refuses to |
| MergedView.DeliveriesBringUpToDate | python/sketchlog/cluster.py:725-804 | two nodes that were delivered the same third-party entries in any order and multiplicity, and each other's current state, are up to date with each other |
| MergedView.DeliveriesGiveOneView | python/sketchlog/cluster.py:868-875 | so what they show is the same under exactly that condition |
| MergedView.ExchangeBringsUpToDate | python/sketchlog/cluster.py:381-719 | the partners of a complete exchange that withheld nothing of a stream are such nodes |
| MergedView.ExchangeGivesOneView | python/sketchlog/cluster.py:868-875 | so what they show is the same under exactly that condition |
| MergedView.ViewCountsEveryEventOnce | python/sketchlog/cluster.py:868-875 | the view is the log of all origins' events together, every origin counted once |
| Membership.RumoursAddUp | python/sketchlog/cluster.py:284-334 | a record ends with the highest incarnation heard and is live exactly when nothing at that incarnation accuses, in whatever order the rumours came |
| Membership.RumourMeans | python/sketchlog/cluster.py:284-334 | what one rumour does, case by case: what is refused, what a node refutes, what is recorded with which address and time, and what only changes the status |
| Membership.IncompleteRumour | python/sketchlog/cluster.py:284-300 | a rumour that lacks a part says nothing |
| Membership.SameRumoursSameVerdict | python/sketchlog/cluster.py:284-334 | two nodes that took in the same rumours agree on incarnation and accusation |
| Membership.FirstAccusationStays | python/sketchlog/cluster.py:325-334 | a record ends with the status of the first source that accuses at the highest incarnation heard, the record held before counting first, and live when none does |
| Membership.SameStatusExactly | python/sketchlog/cluster.py:325-334 | two records of one incarnation show one status if and only if the same kind of accusation came first to both, or none to either |
| Membership.OrderMattersExactly | python/sketchlog/cluster.py:325-334 | every order of the rumours gives one status if and only if not both suspicion and death are heard at the final incarnation, or an accusation of it was on record |
| Membership.AccusationIsRefuted | python/sketchlog/cluster.py:300-306 | an accusation at incarnation i leaves its subject above i |
| Membership.RefutesOnce | python/sketchlog/cluster.py:300-306 | among honest nodes a message raises the receiver's incarnation by one if it accuses it at its present incarnation, and not at all otherwise |
| Membership.OnlyTheDeadAreDropped | python/sketchlog/cluster.py:336-350 | with a non-negative timeout a record is dropped exactly when it was already dead for more than five timeouts, so a suspect is never dropped in the pass that declares it dead |
| Membership.PassIsExact | python/sketchlog/cluster.py:336-350 | after a pass a suspect silent for longer than the timeout is dead as of now, a record dead for more than five timeouts is gone, and any other is as it was |
| Membership.RefutationPrevails | python/sketchlog/cluster.py:300-334 | once an announcement at some incarnation is among the rumours, in whatever place, the record is at that incarnation or above and is the same as if no older rumour about the member had been heard |
| Membership.StepKeepsInv | python/sketchlog/cluster.py:276-371 | merging, failed pings, timeouts, forgotten seeds and sends keep the membership invariant |
| Membership.RunKeepsInv | python/sketchlog/cluster.py:276-371 | in every reachable state a node is live in its own table at its own incarnation, and nothing stored or in flight gives it a higher one |
| Membership.RecordsGrow | python/sketchlog/cluster.py:276-355 | a record only grows in incarnation, then severity, until it is dropped; a node's own incarnation never falls |
| Digests.KeptIsCompleteUpToFifty | python/sketchlog/cluster.py:557-567 | a receiver reads every valid origin a digest lists for a stream if and only if there are at most fifty |
| Digests.NormalizeVersions | python/sketchlog/cluster.py:550-571 | reads the first ten thousand valid streams and of each the first fifty valid origins |
| Digests.ListingMeans | python/sketchlog/cluster.py:550-571 | which streams and origins of a received digest count, one by one |
| Digests.SmallDigestsArrive | python/sketchlog/cluster.py:550-571 | a digest of valid names within both limits is read as it was written |
| Digests.Reply.Request | python/sketchlog/cluster.py:578-598 | an origin is asked for exactly when it is already or the whole reply stays within a quarter of the limit; the requests object stands for the accepted requests |
| Digests.Reply.Update | python/sketchlog/cluster.py:600-619 | an entry is added exactly when the whole reply stays within the limit; the updates object stands for the accepted updates |
| KeyTexts.TextsDiffer | python/sketchlog/cluster.py:118-135 | two pairs of names never have one key text, escapes and surrogate pairs included |
| KeyTexts.KeyLengthIs | python/sketchlog/cluster.py:118-135 | the length limit of a key is on its text |
| ReplySizes.RequestsSize | python/sketchlog/cluster.py:578-598 | the size of the requests object is a sum over the texts and origins asked for, so it does not depend on their order |
| ReplySizes.UpdatesSize | python/sketchlog/cluster.py:600-619 | the size of the updates object is a sum over the texts and entries it carries |
| ReplySizes.ReplyGrows | python/sketchlog/cluster.py:575-619 | a reply that carries and asks for more is no smaller |
| ClusterManagers.ClusterManager.constructor | python/sketchlog/cluster.py:37-108 | a node starts knowing itself only |
| ClusterManagers.ClusterManager.MergeMembership | python/sketchlog/cluster.py:284-334 | taking rumours in one by one with all checks is the merge the membership properties are about |
| ClusterManagers.ClusterManager.PingFailed | python/sketchlog/cluster.py:276-282 | a failed ping makes a live record suspect as of now and touches no other record |
| ClusterManagers.ClusterManager.CheckTimeouts | python/sketchlog/cluster.py:336-355 | in any iteration order: suspects silent for longer than the timeout are dead as of now, records dead for more than five timeouts are gone, and every other record stays; exactly the snapshots of dropped members go, tombstones stay |
| ClusterManagers.ClusterManager.ReceiveOne | python/sketchlog/cluster.py:761-798 | the nested dictionary updates of the locked region amount to one versioned install |
| ClusterManagers.ClusterManager.ReceiveSnapshot | python/sketchlog/cluster.py:725-804 | refuses only an invalid sender; otherwise the peer state is that of installing the valid items in turn |
| ClusterManagers.ClusterManager.BuildVersionVector | python/sketchlog/cluster.py:395-421 | lists for every stream and origin the version the exchange assumes, and exactly the streams and origins the node's state names, whatever the iteration orders; a held snapshot is withheld exactly when its origin is listed as dead |
| ClusterManagers.ClusterManager.RequestNewer | python/sketchlog/cluster.py:623-638 | requests only what the digest lists newer than anything held, stream by stream and each origin once; what is left out would take the reply beyond a quarter of the limit |
| ClusterManagers.ClusterManager.OfferStreams | python/sketchlog/cluster.py:641-660 | every own stream the digest lacks is in the reply, unless one of them would take it beyond the limit |
| ClusterManagers.ClusterManager.OfferOwnTombstones | python/sketchlog/cluster.py:661-675 | every own tombstone of a stream not started again that the digest lacks is in the reply, unless one of them would take it beyond the limit |
| ClusterManagers.ClusterManager.OfferPeers | python/sketchlog/cluster.py:677-713 | every held snapshot and tombstone the digest lacks is in the reply, unless one of its kind and stream would take it beyond the limit |
| ClusterManagers.ClusterManager.HandleGossipDigest | python/sketchlog/cluster.py:548-719 | the reply stays within the limit and asks only for what is wanted and sends only what is on offer; a request is left out only if it exceeds its quarter, an entry only if it or one of its sweep exceeds the limit |
| ClusterManagers.WholeReplyWhenItFits | python/sketchlog/cluster.py:548-719 | when all requests fit a quarter of the limit and everything fits the limit, nothing is left out |
| ClusterManagers.ClusterManager.FulfilRequests | python/sketchlog/cluster.py:484-541 | answers each well-formed request with the node's current entry, a tombstone winning ties |
| ClusterManagers.ClusterManager.BeginDeletion | python/sketchlog/cluster.py:812-826 | refused exactly at capacity for a new stream; otherwise the version is the clock's or just above the previous tombstone, whichever is later |
| ClusterManagers.ClusterManager.RollbackDeletion | python/sketchlog/cluster.py:828-838 | undoes the reservation unless a later one replaced it |
| ClusterManagers.ClusterManager.DeleteStream | python/sketchlog/server.py:1351-1382 | a stream neither in memory nor in storage is not found; says exactly when there is no capacity and when storage fails, each leaving the node as after the lookup with its tombstones as they were; otherwise the stream is gone and it is the deletion step of the mesh, whose version is above everything published exactly when the reservation is newer than the stream |
| ClusterManagers.RollbackUndoes | python/sketchlog/cluster.py:812-838 | a reservation rolled back at once leaves the tombstones as they were |
| ClusterManagers.RollbacksNest | python/sketchlog/cluster.py:828-838 | two failed reservations are undone in reverse order, and in the other order leave the earlier tombstone |
| ClusterManagers.RollbackLeavesPeersBehind | python/sketchlog/cluster.py:812-838 | after a reservation, the delivery of its tombstone to a peer and the rollback, the node answers with its stream again, and the peer shows that or any later state if and only if it is newer than the tombstone |
| ClusterManagers.LateClockLosesDeletion | python/sketchlog/cluster.py:812-826 | an example: a deletion with the clock behind the stream is published below it and ignored by peers that hold the stream |
| ClusterManagers.ClusterManager.RestoreLocalTombstones | python/sketchlog/cluster.py:845-861 | raises exactly when a valid stored stream is new and all streams together exceed the capacity, having restored what comes before the first without room; no tombstone falls, all stored ones are covered on success, none is made up |
| ClusterManagers.StoredVersionMeans | python/sketchlog/cluster.py:840-852 | which stored tombstones count, and with which version |
| ClusterManagers.AfterStoredMeans | python/sketchlog/cluster.py:853-861 | a stream ends with the greatest of its version before and those stored for it |
| ClusterManagers.ClusterManager.GetMergedStream | python/sketchlog/cluster.py:868-875 | the view of the node: from the local log or an empty one of the default configuration, refused when some log has another configuration, else the merge of every enumeration of the origins |
| BoundedDigests.ListedIsSelected | python/sketchlog/cluster.py:137-178 | a stream of the vector is in a digest exactly when the budget selected its entry |
| BoundedDigests.SelectionLists | python/sketchlog/cluster.py:137-178 | what a digest carries is the vector cut down to its streams, each once with all its origins |
| GossipRounds.WiresReadBack | python/sketchlog/cluster.py:732-798 | a payload is read back as the facts its receiver may act on |
| GossipRounds.RequestsAreGrouped | python/sketchlog/cluster.py:484-543 | the answers to the requests of a reply come stream by stream and name no origin of a stream twice |
| GossipRounds.DigestArrives | python/sketchlog/cluster.py:550-571 | of a readable size, a bounded digest tells its receiver the versions of its streams and nothing of the others |
| GossipRounds.GossipRound | python/sketchlog/cluster.py:381-723 | a round on two node objects sends the next bounded part of the vector, replies, answers and sends as far as the limits allow, and nothing at all when there is nothing to list or an empty digest exceeds the limit; when both states and the limit are such that everything fits, which can be told beforehand, it is the complete exchange |
| GossipRounds.RoundIsComplete | python/sketchlog/cluster.py:381-723 | valid names, a vector that fits one digest and is of readable size, requests within a quarter of the limit, a reply within the limit, answers that fit a payload and room at both nodes make a round complete |
| GossipRounds.FiftyOneOriginsDoNotArrive | python/sketchlog/cluster.py:557-567 | a node with its own stream and fifty live peers of it lists an origin its receiver does not read |
| Learning.ReceivingLearns | python/sketchlog/cluster.py:747-798 | whoever receives another's answers goes on answering as before or takes over something newer of theirs, whatever there was no room for |
| Learning.ChangeIsNews | python/sketchlog/cluster.py:747-798 | a node changed by receiving answers something newer than before |
| Learning.NewsAgrees | python/sketchlog/cluster.py:747-798 | two nodes that learn from each other differ on less as soon as either learns anything |
| CatchUps.RoundKeeps | python/sketchlog/cluster.py:381-723 | a bounded round keeps all that catching up needs of the two nodes, and they come to differ on nothing new |
| CatchUps.ListingIsProgress | python/sketchlog/cluster.py:381-723 | a round whose digest carries a stream of which the partner lacks something leaves the two differing on less, however much the reply and payloads leave out |
| CatchUps.StuckIsOneVector | python/sketchlog/cluster.py:137-178 | while the two differ on as much, the rounds send one vector, window after window |
| CatchUps.CycleIsProgress | python/sketchlog/cluster.py:381-723 | as many rounds as the vector has streams leave the two differing on less, as long as the partner lacks something of a stream that fits a digest alone |
| CatchUps.CatchesUp | python/sketchlog/cluster.py:381-723 | after one such cycle for each entry the two differed in, the partner knows everything the initiator's digests promised and promise of every stream that fits a digest alone, for every limit under which single requests and answers fit |
| Convergence.AnswerAlike | python/sketchlog/cluster.py:381-723 | when each of two nodes that take nobody for dead has started enough bounded rounds with the other, both answer alike about every origin of such a stream, about themselves as they did at the start |
| Convergence.BothWaysBringUpToDate | python/sketchlog/cluster.py:381-875 | then they are up to date with each other and show one view of the stream, unless it is one-sided |
| Documents.CanonicalTextOnly | python/sketchlog/facade.py:291-301 | a key text is read as i if and only if it is the canonical decimal text of i |
| BucketStores.BucketsAddUp | python/sketchlog/facade.py:320-323 | after any run zero count and bucket counts sum to the count |
| BucketStores.ReachableExtremaMatch | python/sketchlog/facade.py:334-366 | after any run the extrema fall into the outermost buckets and agree with which buckets exist |
| BucketStores.IndicesInRange | python/sketchlog/facade.py:281-309 | magnitudes doubles can have give indices in the checked range |
| Restore.ReachableIsRestorable | python/sketchlog/facade.py:241-456 | every log reached by counting and merging doubles passes all checks of the restore |
| Restore.SavedDescribes | python/sketchlog/facade.py:204-229 | a saved document says everything about its log, with integer or text bucket keys |
| Restore.DescriptionIsDetermined | python/sketchlog/facade.py:241-456 | a document describes at most one log |
| Restore.ReadBins | python/sketchlog/facade.py:288-318 | accepts exactly canonical, distinct, in-range indices with positive 64-bit counts within the capacity |
| Restore.ExtremaAgree | python/sketchlog/facade.py:334-366 | the chain of extrema checks decides exactly whether extrema and buckets match |
| Restore.ReadSketch | python/sketchlog/facade.py:259-369 | returns the sketch described if it is restorable, and nothing if none is |
| Restore.ReadRegisters | python/sketchlog/facade.py:371-386 | accepts exactly register lists of the right length and range |
| Restore.ReadCounts | python/sketchlog/facade.py:388-417 | accepts exactly tables of the right shape whose rows sum to the total |
| Restore.FromDict | python/sketchlog/facade.py:241-456 | accepts exactly the documents that describe a restorable log, and returns that log |
| Restore.SaveAndRestore | python/sketchlog/facade.py:204-456 | restoring a saved log returns it if and only if it is restorable, for both key forms |
| Recordable.RestorableIsRecordable | python/sketchlog/facade.py:300-366 | a sketch passes the restore's checks, and its extrema do not differ within the bucket of a single sample, if and only if it is within all limits, has indices doubles can have and is left by some samples |
| Recordable.AcceptedThoughUnrecordable | python/sketchlog/facade.py:334-366 | an example: a restored sketch of one sample with two extrema, which no samples leave |
| Recordable.RestorableSketchMeans | python/sketchlog/facade.py:300-333 | the sketches a restore returns, condition by condition |
| Recordable.BinsMean | python/sketchlog/facade.py:291-319 | at most 1024 buckets with positive 64-bit counts, each reaching into the magnitudes of doubles |
| Recordable.ExtremaLieOutermost | python/sketchlog/facade.py:334-366 | the extrema are ordered, lie in the outermost buckets and agree with which buckets there are |
| Recordable.RestorableCountsMean | python/sketchlog/facade.py:388-417 | positive dimensions of at most a million cells in all, counters within their width, every row summing to the total |
| Recordable.RestorableRegistersMean | python/sketchlog/facade.py:371-386 | a precision from 4 to 18, as many registers as it says, each between 0 and 65-p |
| Recordable.RestoredIsSound | python/sketchlog/facade.py:241-456 | a restored log is as sound as one left by counting and merging, with alpha of at least 0.000001 and a total that adds up |
| Recordable.AcceptedDocument | python/sketchlog/facade.py:241-258 | what is read as a log is of version 1 and says its total; a missing flag says not deterministic |
| Recordable.MissingFlag | python/sketchlog/facade.py:241-258 | a saved document without the flag is read as a log that is not deterministic |
| Recordable.AcceptedLatency | python/sketchlog/facade.py:259-369 | what the part for the quantile sketch says, extrema as numbers, whole or not, or none when it is empty |
| Recordable.NumberMeans | python/sketchlog/facade.py:325-333 | an extremum is a number, whole or not, within the range of doubles |
| Registry.FirstIsOldest | python/sketchlog/server.py:470-484 | the first stream of a namespace is the one not asked for the longest |
| Registry.StreamRegistry.constructor | python/sketchlog/server.py:451-465 | a new registry shows exactly what storage holds |
| Registry.StreamRegistry.CountLocked | python/sketchlog/server.py:467-468 | the count is the number of resident streams |
| Registry.StreamRegistry.Victim | python/sketchlog/server.py:470-484 | a victim is found exactly when a limit is reached: the oldest of a full namespace, else the oldest of the first namespace |
| Registry.StreamRegistry.FullMeans | python/sketchlog/server.py:470-483 | that is when the namespace has as many streams as it may, or all namespaces together, each limit taken as 1 if it is less |
| Registry.StreamRegistry.EvictIfNeeded | python/sketchlog/server.py:470-513 | a failed save leaves memory and storage alone; otherwise there is room, no stream's state changes and only the victim left memory |
| Registry.StreamRegistry.GetOrCreate | python/sketchlog/server.py:524-549 | returns the stream's state wherever it is kept, or a blank one; fails exactly on a needed storage call that fails, changing nothing |
| Registry.StreamRegistry.Get | python/sketchlog/server.py:551-578 | returns the stream's state wherever it is kept and changes no state |
| Registry.StreamRegistry.Delete | python/sketchlog/server.py:587-602 | removes the stream from memory and storage and reports whether it existed; no other stream changes |
| Registry.StreamRegistry.Perform | python/sketchlog/server.py:524-602 | one request is answered as an unbounded map would, or fails and changes nothing |
| Registry.StreamRegistry.Run | python/sketchlog/server.py:467-602 | over whole runs the registry is indistinguishable from an unbounded map, whatever the limits and failures, while residents stay within both limits (a limit below one lets one stream in) |
| Registry.StreamRegistry.WithinLimits | python/sketchlog/server.py:470-483 | what is in memory stays within both limits |
| Registry.ServedMeans | python/sketchlog/server.py:524-602 | what the unbounded map does: apply changes, look, erase, each to the one stream |
| TokenBuckets.LevelIsWhatTheRuleLeaves | python/sketchlog/rate_limit.py:152-164 | the bucket holds n tokens if and only if giving them keeps every past interval within its allowance |
| TokenBuckets.ConformsMeans | python/sketchlog/rate_limit.py:152-164 | giving tokens is allowed exactly when no interval up to now would get more than burst + rate*d, nor more than burst at once |
| TokenBuckets.SpentIs | python/sketchlog/rate_limit.py:152-164 | what was asked for is spent when it was granted, and only then |
| TokenBuckets.RateIsBounded | python/sketchlog/rate_limit.py:152-164 | tokens given in any interval of length d are at most burst + rate*d |
| TokenBuckets.TokenBucket.Consume | python/sketchlog/rate_limit.py:158-164 | grants exactly when the traffic rule allows it |
| TokenBuckets.TokenBucket.Available | python/sketchlog/rate_limit.py:166-170 | reads the level and takes nothing |
| QuotaCounters.CountIsWindowContent | python/sketchlog/rate_limit.py:190-209 | the counter reads the requests counted since its window opened, all of which fall inside it |
| QuotaCounters.OpeningIsLate | python/sketchlog/rate_limit.py:190-197 | a window that is not the first opens a full period after the one before |
| QuotaCounters.CountedIs | python/sketchlog/rate_limit.py:211-230 | the number of counted requests between two positions |
| QuotaCounters.RefusedExactly | python/sketchlog/rate_limit.py:211-230 | a request is refused if and only if as many were counted since the hour's window opened as its quota, or else since the day's window opened; a quota of 0 refuses nothing |
| QuotaCounters.WindowWithinQuota | python/sketchlog/rate_limit.py:211-228 | no window counts more than its quota |
| QuotaCounters.ShortIntervalWithinTwice | python/sketchlog/rate_limit.py:190-228 | an interval shorter than the period counts at most twice the quota |
| QuotaCounters.TwiceIsReached | python/sketchlog/rate_limit.py:190-228 | every quota and period can reach that bound, within an interval as short as one likes |
| QuotaCounters.QuotaCounter.CheckAndIncrement | python/sketchlog/rate_limit.py:211-228 | refuses exactly at a quota, the hourly one first, and otherwise counts the request in both windows |
| QuotaCounters.QuotaCounter.Decrement | python/sketchlog/rate_limit.py:230-236 | both counts go down but not below zero; after a counted request the counter is as if that call had counted nothing |
| Admission.TurnedAwayIsUnnoticed | python/sketchlog/rate_limit.py:268-308 | a check turned away by the bucket is invisible to every later sequence of checks if and only if the namespace had a counter and no window of it had run out by the last reading |
| Admission.FirstRequestIsNoticed | python/sketchlog/rate_limit.py:263-266 | an example: the first request of a namespace opens the windows, though it is turned away |
| Admission.LateReadingIsNoticed | python/sketchlog/rate_limit.py:286-298 | an example: a window that runs out before the use is reported is opened anew |
| Admission.ExpiredWindowIsNoticed | python/sketchlog/rate_limit.py:268-298 | an example: a window that has run out is opened by the request that is turned away, which gets a later one through |
| RateLimit.RefusalIsUnnoticed | python/sketchlog/rate_limit.py:268-308 | the same equivalence for any namespace of a running enforcer |
| RateLimit.RateLimitEnforcer.CheckAll | python/sketchlog/rate_limit.py:268-308 | a sequence of checks of an enforcer is told what the namespace's standing says |
| RateLimit.GetQuota | python/sketchlog/rate_limit.py:84-104 | the first quota of the name, else the last wildcard, else valid defaults |
| RateLimit.OneQuotaGoverns | python/sketchlog/rate_limit.py:84-104 | that choice is unique |
| Admission.SpacesAre | python/sketchlog/rate_limit.py:42-44 | which characters alone make no name |
| RateLimit.ListedGoverns | python/sketchlog/rate_limit.py:84-103 | the first quota of a namespace's name governs it, and the last wildcard one every namespace none names |
| RateLimit.DefaultsGovern | python/sketchlog/rate_limit.py:84-103 | otherwise the default rate, burst and quotas do, if they make a valid quota |
| RateLimit.RateLimitEnforcer.Check | python/sketchlog/rate_limit.py:268-308 | every decision is justified by quotas and traffic rule on the namespace's own history; only allowed requests count; other namespaces are untouched |
| RateLimit.CheckIsExact | python/sketchlog/rate_limit.py:268-308 | over every run a request is refused if and only if the quota for the hour, or else for the day, had been used up since that window opened; any other is allowed if and only if no interval would get more than burst + rate*d tokens |
| RateLimit.CheckReportsExactly | python/sketchlog/rate_limit.py:268-308 | a decision reports the most that could still be given and what was counted in the windows open when the use is read, this request included |
| RateLimit.TokensAreBounded | python/sketchlog/rate_limit.py:268-308 | over every run of checks tokens of a namespace in an interval of length d are at most burst + rate*d |
| RateLimit.RequestsAreBounded | python/sketchlog/rate_limit.py:268-308 | over every run no window exceeds its quota and no interval shorter than its period twice the quota |

## Left out

- Floating point: rounding, NaN beyond "non-finite values are ignored", and the clamping of denormal representatives; values are exact reals.
- DenseStore index bounds: the cached least and greatest index and the empty flag of a store are not modelled; the stores are maps.
- CountMin.CountMinSketch and Cardinality.HyperLogLog state setters: restoring a state is modelled once, by `Restore.FromDict`.
- Cardinality estimate and the error probabilities of the sketches: statistical statements.
- core Python sketches: add and merge follow the C++ headers; only their constructor bounds are taken over.
- Distances.WassersteinDistance: with one empty input the sweep ends at the last breakpoint, so the integral laws are stated for two non-empty inputs.
- Mesh.DeletedStaysDeleted: runs do not contain the removal of a timed-out member, which forgets that member's snapshots and their versions, nor restarts and rolled back deletions.
- Mesh.RunKeepsInv: assumes that each update or deletion of an origin takes a larger version; a snapshot read between two updates of one stream is one step.
- GossipRounds.GossipRound: rounds in which no message is lost and nothing else happens between digest and sync.
- CatchUps.CatchesUp: consecutive rounds with one partner; digests sent to other partners in between move the one cursor on, so with several partners a partner may miss windows for longer. The order in which a node lists what it knows is taken to depend on its state alone.
- ClusterManagers.ClusterManager.DeleteStream: the stream another one evicts when the lookup brings it into memory; `Registry` has the eviction.
- ClusterManagers.ClusterManager.MergeMembership: parsing and canonical form of addresses are taken as given, and a record always carries an address.
- Membership.RunKeepsInv: runs without restarts, whose incarnation would start at 0 again; seed placeholders are no nodes.
- Restore.FromDict: the conversion of whole numbers to doubles is exact within their range.
- Registry.StreamRegistry.Run: one request at a time on a storage backend that returns what was last saved; a caller changes a stream right after it was handed it.
- RateLimit.RateLimitEnforcer.Check: one check at a time with a clock that does not run backwards.
- HTTP, WebSocket and authentication code, peer URLs, storage backends, alerts, drift, plotting and the clients.
