# Thalweg verification

A Dafny model of Thalweg's event store and of everything that moves events through it, with proofs. Thalweg's
daemon keeps an append-only store of immutable events per network; daemons synchronize pairwise; consumers read
the store through durable siphons, registry workers derive events from what they read, and clients query the
store or subscribe to it.

`dafny verify dfyconfig.toml` checks the whole project.

## What is modelled

| file | part of the system |
|---|---|
| Wrappers, Bytes, Finite, Listing, WhiteSpace | a missing value, byte strings in iteration order, ascending listings, white space |
| KeyCodec, Digits, Timestamps, Keys, Chronology | base64url key parts, padded numbers, canonical timestamps, the textual keys of all tables, the chronological key |
| Hlc, Store, Ingest | the Hybrid Logical Clock, the store with its ID index and arrival index, and the two ingest transactions |
| Replication, Termination | receiving an event, conflict resolutions, the recursion between the two and when it ends |
| Replica, Session, Convergence | what sessions do to replicas and how a mesh converges |
| World, CalmWorld, NodeClocks, UpgradedWorld | runs of N daemons, one transaction at a time, with crashes possible between any two; their clocks; runs that begin with filled stores |
| PreserveBoth, LateVariants, Scenarios | what preserve-both preserves, when it does not, and concrete runs that get there |
| Instances | hash functions that meet the hypotheses |
| Inventory, DaemonObject, Frames, Sync | inventory pages, the daemon object with its operations, the frames of a session and their sizes, and a session between two daemon objects over a connection that can break at any frame |
| Siphons, Worker, ExactlyOnce | durable siphons, Processor workers on top of them, and runs with crashes and retries |
| Query, Migration | ordered queries; schema migrations 1 to 4 |
| SiphonWake, MeshWake, MeshExclusion | wake channels and mutual exclusion |
| Framing, Transcript, FrameReader, LiveSubscription | bounded frames, the proof transcript, the Python client's reader and its subscriptions |

A store is a value whose transactions are all-or-nothing; a crash ends a run between two of them. Daemons, siphon
operations, migrations and the Python client change their state in place, and each method is proved against a
function or relation on values that the theorems are about. Random IDs, wall-clock readings, the encoded size of
frames and the fate of every frame are parameters.

## Hypotheses

- `CollisionFree`: the digest and the recovered-ID hash are injective, a recovered ID is not empty, and it does
  not occur in what it is derived from. `OutputHash`: the same for derived output IDs. SHA-256 only approximates
  this; `Instances` shows that the hypotheses are consistent on every finite set of events.
- `World.Enabled`: a random ID is new and outside the range of the recovered IDs, and producers do not name
  recovered IDs themselves. `CalmWorld.Considerate`: producers do not reuse the ID of a resolution event. Without
  the second the stores stay valid and the recursion still ends; convergence is proved with it, and
  `Session.ReusedResolutionIdBlocks` and `Scenarios.ReusedIdIsReachable` show that it needs it.
- `Convergence.Quiescent`: ingestion and new resolutions have stopped.
- Sequence numbers last: theorems about siphon runs ask for an arrival sequence below 2^64-1.

## What the code does that its documentation does not say

- docs/CONFLICTS.md promises every distinct variant in the recovered history. A variant that a node stores, by a
  receive or an ingest, when it knows the ID to be superseded, does not hold it, and does not hold the variant's
  copy, stays hidden without a copy until another peer sends the copy or the daemon restarts. This condition on
  the state before the call is exact (`LateVariants.ReceiveKeepsRepairedIff`, `IngestKeepsRepairedIff`), over
  whole runs repair is lost in no other way but a crash or a failure between a resolution and its copy
  (`OwedIffIncurred`, `RepairLostOnlyByLateSteps`), and it is reachable (`Scenarios.LateStepIsReachable`).
  `PreserveBoth.VariantShownIffCopied` says what a copy is worth once the mesh has converged, and
  `ReconcileConflictResolutions` is the repair.
- One synchronization is not always enough: a resolution learned in the pull makes the initiator copy its own
  variant after the push (`Session.OneSessionIsNotEnough`). `VisibleAgreeIff` decides on the two replicas before
  the session whether it is.
- A page whose missing events encode to more than 1 MiB cannot be synchronized: the session fails at that page
  (`Sync.SynchronizePeer`), and so does every later push of the same inventory (`Sync.PushInventory`).
- A siphon cursor at 2^64-1 wraps and starts again (`Siphons.ExhaustedCursorRedelivers`).
- A legacy event without propagatedAt passes the migrations and then violates what every replicated operation
  demands of stored events (`Migration.UpgradeEstablishesInvariant`).
- A query that lists a stream twice answers its events twice (`Query.AnswerListsMatches`).
- A Python subscription whose connection is lost between the daemon's answer and the handler's registration
  neither gets events nor ends (`LiveSubscription.LateRegistrationIsNotTold`).

## Model

| member | source | states |
|---|---|---|
| Hlc.NextLocalIsLeastAhead | core/daemon/hlc.go:49-59 | A local tick is the least stamp strictly after the clock and not behind the wall clock; it fails exactly when no such stamp with the larger physical time is left. |
| Hlc.MergeIsLeastAhead | core/daemon/hlc.go:65-107 | A merge is the least stamp strictly after both clocks and not behind the wall clock; it fails exactly when the remote clock is unset or the counter is used up. |
| Hlc.PhysicalIsMaximum | core/daemon/hlc.go:49-114 | Over every run of a clock, whatever the wall clock does, the physical part is the greatest of the starting time and of the wall and remote times of the accepted inputs. |
| NodeClocks.ClockIsRun | core/daemon/hlc.go:49-114 | In every run of the mesh a node's clock is that standalone clock, driven by exactly the transactions the node committed, restarts and failures included. |
| NodeClocks.NodeTimeIsMaximum | core/daemon/hlc.go:49-107 | So a node's physical time is the greatest of its time at the start and of the wall and remote times of the transactions it committed. |
| Store.FindIsEvents | core/daemon/daemon.go:1232-1272 | In a valid store a lookup by ID is never corrupt and finds exactly what is stored under that network and ID. |
| Store.AppendKeepsValid | core/daemon/durable_siphon.go:86-102 | The shared writes of an ingest keep both indexes in bijection with the primary events and arrival sequences distinct and at most the counter; exactly one event is added, behind all others in arrival order, and nothing stored changes. |
| Ingest.IngestInternalEffect | core/daemon/daemon.go:1043-1108 | A committed local ingest keeps the store invariant and the persisted clock equal to the one in memory; the event has the requested ID, network, stream and payload, and the requested time if one was given; a new one has otherwise the wall time, this device, and a stamp, equal to the new clock and repeated as its propagation time, strictly after every event the node holds. |
| Ingest.IngestInternalRejects | core/daemon/daemon.go:1015-1100 | A local ingest fails if and only if the network or stream is missing, the ID is held with another stream, payload or given time, the logical counter stands at 2^64-1 with no later wall time, or the arrival sequence is used up; producers are refused the stream system:conflict_resolution, and only that, beforehand. |
| Ingest.HeldIdDecides | core/daemon/daemon.go:1274-1295 | A request for an ID that is held is answered with the stored event if and only if stream and payload are the same and the time is, when one is given; otherwise it is refused; nothing changes either way. |
| Ingest.RetryIsIdempotent | core/daemon/daemon.go:1274-1295 | A repeated request returns the first event and changes nothing, at any later time and after anything that only extended the store. |
| Ingest.ApplyReplicatedEffect | core/daemon/daemon.go:1123-1176 | A committed receive stores the envelope unchanged, keeps the invariant, and moves the clock past the remote stamp and the local one, to the greatest physical time seen. |
| Ingest.ApplyReplicatedRejects | core/daemon/daemon.go:1130-1165 | A receive fails if and only if another envelope holds the ID, a counter stands at 2^64-1 in a stamp that has the greatest of the three times, or the arrival sequence is used up. |
| Replication.IngestReplicatedKeeps | core/daemon/daemon.go:1113-1188 | However a receive ends, and in whichever nested transaction it fails, the invariant holds and nothing stored is removed or changed. |
| Replication.MaterializeKeeps | core/daemon/conflicts.go:253-272 | The same for copying a conflict variant. |
| Replication.ReceiveRefuses | core/daemon/conflicts.go:288-304 | A receive is refused if a part of the envelope is missing, if it is on the resolution stream with a payload other than a resolution of version 1, strategy preserve-both and another, named event, or if another envelope holds its ID. |
| Replication.ReceivedIsStored | core/daemon/daemon.go:1113-1188 | A receive that ends well, with everything nested in it, has stored the envelope unchanged and reports whether it was new. |
| Replication.MaterializeStoresCopy | core/daemon/conflicts.go:253-277 | A copy that ends well stores the node's own envelope a second time, changed in nothing but the ID, which is derived from network, ID and digest; without an own envelope nothing happens. |
| Replication.FuelIsIrrelevant | core/daemon/conflicts.go:253-272 | The recursion bound of the model does not change how a call that ends ends. |
| Termination.RecursionEndsIffChainEnds | core/daemon/daemon.go:1113-1188 | The mutual recursion of receive and materialize ends if and only if the chain of stored resolutions does, copies made on the way included, up to a clock or sequence that runs out first. |
| Replica.MergedStep | core/daemon/daemon.go:1182-1186 | Receiving one more missing event of an offer, in any order, keeps the receiver exactly: what it had, what it received, and the copies of its own superseded variants. |
| Replica.HiddenIffResolved | core/daemon/conflicts.go:288-338 | An ID is hidden if and only if the replica holds an event of that network, on the stream system:conflict_resolution and under another ID, whose payload is a resolution of that ID of version 1 and strategy preserve-both; everything else held is shown as it is stored. |
| Session.SupersededAgree | core/daemon/sync.go:148-268 | After a session both replicas hide the same IDs: the union of what either of them hid. |
| Session.VisibleAgreeIff | core/daemon/sync.go:148-268 | After a session both show the same IDs if and only if, on the replicas as they were before, every resolution that is news to the initiator and about one of its variants calls for a copy that one side holds already, or that the responder makes during the push because it holds the same variant and is sent another resolution of it. |
| Session.VisibleAgree | core/daemon/sync.go:206-268 | One session is enough when the initiator holds the responder's resolutions before it. |
| Session.TwoSessionsSuffice | core/daemon/sync.go:117-146 | Two sessions always make both replicas show the same IDs, whoever starts the second. |
| Session.OneSessionIsNotEnough | core/daemon/sync.go:206-268 | A family of collisions for which the first session leaves the replicas showing different IDs. |
| Session.ConflictsExact | core/daemon/sync.go:509-554 | Reported conflicts are real differences, and every ID that both replicas show afterwards with different envelopes is reported by the pull. |
| Session.ReusedResolutionIdBlocks | core/daemon/conflicts.go:321-338 | Replicas between which a producer has reused a resolution's ID: nothing is left to exchange, they show different IDs, and the conflict is reported. |
| Session.IdleAgreesIff | core/daemon/conflicts.go:321-338 | Without the hypothesis that resolution IDs are not reused: two replicas between which nothing moves show the same IDs if and only if neither holds a resolution of something the other still shows; such a resolution has a reused ID, reported as a conflict, unless it is superseded itself. |
| Scenarios.ReusedIdIsReachable | core/daemon/conflicts.go:185-251 | A run of eight steps of three daemons that ends with such a pair. |
| Session.IdleMeansAgreed | core/daemon/sync.go:148-268 | A session that moves nothing changes neither replica, and both show and hide the same IDs. |
| Convergence.SessionProgress | core/daemon/sync.go:117-268 | Without new events, every session, complete or cut off, keeps the mesh consistent and never adds to the (node, event or copy) pairs still missing; a complete one that moves something lowers their number. |
| Convergence.ProductiveSessionsBounded | core/daemon/sync.go:117-146 | However sessions are scheduled and cut off, no run has more productive sessions than pairs were missing at its start. |
| Convergence.IdleMeshConverged | core/daemon/sync.go:117-268 | When every session on a connected peer graph is idle, all nodes show and hide the same IDs. |
| Convergence.DifferenceIsReported | core/daemon/sync.go:312-333 | In an idle mesh an ID shown with different envelopes at two nodes is a reported conflict on some link between them. |
| Convergence.CompletionIsCalmAndClosed | core/daemon/conflicts.go:274-277 | The events held anywhere together with the copies that resolutions call for are a finite set that no replica leaves. |
| World.StepKeepsInv | core/daemon/daemon.go:1015-1188 | Every step of N nodes (ingest, observation, resolution, receive, copy, restart) keeps the global invariant: valid stores, genuine copies, acyclic resolutions, one stamping per device. |
| World.RunsKeepInv | core/daemon/daemon.go:1015-1188 | The invariant holds after every finite run. |
| UpgradedWorld.StartsIff | core/daemon/daemon.go:1015-1188 | Runs may begin with filled stores: the invariant holds of some beginning with given valid stores if and only if no event poses as a recovered copy, resolutions parse and form no circle, each device stamped its events once, and none beyond its present clock. |
| UpgradedWorld.UpgradedStart | core/daemon/version.go:26-272 | Daemons on upgraded databases can begin a run if and only if every legacy event was complete and these conditions hold; for a daemon on its own the one about its clock always does. |
| UpgradedWorld.StartsCalm | core/daemon/conflicts.go:321-338 | Such a beginning, with no conflict observed yet, satisfies what the synchronization theorems ask for if and only if its resolutions are undisputed. |
| World.NodesAgreeOnCopies | core/daemon/conflicts.go:274-277 | Two nodes that hold a recovered ID hold the same envelope under it, so recovered variants never conflict. |
| World.RecursionAlwaysEnds | core/daemon/conflicts.go:253-272 | In every reachable world materializing ends, on every node and from every ID. |
| World.MaterializeIsRun | core/daemon/conflicts.go:253-272 | Materializing, successful or failed part of the way, is a run of copy steps, so the invariant holds between its transactions too. |
| World.IngestReplicatedIsRun | core/daemon/daemon.go:1113-1188 | The same for receiving an event another node holds. |
| CalmWorld.StepKeepsCalm | core/daemon/conflicts.go:185-251 | While producers do not reuse resolution IDs, every step keeps the hypotheses of the session theorems: resolutions are undisputed and supersede neither copies nor resolutions. |
| PreserveBoth.CalmWorldIsQuiescent | core/daemon/sync.go:117-146 | The replicas of such a world are a quiescent mesh as soon as no new event appears. |
| PreserveBoth.MaterializeIsCopy | core/daemon/conflicts.go:253-272 | In a calm mesh materializing adds exactly the node's own variant under its recovered ID, finds it, or fails for want of a resource and changes nothing. |
| PreserveBoth.ReceiveIsAbsorb | core/daemon/daemon.go:1113-1188 | In a calm mesh a receive has exactly the effect the session theorems assume, recurses at most once, and fails only for want of a resource or because another envelope holds the ID. |
| PreserveBoth.VariantShownIffCopied | core/daemon/conflicts.go:253-277 | In a converged mesh a superseded ID is shown nowhere, and a variant of it is shown on every node, unchanged under its recovered ID, if and only if some node copied it. |
| PreserveBoth.PreserveBothIsLossless | core/daemon/conflicts.go:253-277 | Any two nodes' copied variants of one ID are both shown on every node, different variants under different IDs, the collided ID never. |
| PreserveBoth.ResolvingPreservesVariant | core/daemon/conflicts.go:185-251 | Resolving an observed conflict hides the ID and shows the resolver's own variant unchanged under its recovered ID. |
| LateVariants.LateVariantIsHidden | core/daemon/daemon.go:1123-1188 | A received variant that is new to the node is stored hidden and without a copy if and only if, before the call, the node knew its ID to be superseded and did not hold the copy. |
| LateVariants.ReceiveKeepsRepairedIff | core/daemon/daemon.go:1113-1188 | A node with nothing to repair has nothing to repair after a receive, resolutions and copies included, if and only if what it received was not such a late variant. |
| LateVariants.IngestKeepsRepairedIff | core/daemon/daemon.go:1015-1108 | The same for what a producer ingests here: it is late if and only if its ID is superseded and not held, since a new stamp has no copy anywhere. |
| LateVariants.OwedIffIncurred | core/daemon/conflicts.go:253-272 | Over every run a node owes the copy of a variant if and only if some step incurred it (a late variant, or a resolution of a variant held without its copy) and no step has stored the copy since. |
| LateVariants.RepairLostOnlyByLateSteps | core/daemon/conflicts.go:340-354 | Where no crash and no missing resource separates a resolution from its copy, a node that started with nothing to repair lacks a copy if and only if a late step happened and nobody has sent the copy since. |
| LateVariants.LateStepsExactly | core/daemon/daemon.go:1043-1188 | Which steps are late, told before they happen: a producer's event under an ID that is superseded and not held here, or another node's variant of such an ID whose copy has not come first; resolving and copying never are. |
| Scenarios.LateStepIsReachable | core/daemon/daemon.go:1123-1188 | A run of five steps of three daemons with considerate producers, after which a received variant and a producer's own are both late, and leave the third daemon with a hidden variant and no copy. |
| Scenarios.RoomyHashesExist | core/daemon/conflicts.go:274-277 | There are hash functions for which the two concrete runs exist. |
| DaemonObject.Daemon.IngestInternal | core/daemon/daemon.go:1015-1108 | The method moves the daemon to exactly the state of the specified transaction, or leaves it alone with that error; a held ID is answered with the stored event exactly if stream, payload and any given time agree, and a new event is stored with each field as requested. |
| DaemonObject.Daemon.IngestPublic | core/daemon/daemon.go:1008-1013 | The same, refusing the reserved stream. |
| DaemonObject.Daemon.IngestReplicated | core/daemon/daemon.go:1113-1188 | The same for a receive with everything nested in it. |
| DaemonObject.Daemon.MaterializeConflictVariant | core/daemon/conflicts.go:253-272 | The same for copying the node's own variant. |
| DaemonObject.Daemon.ConflictResolutions | core/daemon/conflicts.go:321-338 | The scan of the resolution stream yields exactly the superseded IDs, and fails exactly when a resolution of the network does not parse. |
| DaemonObject.Daemon.ResolveEventConflict | core/daemon/conflicts.go:185-251 | Nothing is written unless a conflict on that ID was observed or it was resolved before, and the event is held; a second resolution adds no second event and reports the first one by chronological key; otherwise the resolution and then the copy are stored. |
| DaemonObject.RecordedResolutionHides | core/daemon/conflicts.go:222-238 | What is recorded is an event of this device on the resolution stream, under the random ID, with version 1, the resolved ID and strategy preserve-both; from then on the node hides that ID. |
| DaemonObject.FirstResolutionIsEarliest | core/daemon/conflicts.go:306-319 | The first resolution of an ID is the one that occurred first, then the one inserted first, then the one with the least counter. |
| DaemonObject.UnreadableMeans | core/daemon/conflicts.go:321-338 | A network's resolutions cannot be read if and only if one event on its resolution stream is not a resolution of version 1, strategy preserve-both and another, named event. |
| DaemonObject.Daemon.ReconcileConflictResolutions | core/daemon/conflicts.go:340-354 | At startup every superseded variant that is held in the mounted networks gets its copy, changed in nothing but the derived ID, nothing else is added, a repeated reconcile changes nothing, and it fails only for want of a resource. |
| DaemonObject.Daemon.InventoryPage | core/daemon/sync.go:420-507 | A page is exactly the first visible positions behind the cursor, sorted by ID, with digests, next cursor and done flag; the error cases exactly. |
| DaemonObject.Daemon.CompareInventory | core/daemon/sync.go:509-554 | Reports exactly the IDs not held and those held with another digest, records exactly the latter, each with the digest that was offered, and changes nothing else. |
| DaemonObject.ComparisonIsRun | core/daemon/sync.go:509-554 | Comparing entries that another node shows, and recording the differences, is a run of observation steps of the mesh. |
| DaemonObject.Daemon.EventsByIDs | core/daemon/sync.go:556-575 | Returns exactly the requested events in order, or fails if the list is invalid or one is not held. |
| Inventory.HonestPageAccepted | core/daemon/sync.go:499-501 | Every non-empty page of an honest node passes the receiver's check, although key order differs from ID order. |
| Inventory.PageContents | core/daemon/sync.go:453-505 | A page lists as many events as the limit, or less if it is the last; each is held, not hidden, behind the cursor, with its own digest, in the order of IDs; the page is the last exactly if nothing behind the cursor is left out; its cursor is the position of one of its entries. |
| Inventory.PageAdvances | core/daemon/sync.go:453-505 | A page that is not the last is not empty, moves the cursor strictly forward, and leaves no visible ID behind. |
| Inventory.CursorsIncrease | core/daemon/sync.go:260-266 | Over a walk through a changing store cursors strictly increase, so the check for a non-advancing cursor never fires. |
| Inventory.OfferedOnce | core/daemon/sync.go:420-507 | No ID is offered on two pages of a walk. |
| Inventory.EverythingVisibleIsOffered | core/daemon/sync.go:420-507 | Every ID visible throughout a finished walk is offered, whatever is inserted or hidden between pages. |
| Inventory.WalkTerminates | core/daemon/sync.go:420-507 | A walk has at most one page more than IDs ever appear in the store. |
| Inventory.ConflictEntriesExact | core/daemon/sync.go:532-543 | The entries listed as conflicts are exactly those held with another digest. |
| Inventory.MissingIdsExact | core/daemon/sync.go:528-531 | The IDs listed as missing are exactly those not held, in ascending order and without repetition. |
| Inventory.ValidateInventoryEntries | core/daemon/sync.go:590-614 | One pass over neighbours decides whether the page has 1 to 128 entries in strictly ascending order, with IDs and digests of 32 bytes. |
| Inventory.ValidateIDPage | core/daemon/sync.go:616-631 | Accepts exactly the non-empty lists of at most 128 distinct, non-empty IDs. |
| Inventory.ValidateRequestedEvents | core/daemon/sync.go:633-654 | Accepts exactly the permutations of the requested events of the network. |
| Sync.ReceiveAll | core/daemon/sync.go:395-404 | Receiving a list of wanted events merges exactly those; the replica is the fold of single receives over it, and the count of new ones is exact. |
| Sync.ServePush | core/daemon/sync.go:377-413 | A pushed page is checked as a whole before any of it is stored. |
| Sync.PushPage | core/daemon/sync.go:160-198 | One round of a push moves exactly what the responder lacks of the page, reports exactly what differs on it, and sends exactly these frames: the page, what is missing and what differs, and, if anything is missing, its events and the acknowledgement; it cannot end well if one of them is beyond 1 MiB, and only then is a frame refused, with nothing stored. |
| Sync.PullPage | core/daemon/sync.go:223-259 | One page of the pull, the same with the roles exchanged. |
| Sync.PullRound | core/daemon/sync.go:213-256 | A whole round of the pull sends exactly these frames: the request for the page, the page, and, if anything is missing, the request for it and its events. |
| Sync.StoreFetched | core/daemon/sync.go:238-256 | What came is stored only if it is exactly what was asked for, each ID once; otherwise nothing is. |
| Sync.PushInventory | core/daemon/sync.go:148-204 | A complete push transfers exactly what the initiator shows and the responder lacked; one that breaks off leaves the responder with part of it; it fails only with the connection, the clock, the sequence, or a page with a frame beyond the limit, which stops every later push of the same inventory as well. |
| Frames.StillDoesNotFit | core/daemon/sync.go:160-182 | What a receiver has taken of the pages before it leaves the missing events and conflicts of a page, and so its frames, as they were. |
| Frames.PagesAreFull | core/daemon/sync.go:156-160 | Every page of a session but the last one lists 64 events, the last one at most as many. |
| Frames.PageNeedsFrames | core/daemon/sync.go:160-204 | Which frames, none longer than 1 MiB, the round for one page needs in a push and in a pull. |
| Sync.PullInventory | core/daemon/sync.go:206-268 | A complete pull does the same for the initiator; against an honest responder its checks never fail. |
| Sync.SynchronizePeer | core/daemon/sync.go:117-146 | A session that ends well has the effect of the session theorems, with exact counts and conflicts; one that breaks off is a step of the convergence argument; over a connection that delivers everything it ends well, short of a clock or sequence running out, if and only if no page of either inventory needs a frame beyond 1 MiB, which the replicas before the session decide. |
| Sync.AppendUniqueStrings | core/daemon/sync.go:270-283 | Extends a list by what it lacks, without repetition. |
| Siphons.Scan | core/daemon/durable_siphon.go:309-350 | A scan finds exactly the events of the network that arrived behind the cursor up to where it ended, on one of the streams asked for or on any if none was asked for, and not superseded; at most as many as the limit, and all there are if it finds less. |
| Siphons.CreateDurableSiphon | core/daemon/durable_siphon.go:123-174 | Trims and validates name, streams and start; creates a siphon at the start or behind everything stored, or returns the existing one if its streams are the same. |
| Siphons.PollDurableSiphon | core/daemon/durable_siphon.go:208-244 | A poll redelivers what is pending with one attempt more, or scans; only the siphon's entry is written, and nothing on failure. |
| Siphons.PollHandsOut | core/daemon/durable_siphon.go:226-244 | The answer to a poll: the pending delivery with its ID, bounds and events and one attempt more; or, under the new ID as the first attempt, the events found from the cursor to where the scan ended; or nothing, and then the cursor has passed what was of no interest. |
| Siphons.AcknowledgeDurableSiphon | core/daemon/durable_siphon.go:368-402 | Only the pending delivery's own ID, which is not blank, moves the cursor, to the end of that delivery. |
| Siphons.MatchingSound | core/daemon/durable_siphon.go:324-350 | A scanned range delivers its chosen events in arrival order, each once, and misses none. |
| Siphons.SiphonStepKeeps | core/daemon/durable_siphon.go:208-402 | Every poll, acknowledgement and other transaction keeps the tiling of the arrival log, as long as sequence numbers last. |
| Siphons.DeliveryTilesTheLog | core/daemon/durable_siphon.go:309-402 | Over every run acknowledged batches cover consecutive disjoint intervals up to the cursor, each in arrival order and complete but for superseded events. |
| Siphons.DeliveryFollowsArrival | core/daemon/durable_siphon.go:324-350 | Deliveries follow the arrival order within and across batches, from behind the starting cursor up to the present one, and no event is in two places. |
| Siphons.NothingIsSkipped | core/daemon/durable_siphon.go:338-349 | Every event that arrived between the starting cursor and the present one, on one of the siphon's streams or on any if it has none, was delivered or is superseded. |
| Siphons.OnlyWantedIsDelivered | core/daemon/durable_siphon.go:338-345 | Over every run, whatever was acknowledged or is pending is an event of the siphon's network that arrived behind the starting cursor, on one of the siphon's streams or on any if it has none. |
| Siphons.PendingIsStable | core/daemon/durable_siphon.go:226-241 | Until its own acknowledgement a pending delivery keeps ID, bounds and events through polls with any limit and anything else that happens, one attempt more per poll. |
| Siphons.PendingStableOverRuns | core/daemon/durable_siphon.go:226-241 | The same over runs of any length, with the exact number of attempts. |
| Siphons.Drain | core/daemon/durable_siphon.go:208-402 | Polling and acknowledging until nothing comes ends, and has then seen, in arrival order, exactly the events behind the cursor that are on one of the siphon's streams, or on any if it has none, and not superseded. |
| Siphons.ExhaustedCursorRedelivers | core/daemon/durable_siphon.go:319-319 | The cursor increment wraps: a new delivery holds something from at or below its cursor if and only if the cursor is at 2^64-1 and anything wanted has arrived. |
| Worker.OutputSourceInjective | internal/registry/worker.go:497-500 | One definition never hashes the same text for two outputs, whatever bytes a delivery ID consists of. |
| Worker.ConsumeProcessorOutput | internal/registry/worker.go:283-328 | The loop ingests outputs under their derived IDs up to the first wrong line or failed ingest, as specified, and is well only if every line that is not blank is an event for an allowed stream. |
| Worker.WrongLineStops | internal/registry/worker.go:302-311 | A line that is no event, or is for a stream that is not allowed, fails the attempt, and the node is what the lines before it have made of it. |
| Worker.AttemptStoresLines | internal/registry/worker.go:291-321 | An attempt that is well has stored every line that is not blank: on its stream, which is allowed, with its payload and its time if it has one, under its own ID or the hash of network, name, delivery and output number, separated by NUL. |
| Worker.AttemptAddsLines | internal/registry/worker.go:307-321 | After any attempt, well or not, every event that was not there before is one of the lines in that way, so on an allowed stream. |
| Worker.AttemptStoresPrefix | internal/registry/worker.go:283-328 | An attempt that got through some lines leaves a longer prefix of the outputs stored and nothing else; repeated outputs change nothing. |
| ExactlyOnce.CreatedWorkInv | internal/registry/worker.go:165-217 | A Processor whose siphon has just been created, and under whose derived IDs nothing is stored, satisfies the invariant of these runs. |
| ExactlyOnce.StepKeepsInv | internal/registry/worker.go:165-217 | Every poll, attempt cut off anywhere, acknowledgement, crash and foreign transaction keeps: acknowledged outputs all stored, pending ones a prefix, nothing else derived. |
| ExactlyOnce.DerivedExactlyOnce | internal/registry/worker.go:165-217 | After any run the derived events are exactly all outputs of the acknowledged deliveries and the first k of the pending one, each under its own ID as it was printed. |
| ExactlyOnce.DerivedAsPrinted | internal/registry/worker.go:165-217 | After any run every derived event is on an allowed stream and has the stream, payload and given time of one printed output of an acknowledged or the pending delivery, under the ID of its number. |
| ExactlyOnce.OutputsApart | internal/registry/worker.go:497-500 | Two outputs never share an ID. |
| Query.QueryOrdered | core/daemon/daemon.go:1346-1433 | The answer is the collected shown events in range, sorted, descending exactly for the order desc, and cut at the limit; each occurs once per listing of its stream; invalid requests exactly. |
| Query.SortEvents | core/daemon/daemon.go:1423-1428 | A sorted permutation by chronological key. |
| Query.AnswersAreDetermined | core/daemon/daemon.go:1423-1432 | With no stream listed twice and distinct chronological keys, the answer is determined, descending is the reverse of ascending, and a limit takes a prefix. |
| Query.AnswerListsMatches | core/daemon/daemon.go:1390-1448 | The unlimited answer lists exactly the events of the network that are held and not superseded, not before the first bound and not after the last, where given, and on a listed stream, each as often as its stream is listed, so each once if no stream is listed twice. |
| Query.AnswerIsChronological | core/daemon/daemon.go:1423-1428 | An ascending answer never goes back in the time of occurrence, among equals not in the time of insertion, then not in the counter, then not in the text device:stream:id; a descending one is its mirror image. |
| Query.LimitCutsTheEnd | core/daemon/daemon.go:1429-1432 | A limited answer is a front of an unlimited one, shorter only if it is as long as the limit. |
| Chronology.KeyOrderIsTimeOrder | core/daemon/daemon.go:1475-1485 | Chronological keys compare if and only if time of occurrence, time of insertion, counter and the text device:stream:id do, in this order. |
| Query.ChronologicalKeyParts | core/daemon/daemon.go:1475-1485 | What of an event its chronological key determines: times, counter, and the device if it has no colon. |
| Query.ChronologicalKeyIsAmbiguous | core/daemon/daemon.go:1475-1485 | Two different events with the same chronological key. |
| Query.ReachableKeysDiffer | core/daemon/daemon.go:1475-1485 | In every reachable world with colon-free device IDs the keys tell a node's events apart, because a device stamps each event once. |
| Query.NodesAnswerAlike | core/daemon/daemon.go:1346-1433 | Nodes that show the same events answer every query with the same list. |
| Migration.Database.MigrateV1ToV2 | core/daemon/version.go:149-178 | Sets the clock to the greatest stamp of the stored events; refuses exactly when an insertedAt does not parse. |
| Migration.Database.MigrateV2ToV3 | core/daemon/version.go:180-272 | Moves every event to its new key and indexes it, with ID, network, stream, counter, device and payload unchanged, each time as it parses and a missing propagation time unset; nothing else is held afterwards; refuses, before writing anything, exactly when a timestamp does not parse or two events of a network share an ID. |
| Migration.Database.MigrateV3ToV4 | core/daemon/version.go:69-113 | Numbers the events 1 to n by chronological key and then primary key. |
| Migration.EnsureStorageSchema | core/daemon/version.go:26-67 | Runs the missing migrations one transaction at a time; what was done before a crash or refusal is a chain of migrations; other versions are refused untouched. |
| Migration.UpgradeEstablishesInvariant | core/daemon/version.go:26-272 | After an upgrade the clock is exactly the greatest stamp of a legacy event, and the store invariant holds if and only if every legacy event had an ID, a network, a stream, a device and a propagation time. |
| Migration.UpgradeKeepsEvents | core/daemon/version.go:180-272 | An upgrade from any earlier schema ends with exactly the legacy events, field by field: each time as it parses, a missing propagation time unset, all else unchanged, under the primary key made of these fields. |
| Migration.ArrivalsFollowTime | core/daemon/version.go:69-113 | The arrival migration uses the numbers from 1 on without a gap, and a later number never has an earlier time of occurrence, among equals of insertion, among equals a smaller counter. |
| Migration.UpgradeNumbersInTime | core/daemon/version.go:69-113 | So an upgraded database has its events in the order of time. |
| Migration.MigrationIsDetermined | core/daemon/version.go:69-272 | Each migration has one possible outcome. |
| Migration.CrashAndRestart | core/daemon/version.go:45-66 | An upgrade broken off between migrations reaches, after a restart, the database it would have reached without the crash. |
| Instances.HypothesesCanBeMet | core/daemon/conflicts.go:274-277 | For every finite set of held envelopes there are hash functions that meet all hypotheses on it and on the copies its resolutions call for, 32-byte digests included. |
| Instances.OutputHashCanBeMet | internal/registry/worker.go:497-500 | The same for the hash behind derived output IDs. |
| KeyCodec.EncodeRoundTrip | core/daemon/daemon.go:1507-1509 | Decoding a base64url key part gives back the value. |
| KeyCodec.EncodingVectors | core/daemon/daemon.go:1507-1509 | The published test vectors of the encoding, and the two symbols of its URL-safe alphabet. |
| KeyCodec.DecodesIff | core/daemon/sync.go:432-434 | Which cursors and digests decode: letters, digits, hyphen and underscore, line breaks anywhere, not one symbol more than a multiple of four; four symbols give three bytes. |
| KeyCodec.KeyOrderIsNotIdOrder | core/daemon/sync.go:499-501 | Index positions are not in ID order: two IDs that ascend and whose key parts descend. |
| Digits.OneDigit | core/daemon/daemon.go:1478-1484 | Counters are written in ASCII digits. |
| Digits.PaddedOrder | core/daemon/durable_siphon.go:71-73 | Zero-padded numbers compare as texts exactly as the numbers do. |
| Timestamps.TimestampsOrdered | core/daemon/daemon.go:34-34 | Canonical timestamps of the years 0000 to 9999 have one width and compare as texts exactly as the instants do. |
| Timestamps.CanonicalText | core/daemon/daemon.go:34-34 | The canonical text of every date and time of day, field by field. |
| Keys.EventKeyInjective | core/daemon/daemon.go:1487-1497 | Two events share a primary key only if they agree in every component of it. |
| Keys.StreamKeysFollowTime | core/daemon/daemon.go:1487-1497 | The events of a stream are stored in the order of their time of occurrence and, among equals, of their counter. |
| Keys.EventIdKeyInjective | core/daemon/daemon.go:1499-1505 | Two IDs, or two siphons, never share an index key; the texts of these keys. |
| Keys.PrefixScansAreExact | core/daemon/daemon.go:1435-1448 | A network prefix selects exactly that network's events, a stream prefix exactly that stream's in it. |
| Keys.IndexScansAreExact | core/daemon/durable_siphon.go:67-73 | Scans of the ID and arrival indexes stay within their network. |
| Keys.ArrivalKeyRoundTrip | core/daemon/durable_siphon.go:471-480 | Reading an arrival key gives back its sequence number. |
| Keys.ArrivalKeysOrdered | core/daemon/durable_siphon.go:71-73 | Within a network the arrival index iterates by sequence number. |
| Keys.TablesAreSeparate | core/daemon/daemon.go:1487-1505 | No key of one table lies in another table's scan. |
| SiphonWake.StepKeeps | core/daemon/durable_siphon.go:256-307 | Every interleaving of commits, signals, channel reads and polls keeps: an open channel is the present one, and all that was signalled was seen by whoever blocks on it. |
| SiphonWake.NoLostWakeup | core/daemon/durable_siphon.go:250-271 | A waiter blocked without having seen an event whose ingest has signalled can be woken. |
| SiphonWake.OrderMatters | core/daemon/durable_siphon.go:257-258 | Taking the channel after the poll would lose wakeups. |
| SiphonWake.WakeChannel.Channel | core/daemon/durable_siphon.go:291-298 | Hands out the present channel, creating it if there is none, as the protocol's step does. |
| SiphonWake.WakeChannel.SignalAll | core/daemon/durable_siphon.go:300-307 | Closes the present channel and puts a new one in its place. |
| MeshWake.Waker.Mark | core/daemon/peer_health.go:431-436 | Adds the network to the wake set; its token is still to be offered. |
| MeshWake.Waker.Offer | core/daemon/peer_health.go:440-443 | Offers the token; a full channel keeps its one token. |
| MeshWake.Waker.TryReceive | core/daemon/peer_health.go:446-453 | The loop takes the token if there is one, as the protocol's step does. |
| MeshWake.Waker.TakeNetworks | core/daemon/peer_health.go:470-480 | Takes exactly the waiting networks, sorted, and empties the set. |
| MeshWake.StepKeeps | core/daemon/peer_health.go:427-480 | A waiting network always has a token, a loop about to take, or a signaller about to send. |
| MeshWake.WaitingNetworksAreTaken | core/daemon/peer_health.go:446-480 | As long as a network waits some step is possible, and each brings the take closer. |
| MeshWake.TakeIsNear | core/daemon/peer_health.go:446-480 | Without new signals a take happens within a bounded number of steps of any schedule. |
| MeshWake.SignalWaits | core/daemon/peer_health.go:427-480 | A signalled network waits, whatever else happens, until the next take, which hands it over and leaves nothing waiting. |
| MeshExclusion.MeshGuard.StartPeerSync | core/daemon/peer_health.go:273-285 | Starts a synchronization exactly if the network is not being left and the peer is not being synchronized. |
| MeshExclusion.PeerKeyInjective | core/daemon/peer_health.go:51-53 | Every peer of every network has a key of its own. |
| MeshExclusion.MeshGuard.StartNetworkLeave | core/daemon/peer_health.go:287-301 | Starts leaving only if no peer of the network is being synchronized, so the two are never active together. |
| MeshExclusion.MeshGuard.FinishPeerSync | core/daemon/peer_health.go:309-313 | Ends exactly that synchronization and keeps the exclusion. |
| MeshExclusion.MeshGuard.FinishNetworkLeave | core/daemon/peer_health.go:303-307 | Ends exactly that leave and keeps the exclusion. |
| Framing.ReadBoundedFrame | core/daemon/mesh.go:303-325 | However the reader's buffer cuts the stream, the outcome is that of the first line, trimmed of Unicode white space, and what follows it is left to read. |
| Framing.FramesRoundTrip | core/daemon/mesh.go:279-325 | Every sequence of written frames is read back in order and nothing else. |
| Framing.LineAcceptedIffShort | core/daemon/mesh.go:303-325 | A line is accepted, without the white space at its ends, if and only if it is no longer than the limit, to which the writer is held as well; a line cut off by the end of the stream is no frame. |
| WhiteSpace.SpacesAreUnicode | core/daemon/mesh.go:313-313 | At either end of a text exactly the UTF-8 encodings of Unicode's white space count as white space. |
| WhiteSpace.TrimTakesSpace | core/daemon/mesh.go:313-313 | Trimming takes white space off both ends, nothing else, and leaves none there. |
| Transcript.TranscriptRoundTrip | core/daemon/mesh.go:234-247 | Parts shorter than 2^32 bytes are read back from their length-prefixed transcript. |
| Transcript.LengthsOrdered | core/daemon/mesh.go:240-243 | The four bytes of a length stand in the order of their weight. |
| Transcript.TranscriptInjective | core/daemon/mesh.go:234-247 | So two lists of such parts never have the same transcript. |
| Transcript.LongPartsAreAmbiguous | core/daemon/mesh.go:240-243 | A part of 2^32 bytes wraps its length and has the transcript of other parts. |
| FrameReader.ReaderLoop | packages/sdk-python/src/thalweg/_transport.py:253-283 | The frames processed up to the first refused one, and why the loop stops, depend on the bytes only and not on the chunks. |
| FrameReader.SplitLine | packages/sdk-python/src/thalweg/_transport.py:264-282 | One more line: nothing is read behind a line beyond the limit, a line of ASCII white space is no frame, any other is one, and an unfinished line is refused once it is beyond the limit. |
| FrameReader.ProcessedUpToRefusal | packages/sdk-python/src/thalweg/_transport.py:283-283 | Frames are processed up to exactly the first that is refused. |
| FrameReader.WrittenFramesAreSplit | packages/sdk-python/src/thalweg/_transport.py:264-282 | Frames that the daemon's writer accepts are split into the same frames. |
| LiveSubscription.Client.DispatchEvent | packages/sdk-python/src/thalweg/_transport.py:348-361 | A dispatched event goes to its handler, to the queue of early events, or nowhere if the subscription has ended; the loss of an early one is remembered; nothing else changes. |
| LiveSubscription.DispatchDecides | packages/sdk-python/src/thalweg/client.py:177-199 | What becomes of a sent event: kept early if it is among the first, queued if the subscription is open, and the end of it if the event is malformed or as many as the capacity are waiting. |
| LiveSubscription.Client.RegisterEventHandler | packages/sdk-python/src/thalweg/_transport.py:145-160 | Early events come first and the loss of any ends the subscription; a registration after the connection has gone gets nothing and stays open. |
| LiveSubscription.RegistrationDecides | packages/sdk-python/src/thalweg/_transport.py:145-160 | A new subscription is open, with all that was sent in its queue, if and only if no more was sent than is kept and than the queue holds and every event is well formed. |
| LiveSubscription.Client.FailWaiters | packages/sdk-python/src/thalweg/_transport.py:374-384 | Every open subscription that was registered is closed with that error as all that its queue still holds, and the others are left as they are. |
| LiveSubscription.Client.Next | packages/sdk-python/src/thalweg/client.py:147-159 | An item is the next event that was sent; after an end or an error iteration has stopped for good. |
| LiveSubscription.Client.StartClose | packages/sdk-python/src/thalweg/client.py:161-168 | Closing takes no event more in, and what the queue still holds continues without a gap. |
| LiveSubscription.Client.FinishClose | packages/sdk-python/src/thalweg/client.py:170-175 | After the answer, or the loss of the connection, the end is all that is left in the queue. |
| LiveSubscription.Client.GapFreePrefix | packages/sdk-python/src/thalweg/client.py:177-211 | Over every interleaving a consumer has seen a contiguous prefix of what was sent; an open subscription holds all the rest, and a closed one ends at its next item. |
| LiveSubscription.LateRegistrationIsNotTold | packages/sdk-python/src/thalweg/client.py:127-139 | If the connection is lost between the answer and the registration, the consumer waits and is not told. |

## Left out

- JSON and RFC 3339 parsing and the normalization of payloads: envelopes are canonical values and times are ranks; `Timestamps` and `Migration` model the printed form and a partial parser.
- Observation times and local digests of recorded conflicts, and the listing of conflicts.
- Deadlines of a synchronization session, and the fields that only repeat protocol version and network ID: a frame within the limit arrives or the connection is lost. Acknowledgements are taken to be short.
- Session theorems with other activity on the two nodes while a session runs: such a run is covered by the invariants of `World` and by `Inventory.EverythingVisibleIsOffered`, not by an exact effect.
- libp2p, discovery, enrollment, addresses and persisted peer records; HMAC and SHA-256 themselves.
- Live broadcast to subscribers in the daemon: no order against arrival is promised there.
- Unix socket lifecycle, IPC routing, CLI, TUI, web console, installer, upgrade, doctor, membership files.
- Registry YAML loading, child processes, log rotation, backoff times and status bookkeeping; a command's run is a prefix of its lines and an exit.
- Outputs that name their own event ID: `Worker.ConsumeProcessorOutput` handles them, the exactly-once theorem is about derived IDs.
- deleteDurableSiphon: a siphon's run is one lifetime.
- The JavaScript SDK and the lab package.
- Siphons.Scan: iterates sequence numbers directly; that the textual arrival index is in this order is `Keys.ArrivalKeysOrdered`.
- Query.SortEvents: says nothing about the order of events with equal keys, as the original's sort promises none.
- Migration.Database.MigrateV3ToV4: asks for printable times and at most 2^64-1 events (`Fit`); a time that the program has parsed or formatted has a four-digit year and prints.
- UpgradedWorld.StartsIff: asks that what a stored resolution is about is held by some node; daemons only resolve IDs that they hold.
- Siphons.Drain: says nothing about the command that runs between poll and acknowledgement; runs of a worker with its command are in `ExactlyOnce`.
- LiveSubscription.Client.DispatchEvent: asks for a subscription of the present connection, since the daemon draws new subscription IDs at random for every connection.
- DaemonObject.Daemon.IngestReplicated: asks for a recursion that ends; that it does in every reachable world is `World.RecursionAlwaysEnds`.
- DaemonObject.Daemon.MaterializeConflictVariant: asks for the same.
