# Open Agent Graph: a verified model of its core

Open Agent Graph is a peer-to-peer knowledge graph. Each peer keeps a replicated, hash-linked event log and
projects it into a graph; it fetches content through chains of relaying peers, answers time and web queries
that several peers have to agree on, ranks and explores the graph, and limits the rate of its callers. This
project models those parts in Dafny and proves what they promise. `dafny verify dfyconfig.toml` checks all of it.

Code that computes values is modelled by functions. Code that changes state in place is modelled by classes
and loops, each proved equal to a specification function, about which the laws are then proved.

| module | part of the system |
|---|---|
| `Base`, `Text`, `Events` | results and fields, spelling of predicates, identifiers and the signed envelope |
| `Projector`, `EventLog`, `Rebuild` | what an event does to the tables, how events enter the log, redaction and replay |
| `Runs`, `ProjectionLaws`, `Recorded`, `LiveTables` | every run of one peer, laws of its tables, what every column says in terms of the events, redactions and acceptance likewise |
| `Convergence`, `Orders`, `Concurrency` | agreement between peers, what the order of arrival leaves open, interleaved writers |
| `Store` | the same database as a class updated in place, statement by statement |
| `Relay`, `Transfer` | depth-first relaying with a hop budget, receipts and the records of both ends |
| `Quorum`, `Wrapping`, `Fanout`, `Content`, `Gateway`, `NtpWire`, `ClockError` | aggregation of answers, the same in 64-bit arithmetic, what a fan-out can amount to, what stands behind an agreed page, the cache in front of it, the NTP codec, bounds on the time reported |
| `PageRank`, `Subgraph`, `RateLimiter` | authority scores, capped breadth-first search, the sweeping fixed-window limiter |

Assumptions of the model, in one place:

- Hashes are injective and symbolic: an identifier derived from a value is that value behind a constructor.
  Signatures are ideal. Canonical JSON is the identity, and a text field is either malformed or a value with a
  spelling, so that upper- and lower-case hex stay different texts of one value.
- A table is a map from its primary key. Foreign keys are enforced, a plain insert fails on a taken key, and
  "insert or ignore" keeps the first row, as the storage crate's statements and migrations say
  (`crates/oag-storage/src/repo`, `crates/oag-storage/migrations`). A transaction that ends in an error leaves
  no trace.
- Clock readings, the answers of other peers and the outcome of network calls are parameters.
- Random nonces never repeat: a transfer draws each from a counter. That no two hops share a receipt rests on this.

Results where the code does something other than its comments say:

- `fanout_and_verify` is described as requiring a majority (`crates/oag-api/src/gateway.rs:669-672`); the
  threshold is `quorum_min_agree` alone. `Fanout.SameAnswersAgree` gives the failing inputs, k equal answers and
  n - k failures with 2k <= n, and `Gateway.MajorityGuaranteedExactly` the configurations in which every agreed
  result is at least claimed by a majority: those with twice the threshold above the number of peers asked (with
  the default threshold of two, at most three peers). With a threshold of zero and no usable answer the median
  index panics (`Quorum.PanicsExactly`).
- Web answers are described as agreeing byte for byte, so that a wrong page takes a colluding majority
  (`spec/32-verified-internet-gateway.md:27` and `:63-64`, `crates/oag-api/src/gateway.rs:111-112`). Agreement is on
  the hash that each answer claims; no receiver recomputes
  it from the body, and the first answer of the group is returned whole. `Content.FirstAnswerDecides` gives the
  failing inputs, one answer with a body of its own among others that claim its hash, in every configuration in
  which agreement is possible; `Content.BodyBackedExactly` says that no configuration guarantees more than one
  sender of the body. If every claimed hash is the digest of its own body, which a receiver could check, a majority
  for the body is guaranteed exactly when the threshold is one (`Content.BodyMajorityExactly`), and a truthful
  majority decides the body (`Content.MajorityBodyDecides`); status and caching header remain one peer's word even
  then (`Content.WholeBackedExactly`).
- `require_quorum_capable` is described as a structural guarantee. It counts configured peers and ignores
  `fanout_count` and the sign of the tolerance: `Gateway.AgreementPossibleExactly` gives the exact condition under
  which the peers asked can ever agree, and `Gateway.UnaggregatedAnswersExactly` the one under which an admitted
  front end can pass on an answer that no aggregation decided. That an aggregated page is backed by more than one
  peer is the separate matter above.
- The difference of two times is taken in 64-bit arithmetic (`crates/oag-api/src/gateway.rs:775`).
  `Wrapping.MachineNearExactly` says what then counts as within the tolerance, `Wrapping.OverflowAgrees` gives
  answers half the number range apart that agree, `Wrapping.SameWithoutOverflow` says that the results on
  aggregation hold where no difference overflows, and `Wrapping.HonestMajorityDecidesWrapped` that the one on honest
  majorities holds regardless. A build with overflow checks panics where a difference overflows.
- Re-adding the time elapsed since a cached estimate was computed is described as reconstructing the correct
  estimate (`crates/oag-api/src/gateway.rs:297-301`). An answer also waits, from its own receipt until the last
  answer of the fan-out is in, and that wait is never made up for: `ClockError.QuorumError` bounds its cost,
  `ClockError.QuorumErrorIsAttained` shows the bound is reached, and `ClockError.RightAnswersDisagreeExactly` says
  exactly when answers that were right when received are refused (two of them 2 s apart at the default tolerance
  of 1 s, for instance).
- The origin timestamp of a response is described as the client's own, echoed. It goes through whole
  milliseconds: `NtpWire.EchoLoss`, `NtpWire.EchoBefore1970` and `NtpWire.EchoIsVerbatimExactly` say what is lost
  and when nothing is.
- Statuses depend on the order in which challenges arrive: `Convergence.OrderDecidesStatus` gives two runs over
  the same events that disagree. `Convergence.PeersAgreeOnStatus` says exactly when two peers agree,
  `Orders.CanComeLastExactly` which challenges of the stored events can come last, and
  `Orders.OrderDoesNotMatterExactly` exactly when all peers that store them agree.

## Model

| member | source | states |
|---|---|---|
| `Text.NormalizePredicateIdempotent` | crates/oag-core/src/predicate.rs:17-26 | a normalised predicate is a fixed point, so re-reading a stored edge never changes its identity |
| `Text.PlainIsFixed` | crates/oag-core/src/predicate.rs:17-26 | a lower-case predicate without white space is left alone, so different ones stay different |
| `Text.SpellingDoesNotMatter` | crates/oag-core/src/predicate.rs:14-26 | letter case and surrounding white space never change the normalised predicate |
| `Text.WordsAreJoined` | crates/oag-core/src/predicate.rs:13-15 | white space between words becomes one underscore, whatever the words |
| `Text.TypeSpelling` | crates/oag-core/src/node.rs:17-17 | of a node type, letter case and surrounding white space do not matter and everything else does |
| `Events.TripleTextInjective` | crates/oag-core/src/ids.rs:157-165 | the bytes hashed into an edge id determine subject, predicate and object, colons in the predicate included |
| `Events.BuildAndSign` | crates/oag-events/src/builder.rs:15-43 | a built event verifies under its own key to exactly the returned id, names that key's peer as origin and carries the given predecessor |
| `Events.VerifyAndDeriveId` | crates/oag-events/src/validate.rs:10-29 | accepted exactly when the signature is that key's over this very envelope; the id covers the whole signed envelope |
| `Events.OriginOf` | crates/oag-events/src/ingest.rs:59-67 | accepted exactly when the claimed origin is, in any spelling, the one derived from the verifying key |
| `Projector.EvidenceMetadata` | crates/oag-events/src/projector.rs:136-147 | the typed CID wins over a caller's key, every other key survives, no key appears from nowhere, non-objects become objects |
| `EventLog.FindAtIsChainLookup` | crates/oag-events/src/ingest.rs:79-79 | looking up an origin's sequence in the whole table is indexing that origin's chain |
| `EventLog.AdmittedExactly` | crates/oag-events/src/ingest.rs:46-77 | an event is admitted exactly when the key signed it, derives the claimed origin, and the predecessor is readable; its row then says what the envelope says, and otherwise the first failing check is reported |
| `EventLog.NextRowNeverConflicts` | crates/oag-events/src/commit.rs:50-74 | the slot an origin's next event takes is always free, so the insert always takes effect |
| `EventLog.AdvanceKeepsLog` | crates/oag-events/src/ingest.rs:133-151 | storing the next event of any origin keeps every origin's chain contiguous, linked and headed |
| `EventLog.CommitKeepsLog` | crates/oag-events/src/commit.rs:33-89 | a commit appends exactly its own row, with the given payload and time under the own key, and returns its id, or changes nothing; the "already existed" branch is unreachable; only the projector can refuse |
| `EventLog.IngestKeepsLog` | crates/oag-events/src/ingest.rs:46-158 | an applied event is really stored although the insert result is ignored; any other outcome leaves log, heads and tables alone |
| `EventLog.IngestOutcomes` | crates/oag-events/src/ingest.rs:79-130 | known, forked, gap, wrong predecessor and applied are each characterised exactly by the origin's chain; a fork reports the stored event of the slot and the incoming one and files just that; a refusal changes nothing |
| `EventLog.RecordForkFiles` | crates/oag-events/src/ingest.rs:85-111 | filing a fork names the stored and the incoming event, once per slot, with the incoming envelope, and marks the origin seen and forked; nothing else changes |
| `EventLog.SameIdSameHistory` | crates/oag-events/src/builder.rs:22-40 | two peers with the same id at sequence n of an origin hold identical events at 1..n, whatever forks exist |
| `Rebuild.EffectCommutesWithRedaction` | crates/oag-graph/src/redaction.rs:49-127 | redacting and then applying an event gives the tables of applying it and then redacting |
| `Rebuild.ProjectCommutesWithRedaction` | crates/oag-events/src/projector.rs:28-76 | the same for projection with its checks: redaction changes neither acceptance nor the error |
| `Rebuild.EvidenceIsStored` | crates/oag-graph/src/redaction.rs:64-69 | every evidence row is keyed by a stored event, so the tombstone's foreign key resolves |
| `Rebuild.AdvanceKeepsView` | crates/oag-graph/src/rebuild.rs:46-62 | after one more event the live tables are still the replayed log with all redactions applied at the end |
| `Rebuild.RedactEvidenceKeepsView` | crates/oag-graph/src/redaction.rs:49-73 | a redaction keeps the live tables a redacted replay and never trips the tombstone's foreign key |
| `Rebuild.RedactActorKeepsView` | crates/oag-graph/src/redaction.rs:103-127 | the same for an actor's identity URI |
| `Rebuild.ClearNeverFails` | crates/oag-storage/src/repo/rebuild.rs:20-45 | the deletion order never trips a foreign key, whatever the tables hold |
| `Rebuild.ReplayIgnoresReferences` | crates/oag-graph/src/rebuild.rs:44-55 | replaying over the surviving history references gives the same tables and only re-adds the log's own references |
| `Rebuild.RebuildIsIdentity` | crates/oag-graph/src/rebuild.rs:41-73 | a rebuild of a redacted replay succeeds, changes nothing and reports the true counts |
| `Runs.NextKeepsInv` | crates/oag-graph/src/rebuild.rs:33-73 | every kind of transaction keeps the log invariant and the replay equation and adds at most one event at the end |
| `Runs.RunKeepsInv` | crates/oag-events/src/ingest.rs:46-158 | both hold after any run, and stored events are never lost or reordered |
| `Runs.ReachableLogs` | crates/oag-events/src/commit.rs:35-84 | in every reachable state each origin's events are sequences 1..highest, hash-linked, signed by the origin, with the recorded head last |
| `Runs.RebuildNeverChangesAReachableState` | crates/oag-graph/src/rebuild.rs:32-73 | in every reachable state a rebuild succeeds and leaves the whole database as it was |
| `Runs.RedeliveryIsANoOp` | crates/oag-events/src/ingest.rs:79-84 | an applied event offered again after any further run is already known and changes nothing |
| `Runs.StoredIsInChain` | crates/oag-events/src/ingest.rs:133-151 | a stored row sits in its origin's chain at its own sequence |
| `ProjectionLaws.EffectKeepsReferences` | crates/oag-events/src/projector.rs:78-421 | every row an accepted event writes refers only to rows that are there |
| `ProjectionLaws.ChallengeRows` | crates/oag-events/src/projector.rs:205-306 | an event makes an assertion challenged exactly when it disputes, retracts or supersedes it |
| `ProjectionLaws.StatusAfter` | crates/oag-events/src/projector.rs:205-306 | an event sets the status of the assertion it challenges and no other; new assertions start active |
| `ProjectionLaws.StatusLaw` | crates/oag-events/src/projector.rs:92-127 | after any accepted log the status is the kind of the last challenge, and active exactly when no challenge row names the assertion |
| `ProjectionLaws.ReachableProjections` | crates/oag-events/src/projector.rs:28-76 | reference integrity among the projection tables and the status law hold of the live tables in every reachable state, redactions included |
| `Recorded.EveryEventIsRecorded` | crates/oag-events/src/projector.rs:92-421 | every accepted event has its rows and each column says what the event says: of a relation, which end is subject and which is target, under their own identifiers |
| `Recorded.OwnRowsAreEvents` | crates/oag-events/src/projector.rs:92-306 | the six tables keyed by event hold exactly the events of their kind |
| `Recorded.SharedRowsAreTheFirst` | crates/oag-events/src/projector.rs:78-127 | nodes, edges, actors and aliases are exactly those some event named, and say what the first one said: of a node its subject or object type |
| `Recorded.KeysWereAdded` | crates/oag-events/src/projector.rs:385-403 | a key is in the table exactly when some event added it |
| `Recorded.KeysAreRevokedOnce` | crates/oag-events/src/projector.rs:405-421 | an added key is revoked at the time of the first later event that revokes it, and not otherwise |
| `Recorded.KnownKeepsOrder` | crates/oag-events/src/projector.rs:385-403 | the known permissions survive in their order |
| `Recorded.ReferencesAreEvents` | crates/oag-events/src/projector.rs:118-132 | the history references are exactly those of the stored events, kind by kind |
| `LiveTables.ReachableRecords` | crates/oag-graph/src/redaction.rs:40-73 | in every reachable state every event's rows say what it says; a redacted evidence row has neither title nor excerpt and every other column unchanged, one not redacted has all |
| `LiveTables.ReachableOwnRows` | crates/oag-events/src/projector.rs:92-306 | and the tables keyed by event hold nothing else |
| `LiveTables.ReachableRedactions` | crates/oag-storage/src/repo/assertions.rs:193-203 | whatever is redacted is there, without title and excerpt, and was brought by a stored event |
| `LiveTables.ReachableShared` | crates/oag-events/src/projector.rs:78-90 | in every reachable state shared rows say what the first event said, except that a redacted actor has no identity URI |
| `LiveTables.ReachableActorRedactions` | crates/oag-storage/src/repo/actors.rs:71-83 | a redacted actor is there, without identity URI, and was declared by a stored event |
| `LiveTables.ReachableKeysAndReferences` | crates/oag-events/src/projector.rs:385-421 | in every reachable state keys, revocations and history references are those of the events |
| `LiveTables.EvidenceRedactionExactly` | crates/oag-graph/src/redaction.rs:49-73 | a redaction succeeds exactly for an administrator, an acceptable reason and a row present and not redacted; it clears title and excerpt, files time and reason, and changes nothing else; otherwise the first failing check is reported |
| `LiveTables.ActorRedactionExactly` | crates/oag-graph/src/redaction.rs:103-127 | the same of an actor, whose identity URI alone is cleared |
| `LiveTables.CommitExactly` | crates/oag-events/src/projector.rs:28-421 | a local commit succeeds exactly when its payload is readable, what it refers to has been stored and the key it adds has not; the error otherwise, and which actor a declaration made, are told |
| `LiveTables.IngestExactly` | crates/oag-events/src/ingest.rs:114-157 | an authentic event is applied exactly when it is the next of its origin's chain and is so accepted |
| `Convergence.ReachableHistory` | crates/oag-storage/migrations/0001_init.sql:25-30 | in every reachable state each history reference is that of a stored event and leads to a row that is there |
| `Convergence.ProjectAddsFacts` | crates/oag-events/src/projector.rs:28-421 | an accepted event adds exactly the facts it states by itself, whatever is stored already |
| `Convergence.ReplayFacts` | crates/oag-graph/src/rebuild.rs:46-55 | a log holds a fact exactly when one of its events states it |
| `Convergence.AssertionsShareAnEdge` | crates/oag-events/src/projector.rs:92-127 | two recorded assertions share an edge exactly when subject, normalised predicate and object agree |
| `Convergence.SameEventsSameFacts` | crates/oag-events/src/projector.rs:78-306 | any two accepted orders of the same events give the same facts |
| `Convergence.PeersConverge` | crates/oag-events/src/projector.rs:78-383 | two peers that reach the same stored events and redaction decisions by any runs hold the same graph apart from first- and last-writer columns, and the same active assertions |
| `Convergence.SameChains` | crates/oag-events/src/ingest.rs:114-151 | two peers that store the same events hold the same chain for every origin, in whatever order the events came |
| `Convergence.StatusComesFromAnOrigin` | crates/oag-events/src/projector.rs:205-306 | the last challenge of all is the last one of its own origin's chain; nobody challenges exactly when no origin does |
| `Convergence.PeersAgreeOnStatus` | crates/oag-events/src/projector.rs:205-306 | over any runs that store the same events: the same assertions, the same active ones, equal statuses exactly when the same kind of challenge came last, and equal in every order when the origins' own last challenges are of one kind |
| `Convergence.SecondChallengeDecides` | crates/oag-events/src/projector.rs:205-275 | from any state, a dispute and a retraction of two new origins are both accepted in either order, and the later one decides the status |
| `Convergence.OrderDecidesStatus` | crates/oag-events/src/projector.rs:205-275 | two concrete runs with the same events and different statuses |
| `Orders.RowsAreDistinct` | crates/oag-events/src/ingest.rs:79-84 | no event is stored twice |
| `Orders.PrefixOfRun` | crates/oag-events/src/ingest.rs:133-151 | every prefix of a reachable log is a reachable log |
| `Orders.AcceptedAgain` | crates/oag-events/src/projector.rs:28-421 | an accepted event is accepted again wherever there is more to refer to and its own keys are free |
| `Orders.NextRowFits` | crates/oag-events/src/validate.rs:31-50 | the next event of one peer's log, missing with another that has everything before it, continues that peer's chain too |
| `Orders.ExtendRun` | crates/oag-events/src/ingest.rs:46-158 | a peer that has stored some of another's events can store all the rest in the other's order |
| `Orders.CanComeLastExactly` | crates/oag-events/src/projector.rs:205-306 | a challenge can be the last of its assertion, in some order of the stored events, exactly when all its other challenges can be stored without it |
| `Orders.OrderDoesNotMatterExactly` | crates/oag-events/src/projector.rs:205-306 | all peers that store these events give an assertion the same status exactly when the challenges that the others can be stored without are all of that kind |
| `Concurrency.EveryInterleavingIsSerial` | crates/oag-graph/src/service.rs:75-116 | after every action of every interleaving the database is one a sequential run of the committed transactions reaches, and the invariant holds |
| `Concurrency.LocalCommitsNeverAbortEachOther` | crates/oag-graph/src/service.rs:106-116 | under the commit lock an aborted local commit lost only to writes of other kinds |
| `Concurrency.LocalCommitsAlone` | crates/oag-graph/src/service.rs:106-116 | from any state with nothing under way, local commits alone never abort, each committed one adds one event, and they take the next sequences of the own chain in commit order |
| `Concurrency.CommitsFillTheOwnChain` | crates/oag-events/src/commit.rs:27-89 | in every interleaving with whatever else, the own chain has one sequence per committed local commit, unless own events came from outside |
| `Concurrency.UnlockedCommitsAbort` | crates/oag-events/src/commit.rs:15-26 | without the lock, in any state, of two overlapping commits that would each succeed alone the second to finish aborts |
| `Store.Database.ResolveOrCreateNode` | crates/oag-events/src/projector.rs:78-90 | the node of an identifier, created only if missing; first writer keeps the type |
| `Store.Database.ProjectAssertRelation` | crates/oag-events/src/projector.rs:92-134 | the statements do to the tables what the projection function says, or give its error |
| `Store.Database.ProjectAddEvidence` | crates/oag-events/src/projector.rs:149-176 | the same for evidence |
| `Store.Database.ProjectVerifyAssertion` | crates/oag-events/src/projector.rs:178-203 | the same for observations |
| `Store.Database.ProjectDisputeAssertion` | crates/oag-events/src/projector.rs:205-239 | the same for disputes, with the status |
| `Store.Database.ProjectRetractAssertion` | crates/oag-events/src/projector.rs:241-275 | the same for retractions, with the status |
| `Store.Database.ProjectSupersedeAssertion` | crates/oag-events/src/projector.rs:277-306 | the same for supersessions, with the old assertion's status |
| `Store.Database.ProjectActorDeclare` | crates/oag-events/src/projector.rs:308-349 | the same for actors, whose id comes from the key text or the event |
| `Store.Database.ProjectNodeAlias` | crates/oag-events/src/projector.rs:363-383 | the same for aliases |
| `Store.Database.ProjectActorKeyAdd` | crates/oag-events/src/projector.rs:385-403 | the same for API keys; unknown permissions are dropped in order |
| `Store.Database.ProjectActorKeyRevoke` | crates/oag-events/src/projector.rs:405-421 | the same for revocation; an unknown or revoked key is left alone |
| `Store.Database.ProjectPayload` | crates/oag-events/src/projector.rs:28-76 | dispatch over all payloads refines the projection function |
| `Store.Database.InsertEvent` | crates/oag-storage/src/repo/events.rs:20-47 | appends unless the id or the slot is taken, and says which |
| `Store.Database.CommitLocalEvent` | crates/oag-events/src/commit.rs:27-89 | the whole transaction, rollback included, refines the commit of the specification |
| `Store.Database.IngestRemoteEvent` | crates/oag-events/src/ingest.rs:46-158 | the whole transaction, every outcome and rollback, refines the ingest of the specification |
| `Store.Database.RedactEvidenceText` | crates/oag-graph/src/redaction.rs:49-73 | refines the evidence redaction of the specification |
| `Store.Database.RedactActorUri` | crates/oag-graph/src/redaction.rs:103-127 | refines the actor redaction of the specification |
| `Store.Database.ReplayLog` | crates/oag-graph/src/rebuild.rs:46-55 | the loop projects every stored event in insertion order, stopping at the first failure |
| `Store.Database.ReapplyRedactions` | crates/oag-graph/src/rebuild.rs:57-60 | tombstones reapplied one by one in any order blank exactly the redacted evidence |
| `Store.Database.ReapplyActorRedactions` | crates/oag-graph/src/rebuild.rs:62-65 | the same for actors |
| `Store.Database.RebuildTables` | crates/oag-graph/src/rebuild.rs:41-73 | wipe, replay and reapply refine the rebuild of the specification, failure restored |
| `Relay.SearchIsSound` | crates/oag-api/src/transfer.rs:518-587 | a successful search found a simple chain of relay links within the budget, off the path, through serving peers, to the only holder on it, with that holder's content |
| `Relay.SearchIsComplete` | crates/oag-api/src/transfer.rs:518-551 | every walk within the budget and off the path makes the search succeed |
| `Relay.FetchSucceedsExactly` | crates/oag-api/src/transfer.rs:518-587 | for every topology, cycles included, a fetch succeeds exactly when a relay walk of at most that many hops reaches a holder |
| `Relay.FirstRelayIsFirst` | crates/oag-api/src/transfer.rs:527-550 | the relay peer that answers is the first in the configured order, off the path, that can |
| `Relay.FetchErrors` | crates/oag-api/src/transfer.rs:569-586 | which error a failed fetch gives |
| `Transfer.AcceptedReceipts` | crates/oag-api/src/transfer.rs:228-301 | the accepted receipts are exactly those some key holder built for this cid and nonce within the clock tolerance |
| `Transfer.ReceiptOutcomes` | crates/oag-api/src/transfer.rs:262-301 | a genuine receipt for another exchange, a stale one, and one its signature does not cover are each refused for that |
| `Transfer.OneMoreHop` | crates/oag-api/src/transfer.rs:589-616 | putting a hop in front keeps the records of the deeper hops and no receipt is used twice |
| `Transfer.Network.RecordTransfer` | crates/oag-api/src/transfer.rs:311-395 | one record with the counterparty by role |
| `Transfer.Network.AcceptResponse` | crates/oag-api/src/transfer.rs:475-509 | any response whatever is accepted exactly when the asked peer built the receipt for this exchange over this content within the clock tolerance; only then is the client's record written |
| `Transfer.Network.Serve` | crates/oag-api/src/transfer.rs:560-629 | answers as the search says; writes the server record of this hop and two records per deeper hop, or nothing on failure |
| `Transfer.Network.RelayFetch` | crates/oag-api/src/transfer.rs:518-551 | the loop over relay peers returns the first success and failed attempts leave no record |
| `Transfer.Network.FetchAndVerify` | crates/oag-api/src/transfer.rs:425-510 | a successful fetch leaves exactly one server and one client record per hop, paired on receipt and content hash, with `relayed_via` leading hop by hop to the holder; a failed one leaves none |
| `Quorum.AggregateNtp` | crates/oag-api/src/gateway.rs:764-786 | the loop computes the median of the first largest tolerance cluster |
| `Quorum.BestIsLargest` | crates/oag-api/src/gateway.rs:773-779 | the chosen cluster is the cluster of an answer and none is larger |
| `Quorum.BestIsFirst` | crates/oag-api/src/gateway.rs:773-779 | of several largest clusters the one around the earliest answer is chosen |
| `Quorum.NoQuorumExactly` | crates/oag-api/src/gateway.rs:780-782 | for a positive threshold there is no quorum exactly when no answer has that many answers within the tolerance (exact differences; see `Wrapping`) |
| `Quorum.PanicsExactly` | crates/oag-api/src/gateway.rs:780-784 | indexing the median panics exactly when no agreement is asked for and there is no answer or the tolerance is negative |
| `Quorum.AgreedTimeIsSupported` | crates/oag-api/src/gateway.rs:764-786 | an agreed time is one of the answers and has the threshold's number of answers within twice the tolerance (exact differences; see `Wrapping`) |
| `Quorum.MedianSplits` | crates/oag-api/src/gateway.rs:783-784 | half of a list, rounded up, lies on either side of its median |
| `Quorum.HonestMajorityDecides` | crates/oag-api/src/gateway.rs:764-786 | with 2f+1 honest answers pairwise within tolerance and at most f arbitrary ones, any threshold from 1 to 2f+1 is met and the result lies between two honest answers |
| `Wrapping.MachineNearExactly` | crates/oag-api/src/gateway.rs:775-775 | in wrapping 64-bit arithmetic two answers count as near exactly when they are, or are half the number range apart, or almost all of it |
| `Wrapping.SameWithoutOverflow` | crates/oag-api/src/gateway.rs:764-786 | where no difference overflows, aggregation is the exact one and all its laws hold |
| `Wrapping.OverflowAgrees` | crates/oag-api/src/gateway.rs:775-784 | answers half the number range apart agree at every tolerance |
| `Wrapping.LargePartDecides` | crates/oag-api/src/gateway.rs:783-784 | any part of 2f+1 answers, however chosen, has its median between two honest ones when at most f answers are not |
| `Wrapping.HonestMajorityDecidesWrapped` | crates/oag-api/src/gateway.rs:764-786 | the honest-majority theorem holds in wrapping arithmetic, whatever numbers the others send |
| `Quorum.AggregateHttp` | crates/oag-api/src/gateway.rs:787-801 | the grouping loop returns the first answer of a largest content-hash group that is large enough |
| `Quorum.HttpAgreement` | crates/oag-api/src/gateway.rs:787-801 | there is a result exactly when some hash is frequent enough; it shares its hash with that many answers and no hash has more |
| `Quorum.AggregateQuorum` | crates/oag-api/src/gateway.rs:747-803 | failed answers and answers of the other kind are dropped, then the service decides the rule |
| `Gateway.CacheKeyInjective` | crates/oag-api/src/gateway.rs:269-274 | two services share a cache slot only if they are the same service |
| `Gateway.AgeingAdds` | crates/oag-api/src/gateway.rs:302-309 | ageing a cached time in two steps is ageing it once; content never ages |
| `Gateway.Resolver.Get` | crates/oag-api/src/gateway.rs:276-329 | the answer is exactly what the latest success of this very service says now: a time moved on by its age while that is below the configured lifetime, a page unchanged and exactly while its header permits it and it is younger than its max-age and the ceiling, or than the default; nothing otherwise |
| `Gateway.Resolver.Put` | crates/oag-api/src/gateway.rs:287-294 | only quorum successes are written, never with a zero lifetime, and the cache keeps holding exactly the latest success of each service |
| `Gateway.Resolver.ResolveQuery` | crates/oag-api/src/gateway.rs:445-481 | the cache first, then the quorum of the peers asked if there are peers, else the own upstream, else the relays, with the error of each; only the quorum branch changes the cache, and it records exactly one success |
| `Gateway.Resolver.ResolveForFrontEnd` | crates/oag-api/src/gateway.rs:485-504 | with admission and a positive threshold every answer, cached or fresh, is a recorded outcome of aggregation for its service over the peers asked, every failure is a missing quorum, and no median is taken of nothing; with a smaller fan-out than threshold nothing is ever recorded, cached or answered |
| `Gateway.TooFewNeverSucceed` | crates/oag-api/src/gateway.rs:673-700 | in no run does a node that asks fewer peers than have to agree record a success |
| `Gateway.UnaggregatedAnswersExactly` | crates/oag-api/src/gateway.rs:495-504 | an admitted front end can pass on an answer that no aggregation decided exactly when the threshold is zero and it has no peers |
| `Fanout.AgreementNeedsSupport` | crates/oag-api/src/gateway.rs:780-799 | every agreed result is claimed, by its time or by its content hash, by at least the threshold's number of asked peers, and at least one |
| `Fanout.TooFewAsked` | crates/oag-api/src/gateway.rs:678-683 | asking fewer peers than the threshold never reaches a quorum, whatever they answer |
| `Fanout.SameAnswersAgree` | crates/oag-api/src/gateway.rs:747-803 | any answer that at least the threshold's number of peers give is agreed on, however many others fail, and is claimed by exactly those |
| `Fanout.CanAgreeExactly` | crates/oag-api/src/gateway.rs:747-803 | n peers can agree exactly when they are as many as the threshold, and at least one, and a time tolerance is not negative |
| `Fanout.MajorityExactly` | crates/oag-api/src/gateway.rs:669-700 | every agreed result of n peers is claimed by more than half of them exactly when twice the threshold exceeds n, or nothing is ever agreed |
| `Gateway.AgreementPossibleExactly` | crates/oag-api/src/gateway.rs:495-504 | for every configuration, when the peers asked can ever agree; for an admitted one with peers, exactly when the fan-out is unlimited or no smaller than the threshold and the tolerance is not negative |
| `Gateway.AdmissionExactly` | crates/oag-api/src/gateway.rs:495-504 | admission refuses no front end that could ever agree, and with an unlimited fan-out admits exactly those that could |
| `Gateway.MajorityGuaranteedExactly` | crates/oag-api/src/gateway.rs:669-700 | the configuration alone decides whether every agreed result is claimed by a majority of the asked peers |
| `Content.FirstAnswerDecides` | crates/oag-api/src/gateway.rs:787-800 | a page that one peer alone sent is agreed on, with all the peers that claim its hash counted, as soon as those are enough |
| `Content.BodyBackedExactly` | crates/oag-api/src/gateway.rs:736-800 | every agreed page has a body that at least k peers sent exactly when k is at most one or nothing is ever agreed |
| `Content.GroupIsBodies` | crates/oag-api/src/gateway.rs:787-793 | with true hashes, those who claim a hash are exactly those who sent the body |
| `Content.BodyMajorityExactly` | crates/oag-api/src/gateway.rs:787-800 | with true hashes, every agreed body was sent by more than half of n peers exactly when twice the threshold exceeds n |
| `Content.WholeBackedExactly` | crates/oag-api/src/gateway.rs:794-800 | even with true hashes, status and caching header are guaranteed by one peer only |
| `Content.MajorityHashDecides` | crates/oag-api/src/gateway.rs:787-800 | a hash that more than half of the answers claim, and enough of them, is the one agreed on, whatever the others say |
| `Content.MajorityBodyDecides` | crates/oag-api/src/gateway.rs:787-800 | with true hashes, a body that more than half of the answers carry, and enough of them, is the one returned |
| `NtpWire.FractionRoundTrip` | crates/oag-api/src/ntp_wire.rs:26-39 | a millisecond survives the fraction field exactly when 125 divides it, and loses one otherwise |
| `NtpWire.RoundTrip` | crates/oag-api/src/ntp_wire.rs:26-39 | for every time before the end of the era, decode after encode gives the time or one less, and the time itself exactly at multiples of 125 |
| `NtpWire.AccurateExactly` | crates/oag-api/src/ntp_wire.rs:26-39 | the codec is accurate to a millisecond exactly from one before the Unix epoch to the end of the era |
| `NtpWire.EchoLoss` | crates/oag-api/src/ntp_wire.rs:73-82 | an echoed timestamp of 1970 or later keeps its seconds and loses at most 4294968 units of fraction |
| `NtpWire.EchoBefore1970` | crates/oag-api/src/ntp_wire.rs:26-39 | an earlier timestamp is echoed as the Unix epoch |
| `NtpWire.EchoIsVerbatimExactly` | crates/oag-api/src/ntp_wire.rs:84-104 | the echo is verbatim exactly for whole eighths of a second of 1970 or later |
| `NtpWire.Be32RoundTrip` | crates/oag-api/src/ntp_wire.rs:41-51 | a 32-bit number written big-endian reads back |
| `NtpWire.FromBe32RoundTrip` | crates/oag-api/src/ntp_wire.rs:47-51 | four bytes read big-endian write back |
| `NtpWire.SplicedField` | crates/oag-api/src/ntp_wire.rs:41-51 | a written timestamp reads back and disturbs no other byte and no other field |
| `NtpWire.WriteTimestamp` | crates/oag-api/src/ntp_wire.rs:41-45 | in place, the buffer becomes the old one with those eight bytes replaced |
| `NtpWire.BuildClientRequest` | crates/oag-api/src/ntp_wire.rs:57-64 | mode 3, the transmit field holds the time, everything between is zero |
| `NtpWire.RequestParses` | crates/oag-api/src/ntp_wire.rs:73-82 | a built request parses to its time, up to the codec's rounding |
| `NtpWire.BuildServerResponse` | crates/oag-api/src/ntp_wire.rs:91-104 | the fixed header, the origin field, and the verified time in the other three fields |
| `NtpWire.Answer` | crates/oag-api/src/gateway.rs:876-886 | a packet is answered exactly when it is long enough and in client mode, with its own transmit timestamp echoed up to the stated loss |
| `ClockError.UpstreamError` | crates/oag-api/src/ntp_wire.rs:155-160 | the estimate is within half the measured delay, rounded up, of true time, whatever the client's own clock says |
| `ClockError.UpstreamErrorIsAttained` | crates/oag-api/src/ntp_wire.rs:158-160 | for every delay some exchange has exactly that error |
| `ClockError.UpstreamErrorThroughWire` | crates/oag-api/src/ntp_wire.rs:127-161 | the packet's rounding costs at most one more millisecond |
| `ClockError.ChainError` | crates/oag-api/src/gateway.rs:694-743 | along any chain of hops, caches and waits the error grows by at most half of each round trip, rounded up, and by each wait |
| `ClockError.OneMoreLink` | crates/oag-api/src/gateway.rs:694-743 | what each hop, cache and wait does to the signed error, exactly |
| `ClockError.EndToEndError` | crates/oag-api/src/gateway.rs:719-743 | the two bounds together, from the upstream server to the last peer |
| `ClockError.QuorumError` | crates/oag-api/src/gateway.rs:694-699 | honest answers right to e at their own receipts, none more than w before the decision, with 2e + w within the tolerance: there is agreement, at most e ahead of and e + w behind true time |
| `ClockError.ServedQuorumError` | crates/oag-api/src/gateway.rs:287-309 | the same time served later from the cache and through further peers: e + w and the budget of the chain |
| `ClockError.QuorumErrorIsAttained` | crates/oag-api/src/gateway.rs:694-697 | for every e and w an honest answer is e + w behind when it is decided on |
| `ClockError.RightAnswersDisagreeExactly` | crates/oag-api/src/gateway.rs:694-699 | any number of answers exactly right when received are no quorum exactly when around no receipt enough of them were received within the tolerance |
| `ClockError.TwoRightAnswersDisagreeExactly` | crates/oag-api/src/gateway.rs:694-699 | two such answers, both needed: exactly when received further apart than the tolerance |
| `PageRank.NodesOfCovers` | crates/oag-graph/src/authority.rs:41-49 | the node list holds every endpoint once |
| `PageRank.NodesAreEndpoints` | crates/oag-graph/src/authority.rs:41-45 | only nodes that touch an edge are scored |
| `PageRank.StepKeepsTotal` | crates/oag-graph/src/authority.rs:62-82 | an iteration keeps the total score at one, with dangling nodes and repeated edges |
| `PageRank.StepBound` | crates/oag-graph/src/authority.rs:68-69 | after an iteration every score is at least (1 - d) / n |
| `PageRank.IterateIsBalanced` | crates/oag-graph/src/authority.rs:56-89 | both hold through every iteration |
| `PageRank.StepContracts` | crates/oag-graph/src/authority.rs:62-82 | an iteration shrinks the L1 distance of any two score maps by at least the damping factor |
| `PageRank.StepFollows` | crates/oag-graph/src/authority.rs:62-82 | an iteration solves the PageRank equation over edge positions: undamped part, damped equal parts of the scores of the sources that point at the node, even part of the stranded score |
| `PageRank.PointedAtRanksHigher` | crates/oag-graph/src/authority.rs:71-82 | a node that no edge points at has the least next score, and less than any node that a source of positive score points at |
| `PageRank.IterateRanksByLinks` | crates/oag-graph/src/authority.rs:56-89 | after any number of iterations every node that is pointed at outranks every one that is not |
| `PageRank.IteratesApproach` | crates/oag-graph/src/authority.rs:56-89 | successive iterates approach each other by at least the damping factor |
| `PageRank.MovementBoundsError` | crates/oag-graph/src/authority.rs:84-88 | the last movement bounds the distance to any fixed point, which is what stopping on it means |
| `PageRank.FixedPointIsUnique` | crates/oag-graph/src/authority.rs:56-89 | an iteration has at most one fixed point |
| `PageRank.Advance` | crates/oag-graph/src/authority.rs:62-82 | dealing with the sources in any order gives the node-by-node reference step |
| `PageRank.LaterIterates` | crates/oag-graph/src/authority.rs:56-89 | however long the iteration went on, it would move by at most 1 / (1 - d) times the next movement |
| `PageRank.IteratesConverge` | crates/oag-graph/src/authority.rs:56-89 | the iterates form a Cauchy sequence at rate d^k |
| `PageRank.SettledAtCap` | crates/oag-graph/src/authority.rs:18-20 | at the cap, whatever the graph, every later iterate is within 0.004 in L1 distance |
| `PageRank.SettledOnStopping` | crates/oag-graph/src/authority.rs:84-88 | after a movement below the threshold, every later iterate is within six times the threshold |
| `PageRank.PowerIterate` | crates/oag-graph/src/authority.rs:51-89 | the loop stops at the first iterate that moved less than the threshold, or at the cap |
| `PageRank.ComputePageRank` | crates/oag-graph/src/authority.rs:40-92 | the result is the last of a run of the equation from equal scores, ranks by links, is balanced, stops where it should, and is settled; no edges give no scores |
| `Subgraph.ReachableGraphsAreClosed` | crates/oag-storage/migrations/0001_init.sql:62-68 | in every reachable state both ends of every edge are nodes |
| `Subgraph.BallIsReach` | crates/oag-graph/src/subgraph.rs:50-77 | a ball is exactly what walks of so many steps reach |
| `Subgraph.RimIsDistance` | crates/oag-graph/src/subgraph.rs:66-70 | the nodes a hop adds are exactly those whose shortest walk takes that many steps |
| `Subgraph.ListTouching` | crates/oag-storage/src/repo/edges.rs:112-124 | the edges with the node at either end, in any order |
| `Subgraph.FollowEdge` | crates/oag-graph/src/subgraph.rs:61-74 | following an edge below the limit records it with both its ends, keeps every distance right and stays within the limit |
| `Subgraph.FollowNode` | crates/oag-graph/src/subgraph.rs:56-75 | following a node's edges, or stopping at the limit, keeps the search invariant |
| `Subgraph.FollowFrontier` | crates/oag-graph/src/subgraph.rs:54-77 | a hop extends the search to the next ball unless the limit is reached |
| `Subgraph.GetSubgraph` | crates/oag-graph/src/subgraph.rs:29-90 | true shortest distances even when capped, both ends of every returned edge, every nearer node, exactly max(1, min(limit, ball size)) nodes, and below the limit the whole ball with every edge at its inner nodes; a missing root is an error |
| `RateLimiter.Limiter.Check` | crates/oag-api/src/rate_limit.rs:60-74 | the in-place check follows the state machine of the specification over the whole request history |
| `RateLimiter.SweepingChangesNoAnswer` | crates/oag-api/src/rate_limit.rs:64-66 | for nondecreasing clock readings a sweeping limiter answers every request as one that never sweeps |
| `RateLimiter.OnlyOwnRequestsCount` | crates/oag-api/src/rate_limit.rs:60-74 | the answer to a request depends on the earlier requests of its own key alone, swept or not |
| `RateLimiter.RefusedAfterLimit` | crates/oag-api/src/rate_limit.rs:68-73 | only a key with at least the limit's number of requests in the last window is refused |
| `RateLimiter.GrantBound` | crates/oag-api/src/rate_limit.rs:68-73 | in any interval of one window length a key is granted at most 2 max - 1 requests |
| `RateLimiter.GrantBoundIsAttained` | crates/oag-api/src/rate_limit.rs:68-73 | for every limit and window some requests reach that bound |
| `RateLimiter.DefaultGrantBound` | crates/oag-api/src/rate_limit.rs:12-42 | with the built-in limits a key is granted at most 239 requests in any minute |
| `RateLimiter.TrackedKeys` | crates/oag-api/src/rate_limit.rs:14-24 | at most one key more is tracked than the threshold or the keys active in the last window, whichever is more |

## Left out

- Real Ed25519, BLAKE3, canonical JSON, hex and base32: symbolic here, as stated above.
- The `received_at`, schema-version and event-type columns, which nothing modelled reads; search suppression and row migration.
- Text.NormalizePredicateIdempotent: letter case is that of ASCII letters, because lower-casing of other scripts is a Unicode table with multi-character and context-dependent cases; white space is all of Unicode's.
- Text.PlainIsFixed: the same restriction on letter case.
- Text.SpellingDoesNotMatter: the same restriction on letter case.
- Text.WordsAreJoined: the same restriction on letter case.
- Text.TypeSpelling: the same restriction on letter case.
- Quorum.NoQuorumExactly: differences are exact; `Wrapping` says when 64-bit ones give the same and when not.
- Quorum.AgreedTimeIsSupported: the same.
- Wrap-around of sequence numbers at 64 bits and of the limiter's 32-bit counter: both are unbounded here. A wrapped counter would need more than four billion requests of one key within a window.
- A malformed key hash and one of the wrong length are one error here.
- Waiting for SQLite's write lock and WAL internals: `Concurrency` models snapshots that abort on a stale read.
- 32-bit floating-point rounding in PageRank: scores are real numbers.
- Rate limiting, clock skew, unreachable peers and request signatures inside a relayed fetch: `Transfer.Network` is a reliable network of peers that follow the protocol, with one clock.
- The two writes of a transfer record (assertion and evidence) are one step, and peers' graphs are one list of records with owners.
- The text of Cache-Control headers: a header is modelled by whether it forbids storing and by its first readable max-age.
- Gateway.Resolver.ResolveQuery: does not model how peers, upstream servers and relays come by their answers; they are parameters. Fan-out restarts with a fresh hop budget and an empty path, so no termination is claimed across it.
- The gateway's own relaying (`relay_gateway_query`): the same search as a relayed fetch, with the peers that can answer as holders and those whose quorum fails as refusing ones; `Relay` states its laws once.
- Concurrent queries on one gateway node: each cache read and write is atomic and keeps the invariant, but a query is modelled as one call.
- Gateway request and response signatures, redirects and address checks of upstream HTTP.
- Sub-millisecond time in the clock bounds: `ClockError` works in whole milliseconds with clocks of equal rate.
- The existence of a limit of the PageRank iterates: a Cauchy bound is stated instead of a fixed point.
- Which of several equally large content-hash groups is returned, and which nodes a capped search keeps: both depend on iteration order and are left open.
- The assertions listed with a subgraph, storing authority scores, and the loading of the edge list.
- REST and MCP handlers, HTML pages, command line, configuration, logging, crawling, embeddings, tensor layer, trust, gravity, clustering, replication transport and IPFS providers.
