# Durable context engine: verified models

This project models the stateful core of a context-management plugin for conversational agents and
proves what its protocols and stores keep over every run. Each part has a model on values, where a
transaction or call is one step; where the program updates tables or fields in place, a class whose
methods run the same statements is proved to take the state exactly where the model says. The
theorems about runs are then theorems about the model.

| files | subject |
|---|---|
| `BackfillModel`, `BackfillTransactions`, `BackfillProtocol`, `BackfillEffects`, `BackfillCalls`, `BackfillDriver` | the lease, the in-flight table and the dispatch callback of the embedding backfill, under any interleaving of workers |
| `DagModel`, `DagStore`, `DagPublication`, `DagConflicts`, `DagWalk`, `DagSearch` | optimistic publication of summary nodes and its conflicts, the two recursive walks, and the early-stopping search |
| `AssertionModel`, `AssertionChecks`, `AssertionStore`, `AssertionHistory`, `AssertionRemoval`, `AssertionQuery`, `AssertionReads`, `AssertionRestore`, `AssertionExamples`, `AssertionState` | the content-addressed assertion store, its bitemporal reads, and the lifecycle and conflict reader |
| `TailAlignment`, `HiddenLeaf`, `HiddenLeafOutcome`, `SanitationDigest`, `SanitationClaim` | compaction: reverse alignment, gap-free paging, and the one-shot sanitation claim |
| `AuxModel`, `AuxSession`, `AuxOwnership`, `AuxEffects` | ownership of auxiliary sessions by generations of callers |
| `RetrievalModel`, `Retrieval`, `RetrievalBudget`, `RetrievalEffects`, `RetrievalViews` | the bounded retrieval controller, its registry, and the views it leaves for later retrievals |
| `Chunking`, `FallbackTokens`, `ChunkPolicy`, `ChunkEmission` | sentence-aligned windows, content policies, chunk ids and grouping |
| `Ordering`, `Text`, `Wrappers` | shared helpers |

`dafny verify dfyconfig.toml` checks everything.

## Where the code falls short of its promise

Each of these is proved, with the exact condition where there is one.

- Some lease cells are never stolen, however old: JSON that is not an object and an infinite generation raise errors that the handler does not catch (command.py:3167-3171), a heartbeat integer too large for a float and JSON nested beyond the recursion limit raise in the reading of the heartbeat, and an infinite heartbeat never expires (command.py:3036-3050). Among the cells of the model the lease is refused at every time if and only if the cell is one of these.
- Two publications that captured a common state can both commit, since parents are looked up only among the live nodes of the session of the source rows: when the first node is moved to another session (dag.py:609-624) or deleted (dag.py:501-539) in between. The second commits exactly when those live parents are again the captured ones and rows and binding stand. A frontier raised by the first commit, a rebinding of a bound conversation, or the runtime check of one engine whose session has changed (engine.py:2784-2793) refuses it.
- Removing an extraction version deletes every relation with an endpoint among its rows, also relations that another version's active receipt recorded (db_bootstrap.py:2198-2223). Publishing that receipt's batch again reports it as current and does not restore them. Nothing is lost exactly when no relation of another version points at a removed row.
- In recency order the search may stop although an unread row of the same time ranks better (dag.py:85-112), and a query of several terms stops after its first page although an unread row of the same score is more direct (dag.py:846-847). Each stop is exact if and only if there is no such row.
- Invalidation covers every extraction version of a source, republication only its own (assertion_store.py:1038-1066, 637-661). A relation between two versions of one source is lost that way; relation reads come back if and only if no visible relation has an endpoint from another version of that source.
- Reactivation moves a receipt's time, so a relation read at `t` that includes invalidated rows loses those of a reactivated receipt (assertion_store.py:637-661). A later publication leaves such a read alone if and only if it does not take the reactivation branch or the read shows no relation of the receipt it reactivates.
- A handoff checks for a retired generation before it takes the lock (aux_session.py:304-308). When another thread ends the session in between, the commit makes the retired generation live again. Between two sessions, which is all that the caller passes (engine.py:3707), the locked part keeps ownership sound if and only if the generation has not been retired meanwhile.
- A start recounts the evidence of a cached view with the assertion ids that the search did not count (adaptive_retrieval.py:711-750). A view that a finish persisted can therefore exceed the context limits and be passed over, or exceed the limit of one stub and make every later start raise; the exact conditions are on the recounted sizes.
- Windows sized by the fallback token estimator can exceed the target of 600 without being a lone sentence, because the divisor is chosen by the share of non-ASCII characters of the text that is counted (tokens.py:92-111). They count at most 999, which is attained, and stay within 600 where all sentences take the same divisor, as in ASCII text.

## Model

| member | source | states |
|---|---|---|
| BackfillProtocol.RunKeepsInv | command.py:3189-3564 | Over any interleaving of any number of workers, crashes and lease steals included, every committed step keeps the table, the batches and the send accounts consistent. |
| BackfillProtocol.SendsBounded | command.py:2874-2925 | In every run a row is sent to the provider at most once, plus once per rejection or skip, plus once per operator authorisation. |
| BackfillProtocol.UnansweredNeverRediscovered | command.py:2874-2925 | A dispatched row that is neither published, rejected nor skipped stays `dispatched` or `uncertain` for ever, and ordinary discovery never selects it. |
| BackfillProtocol.AuthorisationNeverLost | command.py:3319-3344 | On every path an operator-authorised row leaves the in-flight table only by publication. |
| BackfillProtocol.FencedWorkerIsErasable | command.py:3200-3213 | Removing every later step of a worker that lost its lease from any run leaves the same final database: fencing rests on the checks inside each transaction, not on time. |
| BackfillProtocol.FencedStepChangesNothing | command.py:3381-3394 | A step of a worker that is not the holder changes no table. |
| BackfillProtocol.HolderReservationSucceeds | command.py:3305-3344 | A reservation succeeds exactly when its worker holds the lease: the holder never finds its own selection changed. |
| BackfillProtocol.GrantedOnlyWhenExpired | command.py:3153-3183 | A lease is granted exactly on an empty cell, or on one whose heartbeat is no longer live and which does not block: a JSON object whose heartbeat and generation convert, or text that is not JSON; the generation grows and no row is touched. |
| BackfillProtocol.BlockedAtAllTimesIff | command.py:3036-3050 | The lease is refused at every time exactly when the cell blocks: JSON that is no object or is nested too deeply to read, an infinite heartbeat or generation, or a heartbeat integer too large for a float. |
| BackfillProtocol.BlockingCellStaysForever | command.py:3153-3183 | In every run a blocking cell that no worker holds stays, and with it every row: no acquisition and no step of any worker changes the database again. |
| BackfillProtocol.RecoveryTouchesOnlyPredecessors | command.py:3216-3289 | Recovery deletes only predecessors' claims, turns only their dispatches uncertain, and touches neither uncertain rows, other identities nor the holder's own rows. |
| BackfillTransactions.BackfillDatabase.AcquireLease | command.py:3145-3186 | The acquire transaction: refused, raised or granted with a new cell and a lease object, in exactly the cases of the model. |
| BackfillTransactions.BackfillDatabase.PrepareInflight | command.py:3189-3289 | Deleting and updating the staged rows one by one has the effect the protocol reasons about, or the lease was lost and nothing changed. |
| BackfillTransactions.BackfillDatabase.MarkInflight | command.py:3292-3365 | Reserves all rows of a batch or, on the first row that changed, none of them. |
| BackfillTransactions.BackfillDatabase.MarkDispatched | command.py:3368-3421 | Every row goes from its own reservation to the new request, or the count is 0 and nothing changed. |
| BackfillTransactions.BackfillDatabase.ResolveRow | command.py:3424-3500 | One row's skip, or the return of an unsent claim, changes that row only and an authorised row returns to uncertain. |
| BackfillTransactions.BackfillDatabase.ResolveRequest | command.py:3500-3564 | A rejected request loses its ordinary rows and keeps its authorised ones as uncertain; a request in doubt becomes uncertain as a whole. |
| BackfillTransactions.BackfillDatabase.PublishUnderLease | vector_store.py:858-960 | A row is published and leaves the table only for the current holder and its own request; a superseded identity quarantines the request. |
| BackfillTransactions.BackfillLease.RenewHeartbeat | command.py:3109-3131 | Renewal proves ownership only when the heartbeat interval has passed; before that it answers true unchecked. |
| BackfillTransactions.BackfillLease.ReleaseLease | command.py:3133-3142 | Release clears the cell only for its holder. |
| BackfillDriver.BackfillBatch.BeforeDispatch | command.py:4015-4044 | The dispatch callback sends exactly the named rows under the new request, or refuses and leaves database and batch as they were. |
| BackfillCalls.CallIsStep | command.py:4015-4044 | Each call of the driver on its batch, a dispatch or the return of an unsent row, is an enabled step of the protocol with the call's effect, after which the worker again reflects the batch. |
| BackfillCalls.CallsAreRun | command.py:4015-4231 | Any sequence of such calls, with any steps of other workers between them, is a run of the protocol that ends where the calls lead. |
| BackfillCalls.ReserveStartsBatch | command.py:3292-3365 | A reservation that succeeds starts a batch that the protocol's worker reflects. |
| BackfillDriver.BackfillBatch.ReleaseUnsent | command.py:4215-4231 | After a failure exactly the claims on rows that were never sent are returned, which is the effect of one return call per row. |
| BackfillEffects.GrantProtects | command.py:3145-3186 | A granted lease makes its owner the holder, and until the TTL has passed every other acquisition is refused. |
| BackfillEffects.GrantExpires | command.py:3153-3183 | After the TTL, without a renewal, any worker gets the lease under a higher generation, and the old lease is void even if the owner is the same. |
| BackfillEffects.RenewProtects | command.py:3109-3131 | A renewal by the holder starts the TTL anew; anyone else's changes nothing. |
| BackfillEffects.ReleaseFrees | command.py:3133-3142 | A release by the holder lets anyone acquire at once, whatever the clock says; anyone else's changes nothing. |
| BackfillEffects.FirstGrant | command.py:3153-3183 | The first lease has generation 1 and is granted at once on an empty cell, and on text that is not JSON once one TTL has passed since time 0. |
| BackfillEffects.PredecessorsIff | command.py:3216-3240 | Whatever another lease left in the state under the identity, an earlier one of the same owner included, is a predecessor's. |
| BackfillEffects.StagedIff | command.py:3216-3240 | One recovery stages all of them, or 256 if there are more. |
| BackfillEffects.RecoveryResolvesStaged | command.py:3216-3289 | Recovery resolves all it has staged: each claim is gone, each dispatch stays in the table as uncertain with its request, open to an operator retry unless published. |
| BackfillEffects.RecoveryLeavesNoPredecessor | command.py:3216-3289 | With fewer than 256 rows left behind in each state one recovery leaves none of them claimed or dispatched. |
| BackfillEffects.HolderReserves | command.py:3305-3344 | The holder's reservation of discovered rows marks all of them as its own and makes them its batch. |
| BackfillEffects.DispatchSucceedsIff | command.py:3368-3421 | A dispatch takes effect exactly when it names rows and its worker, still the holder, has reserved all of them. |
| BackfillEffects.DispatchTakesEffect | command.py:3381-3421 | Exactly the named rows are then dispatched under the new request, and each counts one more send. |
| BackfillEffects.PublishRecords | vector_store.py:858-960 | An accepted row of the holder's request is published and leaves the table; nothing else changes. |
| BackfillEffects.SupersededPublishQuarantines | vector_store.py:858-960 | Under a superseded profile nothing is published, the whole request becomes uncertain and the lease is given up. |
| BackfillEffects.DoubtMakesUncertain | command.py:3500-3564 | In doubt every row of the request becomes uncertain and keeps its request, and no other row changes. |
| BackfillEffects.RejectionReleases | command.py:3500-3564 | A rejection releases the request's ordinary rows and returns its authorised ones to uncertain without a request. |
| BackfillEffects.SkipReleases | command.py:3424-3500 | A row the provider skipped, or that was never sent, goes if it is ordinary and is uncertain again if authorised. |
| BackfillEffects.FreshWorkerDiscovers | command.py:2874-2925 | A worker that is granted the lease can select any pending row, or with the operator's word any uncertain one. |
| BackfillEffects.RowLifecycle | command.py:4015-4231 | A discovered row of the holder gets published in three steps, each of which takes effect; rejected instead it is pending again, or retryable if authorised, and in doubt it is retryable. |
| DagPublication.CommitSeesCapturedState | dag.py:337-395 | At a commit the captured rows, the live parents of every captured source and the binding equal those captured before model work; only captured rows of the node's session are cited. |
| DagPublication.CaptureReads | dag.py:288-335 | A capture succeeds exactly when every source is stored, and holds each of them as stored and the binding as it is. |
| DagPublication.RecheckRefuses | dag.py:354-362 | Which of the three errors a recheck gives: a source is gone, the conversation is bound to another session, or anything else that was captured reads differently. |
| DagPublication.CommitRaisesFrontier | dag.py:373-395 | The frontier only rises, only to 0 or a captured id, and only for the bound session; a commit that names a frontier leaves it at least there. |
| DagPublication.CommitStoresNode | dag.py:265-286 | A committed node is stored under the next id with every field as published; its creation time is the given one unless that is 0, and then the commit time. |
| DagPublication.FrontierNeverFalls | dag.py:373-395 | Over every run a conversation's frontier never falls unless the conversation is rebound. |
| DagConflicts.CommitsAfterRunIff | dag.py:337-372 | After any run since its capture a publication commits exactly when its static checks pass, its captured rows and binding stand, and the live nodes of its session that cite a captured source are the captured parents. |
| DagConflicts.OverlappingPublicationConflicts | dag.py:288-372 | Of two publications captured before either committed and citing a common source, once the first has committed the second commits exactly under that condition, and then the first node is no live node of the session. |
| DagConflicts.MovedNodeAllowsSecondCommit | dag.py:609-624 | Once a session's nodes are moved away the very same publication commits again exactly when its sources are messages that had no parents and the first commit did not raise the frontier. |
| DagConflicts.DeletedNodeAllowsSecondCommit | dag.py:589-607 | Once its node is deleted the very same publication commits again exactly when the first commit did not raise the frontier. |
| DagConflicts.MoveLeavesTwoSummaries | dag.py:609-624 | From one stored message two workers with the same capture both commit a summary of it when a move comes between, and both stay live. |
| DagConflicts.DeletionAllowsBothSummaries | dag.py:589-607 | The same with a deletion of the first node between, after which only the second is live. |
| DagPublication.RunKeepsSources | dag.py:265-286 | In every run a stored node keeps every field but its session until it is deleted, and no id is used twice. |
| DagPublication.MoveIsExact | dag.py:609-624 | A move changes the session of exactly the nodes of the old session above the depth asked for, and nothing else. |
| DagPublication.DeletionIsExact | dag.py:501-539 | A deletion removes exactly the nodes it names. |
| DagStore.SummaryDag.PublicationSnapshot | dag.py:288-335 | The capture loops collect exactly the rows and parents of the model's snapshot, or fail on the first missing source. |
| DagStore.SummaryDag.PublishNode | dag.py:337-395 | Recheck, insert and frontier move form one commit that stores the node with all its fields and equals the model's publication, or the recorded error with nothing changed. |
| DagWalk.RunKeepsEdges | dag.py:265-286 | In every run of publications and deletions each node-to-node edge points to a smaller id. |
| DagWalk.SourceMessageIds | dag.py:939-980 | The recursive walk terminates and returns the reachable existing messages in ascending order, up to the limit. |
| DagWalk.NodeMatchesSource | dag.py:982-1027 | True exactly when a reachable message carries the source, or the empty-source rule applies to one. |
| DagWalk.SourceRule | store.py:336-346 | Asking for a blank source or for "unknown" also finds messages without one or with a blank one; any other is matched as it is, stripped. |
| DagSearch.StopIsExactIff | dag.py:838-859 | Stopping after some rows gives the true top exactly when no unread row precedes the last visible one. |
| DagSearch.BoundTestIsSound | dag.py:102-112 | Where the score bound test holds no later row precedes the worst visible row, in relevance and in hybrid order. |
| DagSearch.BoundStopIsExact | dag.py:838-859 | The early stop returns the top of all rows in relevance and hybrid order. |
| DagSearch.RecencyStopIsExactIff | dag.py:85-99 | In recency order the early stop is exact exactly when no unread row ties in time with the last visible row and ranks better. |
| DagSearch.RecencyStopCanBeWrong | dag.py:85-112 | A concrete recency query over ranked rows whose first page meets the bound test although the next row belongs on top. |
| DagSearch.PageStopIsExactIff | dag.py:70-99 | A query without the directness bonus stops after its first page; in relevance and hybrid order the answer is exact exactly when no unread row has the last visible score and is more direct. |
| DagSearch.PageStopCanBeWrong | dag.py:846-847 | A concrete relevance query of several terms whose first page hides such a row. |
| DagSearch.CapSize | search_query.py:366-368 | The candidate cap is 20 times the limit, but at least 500 and at most 5000 rows. |
| DagSearch.TopIsBest | dag.py:846-859 | The answer is the sorted top: the limit or all there is, every hit once, and no hit left out precedes one kept. |
| DagSearch.RelevancePrefers | dag.py:70-112 | In relevance order the better rank comes first, ties by directness and then recency; for precise queries a unit of directness outweighs rank by the stated factor. |
| DagSearch.HybridPrefers | dag.py:70-99 | In hybrid order of two equally ranked rows the newer comes first, and of two equally old ones the better ranked. |
| DagSearch.AgeHalves | dag.py:70-84 | The age penalty doubles after 1000 hours, grows with age and is 1 for the present. |
| DagSearch.Search | dag.py:793-859 | The paged loop with doubling pages returns the sorted top of what it scanned; unless the candidate cap cut it short, that is the true top for filtered and for precise queries, and for the others exactly when no unread row ties as stated above. With fewer than 500 rows the cap never does, and only rows the filter keeps are answered. |
| AssertionHistory.RunKeepsInv | assertion_store.py:521-755 | Over every sequence of publications, invalidations, message changes and version removals each source and version has at most one active receipt, assertions are exactly those of the digests, relations are among them, and active receipts describe the current message. |
| AssertionRemoval.RunKeepsEndpoints | db_bootstrap.py:2198-2223 | Over every run each stored relation has both its endpoints stored. |
| AssertionRemoval.RemovalKeepsRelationsIff | db_bootstrap.py:2198-2223 | Removing a version leaves every remaining receipt with all relations of its digest exactly when no relation of another version points at a row of the removed one. |
| AssertionRemoval.RunKeepsRelations | assertion_store.py:1068-1096 | Over every run whose removals meet that condition relations are exactly those of the digests. |
| AssertionRemoval.LostRelationStaysLost | assertion_store.py:613-661 | A relation lost while its receipt stays is not stored again by any later history that keeps its version. |
| AssertionExamples.RemovalLosesRelation | db_bootstrap.py:2198-2223 | After three publications the removal of one version takes a relation recorded under another; publishing it again reports it as current and restores nothing. |
| AssertionHistory.DigestIsPermanent | assertion_store.py:613-661 | Each source, version and hash keeps one candidate digest for as long as the version exists. |
| AssertionHistory.RepublishingIsNoop | assertion_store.py:583-608 | Publishing a batch again changes nothing and reports that it is current. |
| AssertionHistory.FreshPublicationOutcome | assertion_store.py:572-745 | A prepared batch of an unchanged message is refused as a conflict exactly when another digest is recorded for its hash; otherwise only a missing endpoint can refuse it, never a key constraint. |
| AssertionStore.AssertionDatabase.PublishSource | assertion_store.py:521-755 | The publish transaction with its insert loops commits exactly the model's publication or rolls back to the tables before it. |
| AssertionStore.AssertionDatabase.InsertRelations | assertion_store.py:704-741 | The relation loop stops exactly when some relation has an endpoint that is missing or invalidated. |
| AssertionStore.AssertionDatabase.InvalidateSource | assertion_store.py:1038-1066 | Stamps every active receipt of the source under all versions and reports how many there were. |
| AssertionQuery.AssertionReadsNeverStale | assertion_store.py:832-877 | On every reachable database an assertion read with a valid filter passes its provenance check. |
| AssertionQuery.RelationReadsNeverStale | assertion_store.py:937-1036 | The same for relation reads, which recheck the relation's source and both endpoints. |
| AssertionReads.AnswerIsNewestFirst | assertion_store.py:800-857 | An assertion read answers with as many visible rows as the limit allows, none twice, newest first and by id within one time, and leaves out no row newer than one it holds. |
| AssertionReads.AnswerIsOldestFirst | assertion_store.py:879-1006 | A relation read answers likewise with the earliest recorded relations. |
| AssertionReads.FiltersNarrow | assertion_store.py:800-850 | Each filter of an assertion read keeps exactly the rows whose field it names. |
| AssertionReads.TimeNarrows | assertion_store.py:826-850 | A read at a time keeps what was observed by then and was valid: from its start and before its end. |
| AssertionReads.UnfilteredShowsAll | assertion_store.py:800-857 | Without filters a read shows exactly the stored assertions of the version, the active ones unless invalidated ones are asked for. |
| AssertionReads.RelationFiltersNarrow | assertion_store.py:879-1006 | A relation read keeps exactly the relations with one of the ids at either end, and those of the types. |
| AssertionReads.RelationTimeNarrows | assertion_store.py:937-1006 | At a time it keeps relations whose source is of that time or before and whose two rows were valid then. |
| AssertionReads.UnfilteredShowsAllRelations | assertion_store.py:879-1006 | Without filters it shows exactly the stored relations of the version with both endpoints stored, and active throughout unless invalidated ones are asked for. |
| AssertionReads.RefusesStaleIff | assertion_store.py:763-779 | On any database, reachable or not, a valid assertion read is refused exactly when a row it would answer with is not invalidated and its message or quote has changed. |
| AssertionReads.RefusesStaleRelationIff | assertion_store.py:1006-1036 | A valid relation read that leaves out invalidated rows is refused exactly when one of its rows fails at its own source or at either endpoint. |
| AssertionReads.DeleteInvalidates | db_bootstrap.py:2188-2196 | Deleting a message takes it and invalidates its active receipts, all of them and nothing else. |
| AssertionReads.EditInvalidates | db_bootstrap.py:2177-2186 | Editing a message replaces it and invalidates its receipts exactly when the text changes. |
| AssertionReads.PreparedFields | assertion_store.py:409-469 | A prepared assertion carries each field of its candidate and its source, trimmed or lower-cased where the store does so, and the text at its span. |
| AssertionReads.PublishedIsReadBack | assertion_store.py:521-755 | Every candidate of a first publication is read back at once with its fields, its source's and the time of publication. |
| AssertionReads.PublishedRelationIsReadBack | assertion_store.py:704-741 | Every relation of it is read back likewise. |
| AssertionChecks.AllAccepted | assertion_store.py:521-560 | A list of candidates is accepted whole exactly when each of them is. |
| AssertionChecks.PreparedIff | assertion_store.py:521-570 | A publication is prepared exactly with at most 500 acceptable candidates and 500 acceptable relations, no two of which become the same row, within the size limit. |
| AssertionChecks.RunKeepsChecks | db_bootstrap.py:2035-2130 | Over every sequence of steps no row is stored that a CHECK constraint of its table or its insert guard would refuse. |
| AssertionQuery.PublishLeavesPastAssertions | assertion_store.py:826-857 | A publication observed after `t` leaves assertion reads at `t` unchanged, order and limit included. |
| AssertionQuery.PublishLeavesPastRelationsIff | assertion_store.py:937-1006 | A publication observed after `t` never adds to a relation read at `t` and leaves it as it was exactly when the guard of the reactivation branch fails or the read shows no relation of the receipt that is reactivated; reads of valid relations are never touched. |
| AssertionQuery.PastRelationsStableIff | assertion_store.py:521-755 | Over every history of later publications a relation read at `t`, invalidated rows included or not, keeps its rows exactly when no step touches it in that way. |
| AssertionExamples.ReactivationHidesOldRelation | assertion_store.py:637-661 | A concrete history in which such a read loses its only relation: the receipt is invalidated, its message's time moves, and reactivation takes the new time. |
| AssertionQuery.PastIsStable | assertion_store.py:521-755 | Over every history of later publications assertion reads at `t` and relation reads at `t` keep their answers, order and limit included; a relation read that includes invalidated rows does so when no step touches it. |
| AssertionRestore.RepublishingRestoresAssertions | assertion_store.py:613-661 | Invalidating a source and publishing the same batch again restores assertion reads of the version exactly. |
| AssertionRestore.RepublishingRestoresRelationsIff | assertion_store.py:1038-1066 | Relation reads come back exactly when no visible relation has an endpoint from another version of the same source, since invalidation covers all versions and republication one. |
| AssertionRestore.RepublishingRestoresRelations | assertion_store.py:613-661 | When they come back, order and limit come back too. |
| AssertionExamples.RepublishingLosesRelation | assertion_store.py:1038-1066 | A concrete history: a source published under two versions and a relation between the two rows, which a read no longer shows after the source is invalidated and one version republished. |
| AssertionState.ComputeState | assertion_state.py:112-209 | The three grouping passes and the row loop compute the state declared pairwise: active rows, statuses, dispositions, conflicts, and unknowns when relations were cut off; what each of these means is stated over the literal relation types. |
| AssertionState.DeclaredStateMeans | assertion_state.py:12-209 | Statuses and dispositions stand exactly for relations of the literal types that point at the row, rivals are the active rows equal in subject, predicate, scope and kind that differ in object, polarity or value text, and every list holds its rows once and in order. |
| AssertionReads.StateRowsAreCurrent | assertion_state.py:88-118 | A state read starts from the newest current rows about its subject: of the current version, under an active receipt and within each filter. |
| AssertionReads.StateSeesRelations | assertion_state.py:119-148 | With fewer than 500 relations read, a row counts as targeted exactly when the store holds such a relation valid at both ends. |
| AssertionReads.StateReadMeans | assertion_state.py:88-209 | The state read of the store means what its relations say, by the clauses above. |
| AssertionReads.StateReadOutcome | assertion_state.py:88-118 | On every reachable database a state read succeeds exactly with a subject that is not blank, known kinds and a limit of 1 to 500, and is empty exactly when the store holds no current row. |
| AssertionState.CollectRelations | assertion_state.py:119-148 | After one pass over the relations each row's statuses, dispositions and explicit conflicts are those some relation of the list gives it. |
| AssertionState.GroupingFindsConflicts | assertion_state.py:150-169 | A row is found in conflict exactly when it is active and contradicted, or differs in value from another active row with the same key. |
| AssertionState.ActiveIffNoStatus | assertion_state.py:145-149 | A row is active exactly when no relation that cancels, fulfils, reverses or supersedes targets it. |
| AssertionState.SemanticIsWitnessed | assertion_state.py:55-85 | A lifecycle status shown is held and first by name unless a commitment was fulfilled, a disposition shown is the only one, and the neutral states stand exactly for rows without any. |
| AssertionState.OrderHasNoSay | assertion_state.py:126-169 | Neither the order of rows nor that of relations changes statuses, activity or conflicts. |
| AssertionState.StateReadIsStable | assertion_state.py:88-209 | A lifecycle-state read at `t` keeps its answer over every history of publications observed after `t`. |
| TailAlignment.VisibleStoreIdsFromTail | compaction.py:62-122 | The backward loop returns the matched ids of the greedy alignment, nothing when the newest message is unmatched, and nothing beyond 5000 messages. |
| TailAlignment.VisibleOutcome | compaction.py:62-122 | The window is answered for exactly when it has 1 to 5000 messages and its newest one matches a row of the tail; the answer then holds the ids of exactly the rows its messages are aligned to. |
| TailAlignment.TailCoversWindow | compaction.py:74-79 | For every window the alignment accepts, the tail has room for three rows a message and at least 128: the cap of 16384 never binds. |
| TailAlignment.TailIsNewest | compaction.py:74-79 | The tail is the newest rows, as many as asked for. |
| TailAlignment.AlignIsOrderPreserving | compaction.py:97-122 | Matched messages match their rows and keep their order. |
| TailAlignment.AlignTakesNewest | compaction.py:103-121 | Each message takes the newest matching row below its cursor and stays unmatched only without one, leaving the cursor alone. |
| TailAlignment.AlignIsLatest | compaction.py:62-122 | If the window embeds in order, every message is matched at the latest row it has in any embedding. |
| TailAlignment.EmbedsIffAllMatched | compaction.py:62-122 | The window embeds in order exactly when the alignment leaves no message unmatched. |
| TailAlignment.SuffixAlignsAlone | compaction.py:67-71 | What a suffix of the window is matched to does not depend on earlier messages. |
| TailAlignment.IdsDescend | compaction.py:97-122 | The returned store ids strictly descend. |
| HiddenLeaf.LoadHiddenStoreLeafChunk | compaction.py:801-876 | Reading page by page, with coverage fetched per page, selects what one pass over the whole interval selects. |
| HiddenLeaf.ChunkIsGapFree | compaction.py:779-876 | A returned chunk is ascending, inside its bounds and uncovered, leaves no uncovered row out up to its end, answers every tool call it opens, holds no system row, and begins with a tool row only after a covered one. |
| HiddenLeaf.ChunkIsShortest | compaction.py:868-869 | No proper prefix of the chunk reaches the token target with every tool call answered. |
| HiddenLeaf.LeafStaysHidden | compaction.py:741-775 | No selected row is visible in the active window, in the fresh tail or behind the frontier. |
| HiddenLeaf.LeafIsGapFree | compaction.py:730-738 | Above the lifecycle frontier and up to the end of the leaf every row is selected, covered, or the one leading system anchor. |
| HiddenLeaf.BetweenResumes | store.py:1533-1556 | Reading on from the last row of a page gives exactly the remaining rows of the interval. |
| HiddenLeafOutcome.ChunkIff | compaction.py:801-876 | The loader returns a chunk exactly when its window has a stopping point, before any row that blocks: at the first selection that reaches the target with every call answered, or at the end; and the chunk is the uncovered rows up to it. |
| HiddenLeafOutcome.FrontierIff | compaction.py:724-738 | Selection starts behind the anchor row if the first row above the frontier is one, and at the frontier otherwise. |
| HiddenLeafOutcome.BoundIff | compaction.py:739-775 | The bound is the lower of the fresh tail's first row and the lowest visible row above the frontier, and exists exactly when a stored row lies strictly between. |
| HiddenLeafOutcome.LeafIff | compaction.py:779-876 | A leaf is returned exactly when such a bound, goal and stopping point exist, and with the rows up to it. |
| HiddenLeafOutcome.PlainRowsYieldLeaf | compaction.py:779-876 | Plain hidden rows within the limits that count for something are never left behind when a pass is due. |
| SanitationDigest.MessageStreamInjective | compaction.py:130-152 | Two message lists with the same byte stream are the same list, although the length prefix counts characters and the stream carries bytes. |
| SanitationDigest.EncodeIsPrefixFree | compaction.py:46-50 | Among texts of the same number of characters, lone surrogates included, the encoding ends at one place only. |
| SanitationDigest.FieldIsPrefixFree | compaction.py:46-50 | A length-prefixed field can be told from whatever follows it. |
| SanitationDigest.Digest.UpdateField | compaction.py:46-50 | Feeding a field in slices of 65536 characters appends the field's encoding and nothing else. |
| SanitationDigest.MessageIdentity | compaction.py:130-152 | The nested loops feed the digest exactly the stream of the message list. |
| SanitationClaim.CompressionEngine.RecordHandoff | compaction.py:436-445 | Preflight records the streams of the two lists with the session, conversation and attempt of the engine, and changes nothing else. |
| SanitationClaim.CompressionEngine.PrepareCompressionOperation | compaction.py:161-228 | A claim is made, and the handoff consumed, exactly in the model's cases. |
| SanitationClaim.CompressionEngine.ClaimSanitation | compaction.py:996-1052 | The claim part of `compress` consumes or preserves the pending state and picks the handoff as the model does. |
| SanitationClaim.SanitationIsExact | compaction.py:161-228 | Over every history each preflight is charged with at most one sanitation run, of the very list it saw, in its session, conversation and ingest revision, on its attempt or the next. |
| SanitationClaim.HandoffsAreOneShot | compaction.py:124-128 | Without a new handoff at most the one still held can lead to a run, whatever else happens. |
| SanitationClaim.SanitisesIff | compaction.py:1015-1043 | Sanitation runs exactly when the pending claim is presented, or none was taken and none is presented, and nothing moved since the preflight. |
| SanitationClaim.ClaimsIff | compaction.py:161-228 | A prepare gives a token exactly when the session's own current attempt, the preflight's or the next, brings the list of a held preflight and nothing has moved since. |
| SanitationClaim.UnmovedPreflightSanitises | compaction.py:161-228 | A preflight that nothing overtakes is honoured: whatever auxiliary and foreign calls come between, the attempt that follows prepares a claim and its compression sanitises that very list under the handoff. |
| SanitationClaim.DirectCompressionSanitises | compaction.py:1026-1043 | A caller that never prepares is served too while the attempt is still the preflight's. |
| AuxOwnership.RunKeepsInv | aux_session.py:160-483 | Over every run a live generation is never retired for its session, retired sets only grow, live sessions are active and active ones in the lineage. |
| AuxOwnership.RetiredNeverReturns | aux_session.py:215-232 | A generation retired for a session never owns it again. |
| AuxOwnership.LiveLeavesByRetirement | aux_session.py:215-232 | Over every run a generation that owned a session still owns it or has been retired for it: none is dropped silently. |
| AuxOwnership.UsageKeepsInv | engine.py:1866-1916 | The auxiliary half of a response's usage, which may claim an unowned session, keeps ownership sound. |
| AuxOwnership.CommitKeepsInvIff | aux_session.py:308-456 | The locked part of a handoff keeps ownership sound exactly when it does not bring back a retired generation; between two sessions that is exactly when the generation was not retired after the unlocked check. |
| AuxOwnership.OvertakenHandoffBreaksOwnership | aux_session.py:304-308 | A concrete overtaken handoff: the owner passes the unlocked check, another thread unmarks the session, and the commit makes the retired generation live. |
| AuxOwnership.HandoffKeepsInv | aux_session.py:295-464 | A handoff between two different sessions made in one piece keeps ownership sound. |
| AuxOwnership.RegisterIsConfined | aux_session.py:160-213 | Registration changes nothing about any other session and retires but never un-retires. |
| AuxOwnership.TokenEndsOnlyItsOwn | aux_session.py:234-269 | A caller with a token ends a session only as its live generation, or where none is live and its own is not retired, and is retired by it. |
| AuxOwnership.OwnerEndsOnce | aux_session.py:234-269 | The live generation can end its session, and a second end is refused. |
| AuxOwnership.TokensAreNotShared | aux_session.py:516-552 | Two agents never get the same token, even at the same address and whatever happens in between. |
| AuxEffects.RegisterOutcome | aux_session.py:160-213 | Registration refuses a token retired for the session while another owns it or it is active without an owner; otherwise the caller's token, or a new one for a retired one, owns the session. |
| AuxEffects.EndsIff | aux_session.py:234-269 | Exactly who may end a session, by owner, guard, usage and parent, and what an end leaves of it. |
| AuxEffects.TakenOverView | aux_session.py:338-423 | What a handoff leaves of the new session: when its owner is replaced, when it stays guarded, and which parent is expected. |
| AuxEffects.RunLeavesNoResidue | aux_session.py:160-483 | Over every run usage, guards and parents are kept for active sessions only, so an ended session leaves nothing but its history. |
| AuxEffects.GuardWaitsForUsage | aux_session.py:234-269 | After a token takes a session over, an end without a token is refused until the new owner has answered once, and one by the displaced token always. |
| AuxEffects.HandoffNamesParent | aux_session.py:248-262 | After a handoff without a token that replaces an owner, an end without a token is refused until the session has answered; then one from the parent that handed over is accepted and one from another parent refused. |
| AuxEffects.HandoffMovesMarker | aux_session.py:454-464 | The thread's stack keeps its other active sessions in order and ends with the new one if the thread was in the old or the new one and it is active. |
| AuxSession.AuxiliarySessions.RegisterSession | aux_session.py:160-213 | The registration method takes the shared sets and maps to the model's next state and answer. |
| AuxSession.AuxiliarySessions.DeactivateSession | aux_session.py:234-269 | Ends the session or refuses and changes nothing, as the model decides. |
| AuxSession.AuxiliarySessions.UnmarkSession | aux_session.py:466-483 | Unmarking ends the session, retires its generation and keeps the foreground marker rule. |
| AuxSession.AuxiliarySessions.HandoffSession | aux_session.py:295-464 | The branches of a handoff reach the model's next state; the thread's marker moves from the old session to the new one unless the generation is retired or the parent is stale. |
| AuxSession.AuxiliarySessions.GenerationTokenFor | aux_session.py:516-552 | An agent keeps its token until forced to a new one, and every new token is the next number. |
| RetrievalBudget.RunKeepsOk | adaptive_retrieval.py:859-1155 | In every reachable state, after raising calls too, token and character sums equal what is held and stay within limits, as do candidates, leads and rounds; slots hold observed refs only; every item is credited to one round; finished means a valid selection exists. |
| RetrievalBudget.SearchKeepsOk | adaptive_retrieval.py:1026-1155 | The same for one search, on each of its exits. |
| RetrievalBudget.FinishKeepsOk | adaptive_retrieval.py:1265-1380 | The same for one finish, on each of its exits. |
| RetrievalBudget.StartIsOk | adaptive_retrieval.py:890-988 | A new retrieval is sound, also when a cached view makes it ready. |
| RetrievalBudget.AdmissionIsGreedy | adaptive_retrieval.py:1082-1102 | Admission takes the longest prefix of an answer that the budgets allow and is marked truncated exactly when something new was left out. |
| RetrievalBudget.FiledAll | adaptive_retrieval.py:990-1016 | A resolution that succeeds has filed every ref it names. |
| RetrievalEffects.ResolvesIff | adaptive_retrieval.py:990-1016 | Resolutions are applied whole exactly when there are at most 12, each naming a required slot and one to forty observed refs. |
| RetrievalEffects.SlotsHoldFiled | adaptive_retrieval.py:1010-1016 | After them a slot holds the refs it held and those filed under it, and no other. |
| RetrievalEffects.SearchOutcome | adaptive_retrieval.py:1037-1052 | Exactly when a search returns, and what it has changed when it raises instead. |
| RetrievalEffects.RoundOutcome | adaptive_retrieval.py:1082-1154 | A dispatched search records one round of exactly what it added; without anything new the retrieval falls back and says why, and after the third round it is exhausted. |
| RetrievalEffects.IdleSearchIsLast | adaptive_retrieval.py:1145-1154 | After a search that brought nothing new no later call dispatches a tool again. |
| RetrievalEffects.RunDispatchesRounds | adaptive_retrieval.py:1045-1049 | Every run dispatches one tool call per recorded round and never more than three. |
| RetrievalEffects.LeadAdmissionIsGreedy | adaptive_retrieval.py:1104-1123 | Leads are admitted up to the first new one that breaks a limit. |
| RetrievalEffects.FinishOutcome | adaptive_retrieval.py:1277-1380 | Exactly when a finish returns, when it finishes or falls back and why, and that one which raises has filed refs at most. |
| RetrievalEffects.OperandIff | adaptive_retrieval.py:1330-1343 | An operand is valid exactly when it quotes, verbatim, a selected piece of evidence named by its citation or as the only one of its assertion. |
| RetrievalEffects.ComputationIff | adaptive_retrieval.py:1314-1352 | A computation is accepted exactly when there is none, or each operand is valid and the tool answers with an object. |
| RetrievalEffects.SelectionHolds | adaptive_retrieval.py:1290-1303 | Without a choice the selection is what is filed under the required slots, otherwise what is chosen; each ref once. |
| RetrievalEffects.ViewFitsIff | adaptive_retrieval.py:917-984 | A view fits exactly when its digest stands, its evidence is within the limits and it closes every required slot with evidence it holds. |
| RetrievalBudget.FinishedIsFinal | adaptive_retrieval.py:1277-1279 | A finished retrieval never changes again except to be abandoned. |
| RetrievalBudget.DefaultFinishesIff | adaptive_retrieval.py:1281-1312 | With all slots closed the default selection finishes exactly when each slot holds enough distinct refs. |
| RetrievalViews.ClosedRunFinishes | adaptive_retrieval.py:1013-1017 | In every retrieval that starts without a view, or from one that files no ref twice, closing all slots is enough for the default selection to finish. |
| RetrievalViews.FinishCanPersist | adaptive_retrieval.py:1281-1315 | Whatever calls came before, a finish that succeeds leaves a valid selection and slots without repetitions. |
| RetrievalViews.PersistedFilesOnce | adaptive_retrieval.py:1230-1237 | The view it persists files no ref twice either. |
| RetrievalViews.PersistedViewOutcome | adaptive_retrieval.py:917-984 | A later start with the same requirements raises exactly when a stub rebuilt from the persisted view is too long; otherwise it is ready exactly when the rebuilt evidence is within the context limits, and whenever it is ready the default selection finishes it. |
| RetrievalViews.PersistedViewIsReady | adaptive_retrieval.py:917-984 | Without assertion ids, and with stubs counted as in the search, a persisted view always makes the next start ready and finishable. |
| RetrievalViews.AssertionMakesViewUnreadable | adaptive_retrieval.py:730-734 | A retrieval of one piece of evidence with an assertion id finishes and persists a view that no later start can read. |
| RetrievalModel.CandidateIsExact | adaptive_retrieval.py:438-519 | Every candidate is a bounded verbatim quote at its span with a stub within its limit; an undeclared span is the offset given or the only occurrence. |
| RetrievalModel.ExactQuotesAreAccepted | adaptive_retrieval.py:438-519 | Without a declared span an item is refused exactly when its quote stands neither at its offset nor at one place only, or its assertion id is malformed; otherwise it is a candidate unless its stub is too long, and then the call raises. |
| Retrieval.RetrievalState.SearchOnce | adaptive_retrieval.py:1039-1155 | The search body with its two admission loops reaches the model's next state. |
| Retrieval.RetrievalState.FinishUp | adaptive_retrieval.py:1277-1380 | The finish body reaches the model's next state. |
| Retrieval.AdaptiveRetrievalRegistry.Purge | adaptive_retrieval.py:771-782 | Leaves fewer than 32 retrievals and none expired; an unexpired one goes only when 32 are unexpired and it is the oldest. |
| Retrieval.AdaptiveRetrievalRegistry.Get | adaptive_retrieval.py:839-857 | A retrieval is handed out exactly when it exists, belongs to the caller and has not expired; only an expired one is dropped. |
| Retrieval.AdaptiveRetrievalRegistry.StartRetrieval | adaptive_retrieval.py:890-984 | A start keeps the registry within 32 and holds the new retrieval under its own id; one that raises on its requirements changes nothing, one that raises on its view adds nothing. |
| Retrieval.AdaptiveRetrievalRegistry.SearchRetrieval | adaptive_retrieval.py:1026-1155 | A search steps the caller's own retrieval and leaves every other one alone. |
| Retrieval.AdaptiveRetrievalRegistry.FinishRetrieval | adaptive_retrieval.py:1265-1380 | A finish steps the caller's own retrieval and leaves every other one alone. |
| Retrieval.AdaptiveRetrievalRegistry.AbandonRetrieval | adaptive_retrieval.py:1392-1400 | An abandoned retrieval is no longer held. |
| Chunking.SentenceSpans | chunking.py:77-118 | One left-to-right scan finds exactly the sentences: the cuts are the positions that the local rule on terminators, white space and newlines declares. |
| ChunkEmission.SentenceRule | chunking.py:77-118 | Inside a text a sentence ends exactly where the white space after one of ".!?" stops, or where a run of newlines that follows no such terminator does. |
| Chunking.WindowSpans | chunking.py:121-155 | The window loops produce the declared windows and terminate. |
| Chunking.WindowsCoverText | chunking.py:121-155 | Windows start at 0, end at the length, leave no gap, have strictly increasing starts and never-decreasing ends. |
| Chunking.WindowsCutAtSentences | chunking.py:144-150 | Windows begin and stop only where sentences do. |
| Chunking.EachSentenceOnceOrTwice | chunking.py:151-154 | Every sentence is in one window or in two neighbours. |
| Chunking.WindowsRestoreText | chunking.py:121-155 | Dropping the overlaps and concatenating gives back the text. |
| Chunking.WindowsFit | chunking.py:139-149 | A window of several sentences sums to at most 600 tokens, and one sentence more would exceed it. |
| FallbackTokens.UniformWindowsWithinTarget | tokens.py:92-111 | Under the fallback estimator, when all sentences take the same divisor, a window exceeds the target only as a lone sentence. |
| FallbackTokens.AsciiWindowsWithinTarget | tokens.py:99-102 | ASCII text is such a text. |
| FallbackTokens.FallbackWindowBound | chunking.py:121-155 | For every text a window counts at most 999 tokens under the fallback estimator or is a lone sentence. |
| FallbackTokens.LargestWindowIsReached | chunking.py:130-155 | The bound is attained: a text of two sentences that counts 999 tokens stays in one window. |
| FallbackTokens.EstimateIsNotSubadditive | tokens.py:103-111 | The fallback estimate of a whole can exceed the sum over its parts. |
| ChunkPolicy.SelectHeadAndErrors | chunking.py:177-201 | The selection loop keeps exactly the head and the first three later windows that show an error. |
| ChunkPolicy.ChunksAreWindows | chunking.py:170-243 | Under every policy a chunk is the window at its index, and indices strictly increase. |
| ChunkPolicy.ChunksAreVerbatim | chunking.py:158-167 | Every chunk carries the non-empty verbatim text of its span. |
| ChunkPolicy.PoliciesAgree | chunking.py:204-243 | Any two policies agree on every chunk id both emit for a message. |
| ChunkEmission.EmitsIff | chunking.py:204-243 | Each policy emits a window exactly for the roles and sizes stated in literals: whole messages, or the head and the later windows that show an error with fewer than three such before. |
| ChunkEmission.PoliciesNest | chunking.py:204-243 | Raising the policy loses no chunk, except those of a conversational turn over 32000 tokens that are neither its head nor its errors. |
| ChunkEmission.HeadOnlyIsBounded | chunking.py:177-201 | A message of which only the head is taken makes at most four chunks. |
| ChunkPolicy.ChunkIdParses | command.py:4440-4445 | A chunk id parses back to its message and index. |
| ChunkPolicy.RebuildRoundTrip | command.py:4429-4455 | Under the policy that emitted it a chunk of an unchanged message is rebuilt from its id as it was. |
| ChunkPolicy.RebuildChunkDocument | command.py:4429-4455 | The rebuild loop returns the first chunk with the parsed index, or nothing when id, message or chunk is missing. |
| ChunkPolicy.GroupByStoreId | chunking.py:246-264 | The grouping loop produces the declared groups. |
| ChunkPolicy.GroupsPartition | chunking.py:246-264 | Groups list every position exactly once, in order. |
| ChunkPolicy.GroupsAreRuns | chunking.py:246-264 | Each group holds positions of one message only. |
| ChunkEmission.NeighboursDiffer | chunking.py:246-264 | Neighbouring groups belong to different messages, in whatever order positions come. |
| ChunkPolicy.OneGroupPerMessage | chunking.py:249-255 | Where positions come in store order, different groups belong to different messages. |
| ChunkPolicy.RetryGroupsPerMessage | command.py:4496-4506 | After the retry sort no message is split over two groups, whatever order its chunks were selected in. |

## Left out

- SQLite itself: tables are maps, each `BEGIN IMMEDIATE` block is one step, and triggers are part of the step that fires them. Schema repair, full-text indexing and the write-ahead log are not modelled.
- Providers, auxiliary models, wall clocks and uuids: answers, times and fresh names are parameters or arbitrary; a definitive rejection concerns the request it names.
- Hashes: a digest is modelled by the text or record it was computed from, so equal digests mean equal inputs.
- Floating point: scores, times and decay are reals, and one search uses one clock reading.
- The recency value of a node, the directness score and its upper bound are inputs of the search; the LIKE fallback of the search is not part of this model.
- `add_node`, `add_node_with_frontier` and the staged deletion of whole scopes: covered only as deletions and moves of nodes.
- BackfillProtocol.SendsBounded: counts sends as long as recorded embeddings are not deleted by other parts of the program.
- Discovery by the backfill: any subset of the pending rows may be selected, so the order and limit of the query have no part in the proofs.
- BackfillDriver.BackfillBatch.ReleaseUnsent: runs its transactions back to back; BackfillCalls covers the same calls with steps of other workers between them.
- Lease cells edited by hand: the generation reads alike in Python's `int` and in SQLite's `CAST`, generations stay within 64 bits, and a statement on a cell that is not JSON finds no holder where SQLite raises; either way nothing changes.
- DagSearch.Search: limits below 1 are excluded; both callers pass at least 1 (tools.py:2401-2408, 5610-5614).
- Publication times inside one batch: every row of an assertion publication is stamped with the same time, where the program reads the clock per row.
- Canonical JSON, timestamps and numbers of assertion candidates arrive parsed, and the length of a candidate's canonical payload is an input; JSON canonicalisation is not part of this model.
- The insert guards of the assertion tables (db_bootstrap.py:2099-2175) compare what the publication has just read; they also abort for messages with a NULL source and for text with NUL characters, where SQLite counts length differently, and messages here have neither.
- `str.lower` and `casefold` are modelled on ASCII letters only.
- Read filters arrive as the program normalises them: versions stripped, kinds and relation types stripped and lowered, ids lowered; an invalidation reason arrives stripped and within its limit.
- Attribution labels in the assertion state reader and payload rendering everywhere: field-by-field copies.
- The replay identity of a message and its cleaned form are inputs of the alignment and of the digest; the sanitiser that computes them is not part of this model.
- Token estimates of the hidden-leaf loader's rows and its backlog threshold are inputs.
- Compaction beyond selection and claims: summarising, assembly and the fallback out of a claimed run.
- Call-stack inspection: the innermost auxiliary agent frame is an input, and a profile reset, which also restarts the token counter, is not a step.
- The host fallback compressor that some auxiliary steps end, and thread-local stacks beyond the marker a handoff moves.
- Query views: what a finish persists and what a start makes of it are modelled; the view store with its leases, expiry and corpus generations is not part of this model, and a looked-up view is fresh. Rebuilt stubs differ from those of the search in the assertion id only, which holds for messages with a role and a time other than 0.
- ChunkPolicy.RebuildChunkDocument: `int` is modelled on plain decimal digits, as the program writes them; ids with the signs, blanks and underscores it also accepts are refused.
- ChunkPolicy.SelectHeadAndErrors: whether a window matches the error pattern is an arbitrary predicate of its text.
- Chunking.WindowsWithinTarget: holds for any counter that is subadditive on the text. Nothing of the kind is known of the encoder, so for it only `WindowsFit` bounds the sum over sentences; the fallback estimator is treated exactly. One estimator is used throughout one message.
- Reporting, configuration precedence, engine registration, regex extraction and bypass trimming: only easy claims, or no crisp specification.
