# CDA Network: a verified model

CDA Network is a data-availability layer. Bootstrap nodes cut every cell of an extended block into pieces coded with
random coefficients and hand them to store nodes; store nodes keep pieces that are linearly independent, recode,
publish and prune them; a publisher announces a block once enough stores report it complete. This project models the
parts of that system that decide what is kept, who keeps it, when a block is done and what goes over the wire, and
proves what they promise.

`dafny verify dfyconfig.toml` checks everything.

## How the model is built

- **Rank tracking.** `PrimeField` is the integers modulo an arbitrary prime above 65535, with inverses derived by the
  extended Euclidean algorithm; `LinearSpan` is the linear algebra; `Echelon` is the `EchelonBasis` class that store
  and bootstrap share; `Independence` holds the three independence tests; `SeedEncoder` is the coefficient loop of
  `EncodeRowNSeeds`. `ByteRows` says what the tests answer in terms of the bytes of the rows.
- **Custody of a cell.** `CellMachine` is one cell on one store node as a state machine over the sections that run
  under the node's locks, in any interleaving; `CustodyStore` is the in-memory store and `Receiver` the node's
  methods, each proved to take its cell through steps of the machine, to leave all others alone and to keep the
  machine's invariant in every cell. `SectionEffects` says what whole sections do to a cell, in pieces, sources, numbers
  and flags. The machine takes a prune, and a look-up of the cached number of pieces, in one
  step; `PruneSections` takes the one apart into its two sections and `CountSections` the other into its three.
- **Custody assignment.** `CustodyMap`, `CustodyRoles` and `SeedingPlan` follow `cda-p2p/common.go`; `CustodyHolders` says who
  the holders of a row are.
- **Coordination.** `Publisher`, `BlockBarrier` and `StreamPool` are state machines whose events are the sections under
  a mutex, timers and channel operations, in any order; the classes beside them are proved to perform those steps.
  `ReportNumbers` says what the publisher's sections do in the numbers of reports and settings, `FullBatches` when the
  barrier flushes a batch.
- **Wire format.** `Bytes`, `Wire`, `BatchCodec` and `GossipCodec`; `WireLayout` gives the place of each field.

A method that changes state is proved equal to a specification function of the old state; what the system promises is
then proved of that function, for all inputs and all runs.

## Where the code keeps less than it says

- The comments of `EchelonBasis` speak of a reduced row echelon form. Rows are neither sorted nor reduced against later
  ones. What holds is `IsEchelon`: each row leads with a 1 at its own pivot, where every later row is zero.
- The store's `IsLinearlyIndependent` answers a first row without looking at its length, so the three tests agree
  exactly as `TestsAgreeExactly` says, and a stored cell's piece count is its rank exactly when its first piece is
  well-formed (`RawRank`; `MalformedFirstPiece` is an input on which it is not).
- A completed cell can be taken back. With prunes and look-ups of the count in one step each, exactly by a piece
  stored, on any path, in a backup cell that has published nothing (`ReportStable`, `CompletionStable`). An active pull
  looks at no flag and can do it at any time (`StrayStoreReachable`). Ingest and batch fetch look at the pruned flag before they take the cell lock and never
  again, so they can do it when the pruner overtakes them (`OvertakenIngest`); when nothing comes in between they
  cannot (`SectionsKeepReport`).
- With a random source that always fails, the first seed of a group takes one attempt and each later one 51 or 52; 51
  is the bound exactly for fewer than 1052 seeds in a group (`FallbackBound`).
- Without a custody map a store's custody rows and its roles agree exactly when the remainder of its own row by the
  number of rows is not negative (`CustodianOfItsRows`).
- The publisher's `isNetColActiveForN` reads a network column index as a data column; it admits exactly the expected
  columns when and only when a network column is one data column wide (`GuardExact`).
- The aggregator can leave a column waiting with nothing to dispatch it: exactly when the last flush to come, the
  timer's, finds the batch still empty because its first column is between its two sections (`DriveLost`,
  `FirstColumnStranded`).
- The aggregator can also flush a batch before its expected columns are in without any timer running out: exactly when
  a flush that a full batch has asked for is still to come when the batch has been removed, 30 seconds after another
  flush dispatched it, and a new batch of the block is made (`BarrierHolds`, `StaleFlush`).
- An announced block, or one of a lower height, is out of the publisher's pipeline only until the admission gate lets
  it in again (`StepStaysClear`); the gate itself does not look at what has been announced.
- Between the two sections of `PruneRawPieces` a cell can lack its only piece: a completion check that comes while the
  final sweep prunes finds a locked cell empty (`LockedSeenEmpty`). `SectionsRefineWhole` says exactly when, and that
  the report is otherwise the one it would be with prunes in one step.
- `GetPieceCount` reads the pieces and caches their number in different sections, so a number can be cached that is no
  longer right: exactly by a write that comes after a store or prune has changed it (`CountRight`, `ReadIsRight`). The
  completion check judges by that number, so such a write can take a report back, exactly on a native cell when it is
  below k and on a backup cell that has published nothing (`TickStable`, `CountedCompletionStable`). A native cell that
  holds enough to decode, with no other look-up under way, is then never reported again (`StaleCountReachable`,
  `NeverCorrected`).

## Model

| member | source | states |
|---|---|---|
| PrimeField.InverseIsInverse | cda-store-node/internal/engine/rank_check.go:92-97 | every nonzero field element times its computed inverse is one |
| LinearSpan.SpanIsCombinations | cda-store-node/internal/engine/rank_check.go:55-76 | the span used throughout is the set of linear combinations |
| LinearSpan.IndependentExtend | cda-store-node/internal/engine/rank_check.go:32-34 | a list of rows stays independent under a new row iff the row is outside its span |
| Echelon.EchelonBasis.constructor | cda-store-node/internal/engine/rank_check.go:15-20 | an empty basis satisfies the invariant |
| Echelon.EchelonBasis.Reset | cda-store-node/internal/engine/rank_check.go:22-25 | empties the basis |
| Echelon.EchelonBasis.RankOf | cda-store-node/internal/engine/rank_check.go:27-30 | the number of rows, never above k |
| Echelon.EchelonBasis.TryAdd | cda-store-node/internal/engine/rank_check.go:35-101 | true iff the row is well-formed and outside the span; on true the span grows by exactly the row, on false nothing changes; equals the functional Added |
| Echelon.AddedKeepsEchelon | cda-store-node/internal/engine/rank_check.go:55-100 | the invariant: distinct pivots, ones at pivots, zeros left of and below them |
| Echelon.AddedDecides | cda-store-node/internal/engine/rank_check.go:35-101 | the answer and the new span of every addition to every basis that satisfies the invariant |
| Echelon.ResidueDecides | cda-store-node/internal/engine/rank_check.go:55-90 | one pass of elimination in insertion order leaves zero iff the row was in the span |
| Echelon.FullRankSpansAll | cda-store-node/internal/engine/rank_check.go:36-38 | k rows in echelon form span every row, so the early false at rank k is right |
| Echelon.PivotsAreLeads | cda-store-node/internal/engine/rank_check.go:78-90 | pivots are exactly the leading positions of nonzero vectors of the span |
| Echelon.RankBySpan | cda-store-node/internal/engine/rank_check.go:27-30 | bases of one span have the same pivots and size |
| Echelon.RankDependsOnSpan | cda-store-node/internal/engine/rank_check.go:27-101 | the final rank of any fed list depends only on the span of its well-formed rows |
| Echelon.RankIgnoresOrder | cda-store-node/internal/engine/rank_check.go:27-101 | rank and span are the same for every feeding order and repetition |
| Echelon.FullCountIsIndependence | cda-store-node/internal/engine/rank_check.go:116-123 | rank equals the number of well-formed rows iff these are independent |
| Echelon.RankBounded | cda-store-node/internal/engine/rank_check.go:120-122 | rank is at most k, and equals k iff the rows span everything |
| Independence.StoreIsIndependent | cda-store-node/internal/engine/rank_check.go:105-124 | with rows in hand: well-formed and outside their span; with none: some byte is nonzero |
| Independence.BootstrapIsIndependent | cda-bootstrap-node/internal/engine/rlnc_encoder.go:306-315 | fewer than k rows in hand, well-formed and outside their span |
| Independence.AddRow | cda-light-node/internal/verifier/das_verifier.go:82-116 | column-indexed elimination in place: true iff the row is well-formed and outside the span of the slots; the span grows by exactly the row |
| Independence.LightIsIndependent | cda-light-node/internal/verifier/das_verifier.go:76-122 | the same answer as the bootstrap's test |
| Independence.NonzeroBytes | cda-store-node/internal/engine/rank_check.go:106-114 | a well-formed row has a nonzero byte iff it is a nonzero vector, so 16-bit coefficients embed as nonzero |
| Independence.TestsAgreeExactly | cda-store-node/internal/engine/rank_check.go:105-124 | exactly when the store's answer is that of the other two, over all inputs |
| Independence.TestsAgreeOnIndependentRows | cda-light-node/internal/verifier/das_verifier.go:76-122 | on well-formed rows with independent rows in hand all three tests agree |
| Independence.AnswersIgnoreOrder | cda-store-node/internal/engine/rank_check.go:105-124 | no answer depends on the order of the rows in hand |
| ByteRows.FirstRow | cda-store-node/internal/engine/rank_check.go:105-114 | a first row of k or 2k bytes is taken, by TryAdd and all three tests, iff one of its bytes is not zero |
| ByteRows.WideRowRefused | cda-store-node/internal/engine/rank_check.go:42-50 | with one row of 2k bytes in hand, TryAdd and the tests refuse another iff its two-byte numbers, the high byte first, are one field element times those of the first modulo the prime |
| ByteRows.NarrowRowRefused | cda-light-node/internal/verifier/das_verifier.go:58-73 | the same of rows of k bytes and their one-byte numbers |
| ByteRows.OtherLengthsRefused | cda-store-node/internal/engine/rank_check.go:40-53 | rows of any other length are refused, but by the store's test of a first row with a nonzero byte |
| SeedEncoder.DrawCoefficients | cda-bootstrap-node/internal/engine/rlnc_encoder.go:149-167 | one attempt's coefficient bytes: sampled modulo 1000 plus 1, the index on failure, and the override after 50 attempts |
| SeedEncoder.DrawnNumbers | cda-bootstrap-node/internal/engine/rlnc_encoder.go:149-167 | the number at each place of a drawn row, the high byte first: the draw modulo 1000 plus 1, the place plus 1 on failure, 1001 plus the attempt at the next free row after 50 attempts |
| SeedEncoder.FirstAccepted | cda-bootstrap-node/internal/engine/rlnc_encoder.go:147-172 | a seed is the first row not refused and the draws after it are left; without one all were refused |
| SeedEncoder.FindSeed | cda-bootstrap-node/internal/engine/rlnc_encoder.go:147-172 | the retry loop yields the first accepted attempt |
| SeedEncoder.EncodeSeeds | cda-bootstrap-node/internal/engine/rlnc_encoder.go:94-172 | the whole selection loop, with a reset at every k-th seed |
| SeedEncoder.GroupIndependent | cda-bootstrap-node/internal/engine/rlnc_encoder.go:138-172 | in every finished run each group of k consecutive seeds is independent, and whole groups have full rank |
| SeedEncoder.FallbackTerminates | cda-bootstrap-node/internal/engine/rlnc_encoder.go:153-172 | with a failing random source the loop ends, with the exact attempts of every seed |
| SeedEncoder.FallbackBound | cda-bootstrap-node/internal/engine/rlnc_encoder.go:161-167 | at most 51 attempts for every seed iff no group has 1052 seeds |
| CustodyStore.Store.StorePiece | cda-store-node/internal/storage/custody.go:139-178 | appends to its cell, keeps the cached count right, adds one piece in total |
| CustodyStore.Store.CacheCount | cda-store-node/internal/storage/custody.go:305-307 | the third section of a look-up; the cache stays right iff the number is still that of the pieces |
| CustodyStore.Store.GetPieceCount | cda-store-node/internal/storage/custody.go:291-338 | the three sections with nothing in between: the cached or else the counted number, with a right cache that of the raw pieces |
| CustodyStore.Store.StoreRecodedPiece | cda-store-node/internal/storage/custody.go:217-236 | replaces the recoded piece of its cell, with the change in the total |
| CustodyStore.Store.DeleteRecodedPieces | cda-store-node/internal/storage/custody.go:238-252 | drops the recoded piece of its cell only |
| CustodyStore.Store.GetTotalPiecesForCell | cda-store-node/internal/storage/custody.go:341-345 | raw plus recoded pieces of the cell |
| CustodyStore.Store.GetTotalPieceCount | cda-store-node/internal/storage/custody.go:347-385 | the sum over all cells |
| CustodyStore.Store.PruneRawPieces | cda-store-node/internal/storage/custody.go:519-587 | no raw and one recoded piece left of a cell that had any, with the change in the total |
| CustodyStore.SumReplaced | cda-store-node/internal/storage/custody.go:347-385 | changing one cell changes the total by the difference of its sizes |
| CellMachine.StepInv | cda-store-node/internal/p2p/receiver.go:1691-1915 | every section keeps the invariant of the cell, whatever ran before |
| CellMachine.RunInv | cda-store-node/internal/p2p/receiver.go:1691-1915 | the invariant holds in every reachable state and interleaving |
| CellMachine.SuffixAdmissible | cda-store-node/internal/p2p/receiver.go:1717-1742 | pieces that passed the test one after the other stay so when a concurrent prune drops the first of them |
| CellMachine.AdmissibleRank | cda-store-node/internal/engine/rank_check.go:105-124 | the rank of pieces that passed the test one after the other is their number, less a malformed first |
| CellMachine.RawRank | cda-store-node/internal/p2p/receiver.go:1826-1860 | in every reachable state the raw pieces count as their rank iff the first is well-formed, and then there are at most k, and k of them iff they decode |
| CellMachine.MalformedFirstPiece | cda-store-node/internal/engine/rank_check.go:106-114 | a run in which a cell counts k pieces of rank below k |
| CellMachine.LockedHoldsOne | cda-store-node/internal/p2p/receiver.go:3641-3656 | in every reachable state a locked non-custody cell holds a piece and the completion check brings it to exactly one |
| CellMachine.PruneLeavesOne | cda-store-node/internal/storage/custody.go:519-587 | pruning a non-empty cell leaves no raw and exactly one recoded piece: the one that was there, else what two or more raw pieces recode to, else the first of them |
| CellMachine.ReportsAnyRecode | cda-store-node/internal/p2p/receiver.go:3641-3656 | the check's report does not depend on what its own recoding yields |
| CellMachine.ReportStable | cda-store-node/internal/p2p/receiver.go:3591-3666 | a reported cell is reported after the next section iff that section is not a stray store |
| CellMachine.SectionsKeepReport | cda-store-node/internal/p2p/receiver.go:3078-3120 | whole ingests and batch fetches never take back a report; a pull does exactly on an unpublished backup cell |
| CellMachine.BlockRunInv | cda-store-node/internal/p2p/receiver.go:1691-1915 | every state a block reaches keeps the invariant in each of its cells |
| CellMachine.CompletionStable | cda-store-node/internal/p2p/receiver.go:3591-3666 | whatever has happened to a block, once reported it stays reported throughout all that follows iff nothing that follows is a stray store |
| CellMachine.StrayStoreReachable | cda-store-node/internal/p2p/receiver.go:3078-3120 | a run in which an active pull takes a report back |
| CellMachine.OvertakenIngest | cda-store-node/internal/p2p/receiver.go:1817-1860 | a run in which an ingest overtaken by the pruner does |
| CellMachine.CleanupSteady | cda-store-node/internal/p2p/receiver.go:3895-3931 | the final sweep keeps the report and leaves raw pieces only on native cells and one recoded piece on all others |
| SectionEffects.IngestGains | cda-store-node/internal/p2p/receiver.go:1700-1874 | ingest passes by locked outsiders, pruned backups and full native cells; it stores pieces of the batch, in a native cell up to k, records just their sources, and leaves no piece of the batch that is independent of those held |
| SectionEffects.FetchGains | cda-store-node/internal/p2p/receiver.go:2567-2774 | a batch fetch does the same, but passes by published backups too |
| SectionEffects.SettleLocks | cda-store-node/internal/p2p/receiver.go:1749-1811 | after an outsider's ingest, whatever ran meanwhile, the cell is locked iff there are pieces and the fast way is on or two pieces from two sources are in, with the exceptions for one piece and one custodian; else it waits |
| SectionEffects.IngestLocks | cda-store-node/internal/p2p/receiver.go:1691-1813 | the same of a whole ingest, in the pieces and sources it leaves |
| SectionEffects.OneSourceWaits | cda-store-node/internal/p2p/receiver.go:1757-1811 | pieces of a single source never lock a cell of two or more pieces that other than one store keeps: it is pending |
| SectionEffects.TwoSourcesLock | cda-store-node/internal/p2p/receiver.go:1749-1770 | two pieces and two sources lock it |
| SectionEffects.IngestTouches | cda-store-node/internal/p2p/receiver.go:1862-1874 | a batch that adds to a cell of our custody makes it active unless it was pruned |
| SectionEffects.PullStores | cda-store-node/internal/p2p/receiver.go:3078-3120 | an active pull stores its piece iff it is independent of those held, whatever the flags |
| SectionEffects.ReportsInWords | cda-store-node/internal/p2p/receiver.go:3591-3666 | what the completion check reports of each kind of cell, in its pieces, count and flags |
| PruneSections.SectionsRefineWhole | cda-store-node/internal/storage/custody.go:519-587 | with prunes in two sections, interleaved with all others, raw pieces, flags and report are those of a run with one-step prunes, but while the only recoded piece is in hand; the report then, exactly |
| PruneSections.ReportOutlivesPrunes | cda-store-node/internal/p2p/receiver.go:3591-3666 | without a stray store, a cell once reported is reported later iff its only recoded piece is not in hand or what has come in since suffices |
| PruneSections.BlockOutlivesPrunes | cda-store-node/internal/p2p/receiver.go:3591-3666 | the same for all cells of a block |
| PruneSections.LockedHoldsOrInHand | cda-store-node/internal/p2p/receiver.go:1772-1811 | at every moment a locked non-custody cell holds a piece or a prune has it in hand |
| PruneSections.LockedSeenEmpty | cda-store-node/internal/p2p/receiver.go:3921-3924 | a run in which a check before the final sweep reports a locked cell and one within its prune finds it empty |
| PruneSections.AloneIsWhole | cda-store-node/internal/storage/custody.go:519-587 | an uninterrupted prune, on any of its paths, is the one-step prune |
| CountSections.RunTicksInv | cda-store-node/internal/storage/custody.go:291-338 | with look-ups of the count in three sections the invariant of the cell holds in every reachable state, and the numbers on their way are bounded by the pieces |
| CountSections.CountRight | cda-store-node/internal/storage/custody.go:291-309 | over a whole run the cached count is right at all times iff no write is stale |
| CountSections.ReadIsRight | cda-store-node/internal/storage/custody.go:301-308 | a number read is right, and stays so until a store or prune caches another |
| CountSections.FewerToCome | cda-store-node/internal/storage/custody.go:294-299 | once a count is cached the look-ups that may still write only grow fewer |
| CountSections.RightReports | cda-store-node/internal/p2p/receiver.go:3613-3659 | with a right count the check reports a cell iff the one-step machine does |
| CountSections.TickStable | cda-store-node/internal/p2p/receiver.go:3613-3659 | whatever the cached count, a reported cell is reported after the next event iff that is no stray store and no losing write |
| CountSections.CountedCompletionStable | cda-store-node/internal/p2p/receiver.go:3591-3666 | a block reported by its counts stays so throughout iff nothing that follows is one of these |
| CountSections.NeverCorrected | cda-store-node/internal/p2p/receiver.go:1826-1860 | a full native cell whose cached count is below k, with no look-up on its way, is not reported ever after |
| CountSections.StaleCountReachable | cda-store-node/internal/storage/custody.go:301-308 | a run in which a stale count takes the report on a native cell back for good |
| Receiver.EvalCustody | cda-store-node/internal/p2p/receiver.go:383-400 | in a column of at most k active stores, as announced or else as known, the role of a custodian is native; in any other it is the usual one |
| Receiver.OneOwner | cda-store-node/internal/p2p/receiver.go:3593-3607 | the cells the sweeps go over: all rows of the data columns whose quotient by the width of a network column is the node's; so each data column has one owner |
| Receiver.StoreNode.constructor | cda-store-node/internal/p2p/receiver.go:245-262 | every cell starts empty and the node valid |
| Receiver.StoreNode.StoreIndependent | cda-store-node/internal/p2p/receiver.go:1838-1860 | the storing loop is the machine's run over the batch, other cells untouched |
| Receiver.StoreNode.LockOrPend | cda-store-node/internal/p2p/receiver.go:1749-1813 | locks the cell on any piece when the fast way is on, else on two pieces from two sources, one piece being enough when k is one and one source when k or the number of custodians is one; or marks it pending |
| Receiver.StoreNode.IngestCell | cda-store-node/internal/p2p/receiver.go:1691-1874 | one cell of a verified batch, with the pieces to recode iff the cell was locked just now; SectionEffects.IngestLocks says when that is |
| Receiver.StoreNode.FetchCell | cda-store-node/internal/p2p/receiver.go:2567-2774 | one cell of a batch fetch |
| Receiver.StoreNode.PullPiece | cda-store-node/internal/p2p/receiver.go:3096-3110 | one piece of an active pull |
| Receiver.StoreNode.FlushRecoded | cda-store-node/internal/p2p/receiver.go:1963-1971 | a recoded piece takes the place of the raw ones, and the flags that follow |
| Receiver.StoreNode.CountBroadcasts | cda-store-node/internal/p2p/receiver.go:2115-2118 | counts published pieces |
| Receiver.StoreNode.RetainPiece | cda-store-node/internal/p2p/receiver.go:2120-2126 | a backup cell retains one recoded piece beside its raw ones |
| Receiver.StoreNode.FinishPull | cda-store-node/internal/p2p/receiver.go:3173-3182 | the prune that ends an active pull of a backup cell |
| Receiver.StoreNode.SweepPending | cda-store-node/internal/p2p/receiver.go:3728-3741 | the fallback sweep locks exactly the due waiting cells and forgets the locked ones |
| Receiver.StoreNode.PruneIdle | cda-store-node/internal/p2p/receiver.go:4053-4105 | the pruner's treatment of an idle cell |
| Receiver.StoreNode.DiagnoseCompletion | cda-store-node/internal/p2p/receiver.go:3591-3666 | true iff every cell of the node's columns is reported; changes nothing but to prune locked outsiders |
| Receiver.StoreNode.CleanUpBlock | cda-store-node/internal/p2p/receiver.go:3897-3931 | the final sweep over the node's columns |
| Receiver.SectionsAreRuns | cda-store-node/internal/p2p/receiver.go:1691-1874 | the storing methods are runs of the cell machine |
| CustodyMap.GetActiveColumnStores | cda-p2p/common.go:229-245 | the sorted first occurrences of peers with a row |
| CustodyMap.ActiveIgnoresOrder | cda-p2p/common.go:229-245 | for distinct identifiers only the set of peers matters |
| CustodyMap.ActiveIdempotent | cda-p2p/common.go:229-245 | applying the filter twice changes nothing |
| CustodyMap.ComputeColumnCustodyMap | cda-p2p/common.go:254-324 | the map sends each net row to Holders and has no other key |
| CustodyMap.NoOrphans | cda-p2p/common.go:254-324 | every row has distinct active holders: its own members if two or more, else exactly two with the own member first; with one active store, that store |
| CustodyMap.BorrowedNearest | cda-p2p/common.go:282-319 | a borrowed holder sits in the nearest non-empty row |
| CustodyHolders.ActiveFirsts | cda-p2p/common.go:229-238 | an active store is the first peer in the list with its identifier that has a row and an identifier |
| CustodyHolders.ActiveInOrder | cda-p2p/common.go:239-244 | active stores come by row, then by identifier |
| CustodyHolders.LexInWords | cda-p2p/common.go:243 | one identifier comes before another iff it is a proper prefix or smaller at the first difference |
| CustodyHolders.ManyHold | cda-p2p/common.go:275-280 | a row of two or more members is held by all of them in order |
| CustodyHolders.OneBorrows | cda-p2p/common.go:282-303 | a row t of one member is held by it and, of the stores of the nearest row that has any, o places on, the one at place t + o modulo their number |
| CustodyHolders.LoadIsSpread | cda-p2p/common.go:289-298 | two rows of one member that borrow from one row get the same store iff their places agree modulo the number of its stores |
| CustodyHolders.EmptyRowBorrows | cda-p2p/common.go:305-319 | an empty row is held by the two nearest stores after it, by row and then by order, or the only one |
| CustodyMap.SnapshotCanonical | cda-bootstrap-node/internal/p2p/receiver.go:329-344 | the double filter and the iteration order of a Go map leave the custody map unchanged |
| CustodyRoles.EvaluateNodeCustodyForRow | cda-p2p/common.go:357-387 | the loop computes Evaluate, for negative rows and row counts too |
| CustodyRoles.GetNodeCustodyNetRows | cda-p2p/common.go:390-413 | the loop computes CustodyRows |
| CustodyRoles.RoleInMap | cda-p2p/common.go:357-380 | the role under a map, read off the list of the row's holders |
| CustodyRoles.RoleWithoutMap | cda-p2p/common.go:382-386 | the role without a map, in remainders |
| CustodyRoles.CustodianOfItsRows | cda-p2p/common.go:357-413 | custodian of a data row iff its net row is listed, in the map and the fallback branch, with the exact exception |
| CustodyRoles.NativeExactly | cda-p2p/common.go:357-387 | the stores with native retention of a row are its own members, or the first borrower of an empty row |
| CustodyRoles.NativeCount | cda-p2p/common.go:357-387 | each net row has exactly max(1, cell size) native holders |
| CustodyRoles.FallbackMatchesMap | cda-p2p/common.go:382-386 | with one store in each of two or more rows the fallback gives the map's triple |
| SeedingPlan.PlanCovers | cda-p2p/common.go:330-351 | shares cover the pool, recodes cover the cell with one to spare per peer, and neither is larger than needed; two peers and four pieces stand in for missing numbers |
| SeedingPlan.CustodyPeersFacts | cda-bootstrap-node/internal/p2p/receiver.go:905-918 | a cell has distinct custody peers, and some as soon as the column has an active store |
| SeedingPlan.BlocksConsecutive | cda-bootstrap-node/internal/p2p/receiver.go:905-930 | each piece of the pool goes to exactly the custody peer in whose block of one share it lies, the blocks following the order of the peers without wrap-around |
| SeedingPlan.TwoPeersFullRank | cda-bootstrap-node/internal/p2p/receiver.go:905-930 | with two custody peers and k at least two, each is sent exactly one full-rank group of the encoder |
| Publisher.GuardAdmits | cda-publisher-node/internal/service/api.go:307-331 | what the active-column guard lets in |
| Publisher.GuardExact | cda-publisher-node/internal/service/api.go:307-331 | it is exact iff network columns are one data column wide |
| ReportNumbers.ReportLetIn | cda-publisher-node/internal/service/api.go:307-367 | a report is counted iff its network column lies below the expected columns times their width, with the defaults for every missing number |
| ReportNumbers.ReportCounts | cda-publisher-node/internal/service/api.go:395-417 | it adds its rows, modulo the rows it names, and its peer or row name, to its own column alone |
| ReportNumbers.ReportMakesReady | cda-publisher-node/internal/service/api.go:369-461 | its column is ready after it iff it was or the covered rows and the stores heard of reach their shares of the report's own numbers, with their defaults |
| ReportNumbers.ReportAnnouncesBlock | cda-publisher-node/internal/service/api.go:475-477 | it announces its block iff the expected number of columns is ready for the first time |
| ReportNumbers.MarkCounts | cda-publisher-node/internal/service/api.go:637-647 | a monitor's mark adds one row and its name to one column |
| ReportNumbers.TickInNumbers | cda-publisher-node/internal/service/api.go:175-211 | when a tick announces a block in flight, and when it drops it, in heights, times and stores |
| ReportNumbers.TickElsewhere | cda-publisher-node/internal/service/api.go:166-223 | a tick leaves everything else alone, and empties the pipeline when every height is completed |
| ReportNumbers.AnnouncementLeaves | cda-publisher-node/internal/service/api.go:488-513 | just which blocks an announcement leaves in flight, and the heights |
| Publisher.StepPipeline | cda-publisher-node/internal/service/api.go:166-223 | every section keeps count equal to blocks in flight within the limit and completed below published, both non-decreasing |
| Publisher.RunPipeline | cda-publisher-node/internal/service/api.go:488-513 | the same over all runs |
| Publisher.AnnouncedLeavesPipeline | cda-publisher-node/internal/service/api.go:488-513 | after an announcement neither the block nor any of height 1 up to its own is in flight |
| Publisher.StepStaysClear | cda-publisher-node/internal/service/api.go:931-955 | and a further section keeps it so iff it does not let one of them in again |
| Publisher.ClearUntilReadmitted | cda-publisher-node/internal/service/api.go:488-513 | so it stays through any events until then |
| Publisher.RowNamesDistinct | cda-publisher-node/internal/service/api.go:411-416 | reports without a peer identifier are counted apart by their rows |
| Publisher.StepAnnounces | cda-publisher-node/internal/service/api.go:475-483 | a step announces only blocks never announced, justified when it does |
| Publisher.RunAnnounces | cda-publisher-node/internal/service/api.go:427-483 | over all runs no block is announced twice, and every announcement is justified then and later, each ready column by the quorums one of its reports asked for |
| Publisher.Grounds | cda-publisher-node/internal/service/api.go:186-211 | the justification in the reports' and settings' own numbers: two thirds of rows and stores, the configured number or all, in enough columns, or three quarters of the stores on column 0 |
| Publisher.QuorumsOverlap | cda-publisher-node/internal/service/api.go:427-433 | any two sets of two thirds of the rows share a third of the rows |
| Publisher.ReadyColumnsShareRows | cda-publisher-node/internal/service/api.go:395-403 | over all runs in which a block's reports agree on its rows, any two ready columns have a third of the rows in common |
| Publisher.APIService.constructor | cda-publisher-node/internal/service/api.go:114-135 | the empty state |
| Publisher.APIService.HandleStoreReady | cda-publisher-node/internal/service/api.go:337-483 | a report's section is one step of the machine; ReportNumbers says which |
| Publisher.APIService.MarkDone | cda-publisher-node/internal/service/api.go:637-647 | so is a monitor's mark |
| Publisher.APIService.BroadcastBlockReady | cda-publisher-node/internal/service/api.go:488-513 | so is an announcement, with its loop over the blocks in flight |
| Publisher.APIService.ReconcileTick | cda-publisher-node/internal/service/api.go:166-223 | so is the reconciliation tick, in any order of the map |
| Publisher.APIService.AdmitBlock | cda-publisher-node/internal/service/api.go:927-955 | admits iff fewer than the limit are in flight |
| Publisher.APIService.WithdrawBlock | cda-publisher-node/internal/service/api.go:957-970 | a failed publication leaves the pipeline |
| Publisher.APIService.BeginBlock | cda-publisher-node/internal/service/api.go:1047-1054 | the start of a block's distribution |
| BlockBarrier.StepCore | cda-bootstrap-node/internal/p2p/receiver.go:426-530 | in every step an undispatched batch stands for its block, and removals are due exactly for dispatched ones |
| BlockBarrier.RemovalIsSafe | cda-bootstrap-node/internal/p2p/receiver.go:521-527 | the 30 second removal only takes away the dispatched batch that asked for it |
| BlockBarrier.StepMoves | cda-bootstrap-node/internal/p2p/receiver.go:472-529 | where a stored column goes in each step |
| BlockBarrier.ProcessedOnce | cda-bootstrap-node/internal/p2p/receiver.go:426-530 | over all interleavings every stored column is in exactly one run, or waiting in one batch, or overwritten there |
| BlockBarrier.DriveLost | cda-bootstrap-node/internal/p2p/receiver.go:498-512 | a waiting batch is left undriven exactly by a flush that finds it empty |
| BlockBarrier.DrivenThroughout | cda-bootstrap-node/internal/p2p/receiver.go:426-530 | over a whole run every waiting batch has a timer or flush to come at all times iff no flush finds its batch empty with nothing else to come |
| BlockBarrier.StrandedStays | cda-bootstrap-node/internal/p2p/receiver.go:463-491 | an undriven batch waits until another column joins its block or fills it |
| BlockBarrier.FirstColumnStranded | cda-bootstrap-node/internal/p2p/receiver.go:445-491 | such a run |
| FullBatches.BarrierHolds | cda-bootstrap-node/internal/p2p/receiver.go:426-530 | over a whole run, no batch with fewer than its expected columns is wanted, held by a flush or dispatched iff no timer runs out early and no block gets a new batch while an old flush of it is still to come |
| FullBatches.FullUntilRemoved | cda-bootstrap-node/internal/p2p/receiver.go:486-530 | so a run without timers and removals flushes full batches only |
| FullBatches.FullIsFlushed | cda-bootstrap-node/internal/p2p/receiver.go:486-494 | in every run a full batch is wanted or held by a flush until it is dispatched |
| FullBatches.StaleFlush | cda-bootstrap-node/internal/p2p/receiver.go:498-529 | a run without timers that flushes one column of two expected |
| BlockBarrier.PendingBatch.StoreColumn | cda-bootstrap-node/internal/p2p/receiver.go:472-487 | late columns go alone, others into the batch; a flush is asked for, and the timer stopped, iff that makes the expected number of columns |
| BlockBarrier.PendingBatch.Take | cda-bootstrap-node/internal/p2p/receiver.go:507-519 | a batch's columns are taken once |
| BlockBarrier.Aggregator.BeginColumn | cda-bootstrap-node/internal/p2p/receiver.go:444-470 | finds the block's batch as it is or makes an empty one with the expected number of columns, and starts its timer again |
| BlockBarrier.Aggregator.StoreColumn | cda-bootstrap-node/internal/p2p/receiver.go:472-491 | the second section, as a step on the one batch, and when it asks for a flush |
| BlockBarrier.Aggregator.FindBatch | cda-bootstrap-node/internal/p2p/receiver.go:498-505 | the flush's look-up |
| BlockBarrier.Aggregator.DispatchBatch | cda-bootstrap-node/internal/p2p/receiver.go:507-519 | the flush's second section |
| BlockBarrier.Aggregator.RemoveBatch | cda-bootstrap-node/internal/p2p/receiver.go:523-527 | the removal |
| BatchCodec.Writer.WriteBinaryBatchSeed | cda-p2p/binary_codec.go:54-156 | what is on the stream with or without an error; an error iff the block or sender name is too long |
| BatchCodec.ReadBinaryBatchSeed | cda-p2p/binary_codec.go:159-287 | reads one message off the front of the stream or fails |
| BatchCodec.RoundTrip | cda-p2p/binary_codec.go:54-287 | for every request within limits and every suffix, reading returns the request and leaves the suffix |
| BatchCodec.RoundTripExactly | cda-p2p/binary_codec.go:54-287 | and for no other request |
| BatchCodec.DecodeFront | cda-p2p/binary_codec.go:159-287 | the reader accepts nothing but the bytes of one message within limits |
| BatchCodec.PrefixFree | cda-p2p/binary_codec.go:54-156 | no message is the beginning of another |
| BatchCodec.CutShort | cda-p2p/binary_codec.go:159-287 | a message cut short anywhere is refused |
| BatchCodec.StreamInOrder | cda-p2p/binary_codec.go:54-287 | any sequence of messages on a stream is read back in order |
| Wire.ManyLaw | cda-p2p/binary_codec.go:90-150 | a counted list of lawful items round-trips in front of any suffix |
| Wire.ManyFront | cda-p2p/binary_codec.go:203-278 | and is the only thing its reader accepts |
| WireLayout.RequestLayout | cda-p2p/binary_codec.go:54-88 | the place of each field at the head of a request |
| WireLayout.ListsLayout | cda-p2p/binary_codec.go:90-122 | and of its lists |
| WireLayout.CommitLayout | cda-p2p/binary_codec.go:95-106 | a commitment follows its length, and is left out when that is a multiple of 65536 |
| WireLayout.SeedLayout | cda-p2p/binary_codec.go:114-152 | the place of each field of a seed |
| WireLayout.RefusedLayout | cda-p2p/binary_codec.go:60-84 | what is on the stream of a request that is refused |
| WireLayout.ManyInOrder | cda-p2p/binary_codec.go:95-152 | lists are written item by item in order |
| WireLayout.GossipLayout | cda-p2p/binary_codec.go:351-393 | the place of each field of a gossip piece |
| GossipCodec.EncodeBinaryGossipPiece | cda-p2p/binary_codec.go:351-393 | the buffer filled through a moving index is the encoding |
| GossipCodec.DecodeBinaryGossipPiece | cda-p2p/binary_codec.go:396-475 | the cursor never leaves the input, and the outcome is that of the format |
| GossipCodec.RoundTripExactly | cda-p2p/binary_codec.go:351-475 | a piece round-trips iff its fields fit and the bytes are at least 13; the shortest encoding has 12 |
| GossipCodec.DecodeFront | cda-p2p/binary_codec.go:396-475 | the decoder reads a body from the front and nothing else |
| GossipCodec.CutShort | cda-p2p/binary_codec.go:457-464 | a message cut short is refused, unless only its sender is cut, which is then empty |
| StreamPool.StepInv | cda-bootstrap-node/internal/p2p/broadcaster.go:372-444 | every step keeps the accounts and the exclusive use of streams |
| StreamPool.RunInv | cda-bootstrap-node/internal/p2p/broadcaster.go:322-444 | over all runs the count is within the limit, equals idle plus held plus dialing streams until closing and never less after, and no stream is in two hands |
| StreamPool.NeverOverflows | cda-bootstrap-node/internal/p2p/broadcaster.go:434-443 | the overflow branch of a release is never taken |
| StreamPool.DialsWhenever | cda-bootstrap-node/internal/p2p/broadcaster.go:379-392 | over all runs, until closing, a sender without an idle stream dials iff fewer than the limit are open or being opened |
| StreamPool.ReturnsLast | cda-bootstrap-node/internal/p2p/broadcaster.go:434-443 | where a returned stream goes |
| StreamPool.PeerStreamPool.Receive | cda-bootstrap-node/internal/p2p/broadcaster.go:373-377 | takes the oldest idle stream if there is one |
| StreamPool.PeerStreamPool.Reserve | cda-bootstrap-node/internal/p2p/broadcaster.go:379-392 | counts a dial iff there is room |
| StreamPool.PeerStreamPool.GiveBack | cda-bootstrap-node/internal/p2p/broadcaster.go:434-443 | puts the stream back iff there is room |

## Left out

- Commitments, opening proofs, pairings and recoding: verification is what filters a batch before it reaches the model,
  and a recoding attempt is an outcome the model does not predict; `rlnc-rsmt2d` is not part of this model.
- The primality of the scalar field's modulus: everything is proved for an arbitrary prime above 65535.
- Persistence in BadgerDB and its write goroutines: only the in-memory maps are modelled.
- Time: timers, deadlines and timeouts are events that may happen whenever they are armed or due sets passed in.
- Parsing of environment variables, metrics, logging and transport: quorum rule, limits and numbers of stores are
  settings.
- Routing changes during a run: roles are computed from a fixed routing state. Key strings are tuples, so two cells
  never share a key.
- CellMachine.CompletionStable: takes a recode-and-flush, a prune and a look-up of the count as one step each.
  PruneSections.BlockOutlivesPrunes has prunes in two, CountSections.CountedCompletionStable look-ups in three; there is
  no machine with both. The pruned flag that ends a pull or a sweep is set with the first section of its prune.
- CellMachine.ReportStable: likewise.
- PruneSections.SectionsRefineWhole: allows more interleavings than there are, as two completion checks exclude each
  other and so do all prunes that hold the cell's lock.
- The methods of Receiver.StoreNode run without a look-up of the count between their sections, so that the cached counts
  are right; what such look-ups add is in CountSections.
- Receiver.StoreNode.DiagnoseCompletion: is given the size of the block, which the node may have to ask the publisher for.
- Receiver.StoreNode.CleanUpBlock: likewise.
- BlockBarrier.Aggregator.BeginColumn: is given the expected number of columns, which the node takes to be the size of
  the block by the number of network columns.
- Publisher.APIService.HandleStoreReady: leaves out the full-custody flag, which only feeds the log and the monitor.
- Publisher.APIService.AdmitBlock: is one look at the gate; a publication that waits looks again until it gives up.
- Probability: the random source of the encoder is a given list of draws, any of which may fail.
- The dissemination flag and quotas and the requests of an active pull: they decide which events occur, not what an
  event does.
- The renumbering of colliding direct publishes, rejected blocks and the full-custody log of the publisher.
- A flush schedules its delayed removal in the step that dispatches the batch, not in one of its own.
- The completion gate of the second phase: a comparison of heights and a bounded wait.
- The batch response message, one flag and one length-prefixed string: it would only add an easy round trip.
- Failing writers and readers of the network: a stream is the bytes it carries.
