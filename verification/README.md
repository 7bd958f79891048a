# Verification of the shard router

A Dafny model of the Go shard router for Postgres (`internal/shard`, `cmd/shardctl`), with proofs of
what its protocols and algorithms guarantee. Everything behind pgx is replaced by per-shard tables
(maps and sets) and by statements that may run, may not run, or may run and still report an error.
Concurrency is a step machine: the environment chooses which step comes next, and a theorem about
"every run" quantifies over every sequence of steps.

| file | what it holds |
|---|---|
| `Common`, `Sums`, `Bits` | optional values and int64; finite sums, sorted and arbitrary listings of sets; xor, or and shifts on naturals |
| `Outbox`, `OutboxProtocol`, `OutboxRelay` | the outbox transfer as code, as a concurrent protocol refining atomic transfers, and what relay passes achieve |
| `Directory` | the placement map: routing, windows, pins, range tables, splitting, the fit check |
| `Orders`, `OrderAudit` | the cluster object, `Insert`, `Seed`, `Misplaced`, and what they promise together |
| `Migration`, `MigrationGuard` | the online move of one logical shard with several routers, inserts in flight and a backfill; what starting the backfill too early can lose, and that a guarded move can be carried through |
| `Keyset`, `KeysetWalk`, `CursorCodec` | merge and page, also in plain numbers, the walk over changing data, the cursor text |
| `TwoPhase`, `TwoPhaseSafety`, `TwoPhaseMoney`, `TwoPhaseDo` | two-phase commit as a step machine, its guarantees, its accounting, and `Do`, `Orphans` and the resolving loop as methods |
| `TwoPhaseTransfer` | the transfer command by two-phase commit, account by account |
| `TwoPhaseOrphans`, `TwoPhaseOrphanMoney` | what rolling orphans back without asking whose they are does in later runs, to atomicity and to money |
| `Hash`, `ModN`, `Ring` | FNV-1a over eight bytes, the ring position, mod-N balance, consistent hashing |
| `HashGolden`, `RingGolden` | anchors for the constants: the published hash values and the ring positions that follow from them |
| `Snowflake` | id generation over arbitrary clock readings |
| `Scatter`, `StateCounts` | the bounded fan-out as a step machine, its sorted answer, the merged counts |

An operation is stated twice where that helps: by a specification function, which the theorems about runs
use, and in plain terms (ledger rows, columns, timestamps, leg statuses, answers), which fixes what that
function is.

Assumptions that the code also makes are hypotheses of the theorems, not of the functions:

- An outbox event id is new at its target shard across all sources. `outbox.id` is unique per source
  only, while `applied.event_id` dedupes per target; `OutboxProtocol.FreshIffAtomic` shows that the
  hypothesis is exactly what atomicity needs, and `SharedIdLosesCredit` what happens without it.
- An order id belongs to one order (a retry sends the same one), and keys of the feed are distinct
  where a theorem says so. No page of the feed ends on the zero time, which as a cursor means "first
  page"; `KeysetWalk.StillWalkEndsIff` shows that over still data the walk ends exactly then.
- A generator never makes a clock-went-backwards call while its sequence is at 4095 or past it; that
  branch has no ceiling in the code. `Snowflake.DecodesIffNoOverflow` shows that exactly these calls
  issue ids that do not decode, and `Snowflake.DistinctIffNoOverflow` that a generator of an odd shard
  issues distinct ids exactly without them.
- A ring's shards have no two shards at one position. For at most 256 virtual nodes and shard numbers
  that share all but their low byte (0 to 255, say) this is proved; beyond that it stays a hypothesis.
- The gid of a two-phase commit is new on every shard (the command takes it from the clock).
- A transfer by two-phase commit conserves money exactly under the condition stated in
  `TwoPhaseMoney.TransferBalancesIff`: the debit ignores an UPDATE that matches no row, and the credit
  leg is left out when both tenants share a shard.
- Amounts are int64 values, which Postgres enforces, where a theorem needs some later transaction to fit
  a balance (`AmountsFit` in `TwoPhaseOrphans`).

Where documentation and code disagree the model follows the code:
`labs/04-app-sharding-go/README.md:139-157` shows a ring whose shards receive nothing; `Ring.Add` and
`RouteRead` now pass through `ringPos` (`internal/shard/topology.go:102-114`), and that is what `Ring`
models. The comment above `ModN` says that doubling moves exactly half of the tenants; what holds is
exactly half of every whole aligned block of ids, which is `ModN.DoublingMovesHalf`. The comment above
`Misplaced` says that it counts the misplaced rows; its first query's row error is never read, so a
stream that breaks off gives an undercount without an error, and the exact count holds under the
condition of `Orders.SeenAtMost`. `shardctl orphans -resolve` rolls back every prepared transaction it
lists, also those of a coordinator still at work; `TwoPhaseOrphans` states when that is safe. `RouteRead` of
a ring sends the tenants with the lowest ids, below the number of virtual nodes, all to shard 0: their ids
are the keys of its virtual nodes, and both go through the same hash (`Ring.LowestTenantsShareShardZero`).

## Model

| member | source | states |
|---|---|---|
| Outbox.Store.Transfer | internal/shard/outbox.go:32-56 | row by row: the sender's balance goes down by the amount, which it must cover, and an undelivered outbox row under the new id appears, both or neither; a covered transfer within `bigint` succeeds exactly when its commit is answered, and a lost answer has committed |
| Outbox.Store.DeliverOne | internal/shard/outbox.go:97-132 | one event is applied and then marked; which of the two happened follows from the fates of the two transactions, and it reports success exactly when both were answered |
| Outbox.Store.RelayOnce | internal/shard/outbox.go:61-134 | an error-free pass delivers the whole batch in id order; an error at event k leaves the first k delivered and event k where the fates of its own two transactions put it |
| Outbox.ApplyIsPlain | internal/shard/outbox.go:97-121 | a delivery is refused exactly for a missing target or a credit out of range; otherwise it adds the amount to one ledger row and notes the id, or changes nothing if the id was noted |
| Outbox.MarkIsPlain | internal/shard/outbox.go:127-128 | marking sets one row's delivered flag and nothing else |
| Outbox.Batch | internal/shard/outbox.go:74-95 | the batch has min(batch, pending) rows, all pending, with their stored events |
| Outbox.BatchIsLowest | internal/shard/outbox.go:74-77 | the batch is in ascending id order and skips no pending id below one it holds |
| OutboxProtocol.TransferSettles | internal/shard/outbox.go:39-55 | a transfer commit moves both settled balances at once, except that an id already applied at the target loses the credit |
| OutboxProtocol.ApplySettles | internal/shard/outbox.go:105-121 | applying an event credits one tenant and cancels the claim of every row sharing its id and target |
| OutboxProtocol.MarkSettles | internal/shard/outbox.go:127-128 | setting or clearing the delivered mark moves no settled balance |
| OutboxProtocol.StepKeepsUnique | labs/04-app-sharding-go/schema.sql:41-61 | with ids fresh at their target, no two outbox rows anywhere ever share an id and a target |
| OutboxProtocol.StepKeepsDelivered | internal/shard/outbox.go:97-132 | every delivered row is applied at its target, after any step of any relay, crash or replay |
| OutboxProtocol.StepKeepsInv | internal/shard/outbox.go:32-134 | every step keeps the invariant that ties relays' batches held in memory to the rows they were read from |
| OutboxProtocol.StepRefines | internal/shard/outbox.go:32-134 | one step changes a tenant's settled balance exactly as an atomic transfer would, and only at a transfer commit |
| OutboxProtocol.RunRefines | internal/shard/outbox.go:58-134 | in every interleaving of transfers, concurrent relays, crashes and replays, settled balances are those of the transfers run atomically in commit order |
| OutboxProtocol.RunConserves | internal/shard/outbox.go:30-134 | the total of settled balances over any set of tenants closed under the transfers never changes |
| OutboxProtocol.StepSolvent | internal/shard/outbox.go:41-47 | with non-negative amounts no ledger row goes negative, and a committed transfer was covered by the settled balance |
| OutboxProtocol.FreshIffAtomic | labs/04-app-sharding-go/schema.sql:41-61 | a committed transfer of a nonzero amount settles atomically, now and when its rivals are applied, if and only if its id was fresh at the target |
| OutboxProtocol.SharedIdLosesCredit | labs/04-app-sharding-go/schema.sql:57-61 | of two rows sharing id and target, applying one destroys the other's credit |
| OutboxRelay.ApplyIdempotent | internal/shard/outbox.go:105-113 | once applied, applying the event again in any later state changes nothing |
| OutboxRelay.DeliverAllApplies | internal/shard/outbox.go:97-132 | every delivered event of a batch is applied at its target |
| OutboxRelay.DeliverAllEffect | internal/shard/outbox.go:97-132 | the first n deliveries mark exactly those n rows |
| OutboxRelay.DeliverAllSettles | internal/shard/outbox.go:97-132 | however many events of a batch are delivered, no settled balance moves |
| OutboxRelay.StoppedPassEffect | internal/shard/outbox.go:97-132 | a pass that stops at event k leaves exactly the first k, or k + 1, rows delivered |
| OutboxRelay.StoppedPassSettles | internal/shard/outbox.go:122-130 | a pass that stops anywhere, even between apply and mark, moves no settled balance |
| OutboxRelay.PassDeliversLowest | internal/shard/outbox.go:74-134 | an error-free pass delivers exactly the lowest min(batch, pending) ids |
| OutboxRelay.PassesDrain | internal/shard/outbox.go:58-61 | n error-free passes with no new transfers leave max(0, pending - n * batch) rows, so the outbox drains |
| OutboxRelay.PassesSettle | internal/shard/outbox.go:58-134 | draining moves no settled balance |
| OutboxRelay.ReplayChangesNothing | cmd/shardctl/main.go:662-678 | clearing the mark of any row and relaying without an error leaves every table on every shard as the same pass without the replay would have, whatever else is pending, as long as the batch reaches all of it |
| OutboxRelay.PassIsARun | internal/shard/outbox.go:74-131 | what the relay's loop has done after n events is what a run of the protocol does: one read, then apply and mark for each |
| OutboxProtocol.EnvironmentMoves | internal/shard/outbox.go:39-55 | any covered transfer under a new id, a crash of any relay and a replay of any row are always possible next steps |
| Directory.Directory.constructor | internal/shard/topology.go:161-179 | a new directory holds the range table, no window and no pin |
| Directory.Directory.BeginMove | internal/shard/topology.go:220-225 | sets the window of one logical shard and changes nothing else; the edit the routing theorems speak of |
| Directory.Directory.Commit | internal/shard/topology.go:231-236 | flips the placement and closes the window, and does nothing when no window is open |
| Directory.Directory.Pin | internal/shard/topology.go:240-245 | sets one tenant's pin and nothing else |
| Directory.Directory.LogicalsOn | internal/shard/topology.go:247-255 | lists, ascending, exactly the logical shards placed on the shard |
| Directory.Directory.SplitHalves | cmd/shardctl/main.go:238-245 | the in-place doubling leaves the first floor(half) of every range of the placement table and adds the old shard count to the others |
| Directory.OwnedBy | internal/shard/topology.go:247-255 | holds exactly the logical shards of one physical shard, in ascending order |
| Directory.OwnersPartition | internal/shard/topology.go:247-255 | every logical shard is listed under exactly one physical shard |
| Directory.WriteSetShape | internal/shard/topology.go:206-217 | a write set is the read shard first plus at most one other, without duplicates; two exactly for an unpinned tenant in an open window to another node |
| Directory.ReadsAreListed | internal/shard/topology.go:194-204 | a shard reads exactly the tenants pinned to it and the unpinned ones whose hash, modulo the number of logical shards, is in the list of the logical shards it owns |
| Directory.EditsKeepLogical | internal/shard/topology.go:194-245 | no sequence of edits changes any tenant's logical shard |
| Directory.EditMovesReadOnlyBy | internal/shard/topology.go:199-245 | a read route changes exactly at a pin of that tenant elsewhere or at the commit of its logical shard's window while it is unpinned |
| Directory.MoveChangesExactly | internal/shard/topology.go:199-236 | opening a window changes no read, committing it moves the reads of exactly the unpinned tenants of that logical shard, and inside it exactly they are dual-written |
| Directory.RangesAre | internal/shard/topology.go:168-177 | shard p owns exactly the logicals from p * per up to (p + 1) * per, the last shard all the rest |
| Directory.SplitPairsShards | cmd/shardctl/main.go:238-245 | when the shard count divides the logical count, the first floor(half) of each range stays and the rest moves to the paired new shard |
| Directory.CheckPlacementFits | cmd/shardctl/main.go:160-194 | accepts exactly the maps whose placements, window targets and pins are all below the shard count |
| Directory.AcceptedRoutesHavePools | cmd/shardctl/main.go:156-178 | no read or write route of an accepted directory lacks a pool |
| Orders.Cluster.SetTopology | internal/shard/cluster.go:98-102 | replaces the router's map and touches no table |
| Orders.Cluster.Shards | internal/shard/cluster.go:104-113 | the ids of all pools, strictly ascending |
| OrderAudit.ReadsOwnWrites | internal/shard/cluster.go:123-145 | the read pool is the first shard an insert of that tenant writes: right after an acknowledged insert the order is found there, column by column as sent if the id was new |
| Orders.Cluster.WritePools | internal/shard/cluster.go:134-145 | the whole write set, or the first of its shards that has no pool |
| Orders.Cluster.Insert | internal/shard/orders.go:19-37 | keeps every row; acknowledges exactly when every write shard has a pool and answers; leaves the order on every shard it reached whose statement ran; a row it adds holds tenant, total and state as sent, the hash modulo the logical count, and that shard's time |
| Orders.StepStores | internal/shard/orders.go:19-37 | the same for any call by the specification of Insert, which the audit and migration theorems use |
| Orders.WriteInOrder | internal/shard/orders.go:31-36 | after the loop each reached shard has its statement's effect and every other table is unchanged |
| Orders.Cluster.Misplaced | internal/shard/orders.go:209-251 | whatever tenants the first query of each shard delivered before its stream ended: without a reported failure a shard's number never exceeds its misplaced rows and equals them if and only if every wrong tenant with rows was delivered |
| Orders.CountMisplaced | internal/shard/orders.go:233-248 | counting by the distinct wrong tenants delivered counts each of their rows once; with no wrong tenant delivered the second query, and its failure, are skipped |
| Orders.SeenAtMost | internal/shard/orders.go:218-231 | the rows seen are some of the misplaced ones, and all of them if and only if no wrong tenant was missed |
| OrderAudit.TruncatedAuditReportsZero | internal/shard/orders.go:218-241 | a stream that breaks off before any wrong tenant makes the audit of a shard report zero without an error, whatever it holds |
| OrderAudit.MissedByTheAudit | internal/shard/orders.go:218-241 | a concrete shard with a misplaced row for which that happens |
| Orders.Cluster.Seed | internal/shard/orders.go:52-116 | each shard is untouched or holds its whole bucket, row k under the shard's k-th id; it fails only for a refused shard number, an error from the server or a duplicate id; the total returned is the number of rows added, less the bucket of a COPY that ran although its answer was an error |
| Orders.FillBuckets | internal/shard/orders.go:78-96 | the bucket maps filled tenant by tenant are those specified |
| Orders.CopyBuckets | internal/shard/orders.go:98-115 | copying bucket by bucket in map order, stopping at the first COPY that reports an error, run or not |
| Orders.CopyFirstFills | internal/shard/orders.go:104-111 | a COPY goes through exactly when its ids are new and distinct, and then stores every row under its own id |
| OrderAudit.InsertKeepsPlaced | internal/shard/orders.go:19-37 | an insert outside a window misplaces no row whatever the servers answer |
| OrderAudit.RunsKeepPlaced | internal/shard/orders.go:202-208 | with no window open and the map unchanged, no run of inserts makes the audit nonzero |
| OrderAudit.MisplacedIffDualWritten | internal/shard/orders.go:202-208 | an acknowledged order with a new id leaves the audit at zero if and only if it was not dual-written |
| OrderAudit.RetryConverges | internal/shard/orders.go:15-18 | retrying a failed insert until it is acknowledged leaves its id on every write shard and touches no row an earlier attempt wrote |
| OrderAudit.DualCopiesAgreeIffClocksDo | internal/shard/orders.go:26-35 | the two copies of a dual-written order differ at most in created_at, and agree exactly when both shards' now() did |
| OrderAudit.CutoverMisplacesExactly | internal/shard/orders.go:202-208 | after a cutover the audit reports exactly the moved tenants' rows still at the source, and no longer their copies at the target |
| OrderAudit.SeedKeepsPlaced | internal/shard/orders.go:78-96 | seeding, complete or cut short, misplaces nothing |
| OrderAudit.SeedTotalShortIff | internal/shard/orders.go:98-115 | a failed seed reports at most the rows it added, and exactly those if and only if the failing COPY did not run |
| OrderAudit.SeedBucketsHold | internal/shard/orders.go:78-96 | tenant by tenant, the shard it is read from gets its rows with the values drawn for it, 20 times as many for tenants 1 and 2, and no other shard gets any |
| OrderAudit.SeedLoadsEverything | internal/shard/orders.go:78-115 | a seed without an error adds perTenant * (tenants + 19 * min(tenants, 2)) rows |
| Migration.DirectoryRoutes | internal/shard/topology.go:194-236 | the directory before, inside and after a window routes as the machine assumes, for any logical shard without a window, and files tenants under their hash modulo the logical count |
| Migration.CallRunsLikeInsert | internal/shard/orders.go:31-36 | an insert of the machine that nothing interrupts writes what the loop of Insert writes |
| Migration.StepKeepsInv | docs/curriculum.md:326-339 | every step of routers, inserts and backfill keeps the move's invariant |
| Migration.StartCoversAcked | docs/curriculum.md:337-339 | every order acknowledged before the backfill starts is among the rows it copies |
| Migration.FinishReachesTarget | internal/shard/topology.go:211-215 | an insert acknowledged once the backfill has started has written the target |
| Migration.MovedOrdersAreAtTarget | internal/shard/topology.go:227-236 | in every run, once the backfill is complete the target holds every acknowledged order of every moving tenant, with the tenant, logical shard, total and state sent, in whatever order routers adopt the committed map |
| Migration.ReadsFindAcked | internal/shard/cluster.go:94-130 | at any point of any run a read finds every acknowledged order, except that a window-open router can miss orders written by committed-map routers |
| Migration.Drain | docs/curriculum.md:329-333 | a started backfill can always be completed, keeping the invariant |
| MigrationGuard.UnguardedStartLosesIff | docs/curriculum.md:326-339 | a backfill started with no regard to stale routers and calls can lose an acknowledged order in some later run if and only if a pre-window call carries, or a pre-window router can still be given, an order of a moving tenant that neither shard holds |
| MigrationGuard.StaleInsertIsLost | docs/curriculum.md:330-339 | the loss itself, as steps: after the copy, a pre-window insert of an order it did not list is acknowledged and never reaches the target |
| MigrationGuard.MoveCanComplete | docs/curriculum.md:326-339 | from any point before the backfill some run of the guarded machine brings every router to the committed map with every acknowledged order of a moving tenant at the target |
| Migration.OpenReadMissesCommittedWrite | internal/shard/topology.go:227-230 | the exception is real: a committed-map insert of a new id is invisible to every window-open router |
| Keyset.SortSorts | internal/shard/keyset.go:81-86 | the merge's sort yields the same rows newest first |
| Keyset.SortStable | internal/shard/keyset.go:81-86 | rows with equal keys keep their order |
| Keyset.MergeDesc | internal/shard/keyset.go:76-91 | returns the `limit` newest rows of all shards' rows: later times first, larger ids first among equal times, and no row left out newer than one returned |
| Keyset.MergeOfTops | internal/shard/keyset.go:66-91 | the top rows of every shard's own top rows are the top rows of the union of all rows |
| Keyset.TopKeysUnique | internal/shard/keyset.go:66-91 | two answers to one top query agree key by key |
| Keyset.PageRecent | internal/shard/keyset.go:94-157 | fails exactly on a failed shard or a negative limit; otherwise, in plain numbers, the page is at most `limit` rows of the shards, newest first, all strictly older than a nonzero cursor, with no admitted row left out that is newer than one on it, and the next cursor is its last row |
| Keyset.PageIsPlain | internal/shard/keyset.go:94-157 | the same of every page of the walk theorems |
| KeysetWalk.WalkPages | cmd/shardctl/main.go:457-483 | the page loop computes the specified walk |
| Keyset.PageIsTop | internal/shard/keyset.go:111-150 | a page is the newest `limit` of all rows below the cursor on any shard, although each shard answers its own newest only |
| KeysetWalk.ShardOrderIrrelevant | internal/shard/keyset.go:145-150 | the order in which shards are merged does not change the keys of a page |
| Keyset.LeftOutIsBelow | internal/shard/keyset.go:104-109 | an eligible row left off a page is not above the page's last row |
| KeysetWalk.WalkReturnsKey | internal/shard/keyset.go:94-157 | whatever happens to other rows between pages, the key of a row present throughout a finished walk is returned, distinct keys and nonzero timestamps or not |
| KeysetWalk.WalkStrictlyDescends | internal/shard/keyset.go:94-157 | all pages together are strictly descending although every shard of every page may answer at another instant |
| KeysetWalk.WalkReturnsExactlyOnce | internal/shard/keyset.go:94-157 | a finished walk returns every row that exists throughout it exactly once |
| KeysetWalk.CursorDescends | internal/shard/keyset.go:150-155 | cursors strictly descend from page to page even when two shards hold copies under one key |
| KeysetWalk.WalkTerminates | cmd/shardctl/main.go:457-483 | on data that stands still a walk ends within one page per row plus the empty page |
| KeysetWalk.StillWalkEndsIff | cmd/shardctl/main.go:457-483 | over still data and with time enough, the walk ends if and only if none of its pages ends on a zero timestamp |
| KeysetWalk.ZeroTimestampRestarts | internal/shard/keyset.go:119-123 | a page ending on a zero timestamp leads back to the first page |
| CursorCodec.Base64RoundTrip | internal/shard/keyset.go:28-40 | unpadded URL-safe base64 decodes back to the same bytes, for every byte string |
| CursorCodec.IntRoundTrip | internal/shard/keyset.go:29-52 | parsing inverts printing for every int64, and a printed integer has no colon |
| CursorCodec.CursorRoundTrip | internal/shard/keyset.go:28-54 | decoding inverts encoding for every int64 id and microsecond count, and no cursor encodes as the empty text that asks for the first page |
| CursorCodec.AcceptedCursorsReencode | internal/shard/keyset.go:33-54 | whatever text is accepted, the cursor it names encodes and decodes to itself |
| CursorCodec.BadBase64Iff | internal/shard/keyset.go:37-40 | a text is refused as base64 exactly when it holds a character outside the alphabet that is no line break, or one is left over after groups of four |
| CursorCodec.AlphabetCodes | internal/shard/keyset.go:28-31 | the alphabet of the URL-safe encoding, in character codes |
| CursorCodec.EncodesEpoch | internal/shard/keyset.go:28-31 | the cursor at row 0 of the epoch is the text MDow |
| CursorCodec.FormatIntStarts | internal/shard/keyset.go:29 | numbers are printed without a plus sign and without leading zeros |
| TwoPhase.StepFrame | internal/shard/txn.go:41-119 | a step of one transaction touches no other transaction's legs |
| TwoPhase.StepKeepsInv | internal/shard/txn.go:41-119 | every prepare, commit, rollback, death and uniform resolution keeps each transaction atomic and its coordinator's claims true |
| TwoPhaseDo.TwoPC.Prepare | internal/shard/txn.go:45-85 | leaves a prepared leg exactly when the statement ran and the server accepted the part (row free, balance in range), touching that shard only; any reported error, even after the server prepared, sends the coordinator into rollback |
| TwoPhaseDo.TwoPC.PhaseOne | internal/shard/txn.go:44-86 | prepares part after part in map order, stopping at the first error or death, by steps of the machine only |
| TwoPhaseDo.TwoPC.RollbackAll | internal/shard/txn.go:113-119 | every recorded leg that was prepared is aborted if its ROLLBACK ran, whatever was answered, and stays prepared if it did not; no other shard is touched |
| TwoPhaseDo.TwoPC.PhaseTwo | internal/shard/txn.go:96-110 | every leg whose COMMIT ran is committed and every other stays prepared; errors are collected instead of stopping |
| TwoPhaseDo.TwoPC.Do | internal/shard/txn.go:41-111 | takes only steps of the machine and leaves other transactions alone. After a phase-one error nothing committed, and a leg is still prepared exactly where a recorded leg's rollback did not run, and at the culprit if its PREPARE did. Otherwise every part prepared, and exactly the legs whose COMMIT ran are committed; success means all were answered. Ledgers move by their own part at its commit and not before. It fails only for a named part, a named commit, or a death within two statements per part |
| TwoPhaseDo.RollbackOutcome | internal/shard/txn.go:44-86 | the same for phase one and the rollback as changes of the shards' legs |
| TwoPhaseDo.AfterWorked | internal/shard/txn.go:41-119 | along any steps of one transaction, a shard's ledger is as it was until its leg commits, and then is changed as its part says |
| TwoPhaseTransfer.Transfer | cmd/shardctl/main.go:556-590 | the transfer command: it succeeds exactly when all statements are accepted and answered; then the sender has lost the amount if it covered it, and a receiver on another shard has gained it; a phase-one error moves nothing |
| TwoPhaseSafety.NeverSplit | internal/shard/txn.go:41-119 | in every run with lost answers, coordinator deaths, concurrent transactions and uniform resolution, no transaction has both a committed and an aborted leg |
| TwoPhaseSafety.ResultsMean | internal/shard/txn.go:88-111 | the meaning of each answer of Do holds however much later it is checked |
| TwoPhaseSafety.Resolve | internal/shard/txn.go:96-99 | whatever a failed or dead coordinator left can be resolved with all legs alike, by committing when one leg is committed or phase two had begun to fail |
| TwoPhaseOrphans.CanSplitIffDoomed | cmd/shardctl/main.go:713-723 | a transaction with a leg rolled back behind its coordinator's back is split in some later run if and only if a leg has committed or a live coordinator has a prepared leg it can still commit |
| TwoPhaseOrphans.BlindRollbackSafeIff | cmd/shardctl/main.go:713-723 | after one orphan is rolled back blindly, no later run splits its transaction if and only if no leg of it had committed and no live coordinator has another leg left to commit |
| TwoPhaseOrphans.CarefulRollbackIsAStep | cmd/shardctl/main.go:713-723 | rolling back a leg of a transaction with nothing committed whose coordinator is dead, rolling back or done with a phase-one error is a step of the machine, so all its theorems keep holding |
| TwoPhaseOrphans.PassSplitsOnly | cmd/shardctl/main.go:713-723 | however far a pass over the orphans got, only a transaction that lost a leg while another had committed, or while its live coordinator can commit another, is split in a later run |
| TwoPhaseOrphans.CommitterOvertaken | cmd/shardctl/main.go:713-723 | a concrete coordinator between its phases whose transaction is whole right after the rollback and split by its own next commit |
| TwoPhaseOrphans.PreparerOvertaken | cmd/shardctl/main.go:713-723 | a concrete coordinator still preparing that splits its transaction after a complete pass |
| TwoPhaseDo.TwoPC.ResolveOrphans | cmd/shardctl/main.go:713-723 | rolls the listed legs back one at a time and stops at the first error, whose own statement may have run |
| TwoPhaseOrphans.RollFirstRolls | cmd/shardctl/main.go:713-723 | a pass that got through its first n orphans rolled back exactly those legs and changed nothing else |
| TwoPhaseOrphans.WholePassIsEverything | cmd/shardctl/main.go:713-723 | a pass through the whole list rolls back every prepared leg |
| TwoPhaseOrphans.RollbackEverythingSplitsIff | cmd/shardctl/main.go:713-723 | after a complete pass some later run splits exactly the transactions that had a prepared leg and either a committed one or a live coordinator able to prepare all its remaining parts |
| TwoPhaseDo.ListOrphans | internal/shard/txn.go:131-157 | lists exactly the prepared legs of all shards, a live coordinator's among them, and fails when a shard does |
| TwoPhaseMoney.StepTotal | internal/shard/txn.go:88-110 | the money in all ledgers plus the prepared legs of decided transactions changes only when a transaction is decided, by the sum of its legs |
| TwoPhaseMoney.RunConserves | internal/shard/txn.go:41-119 | if every decided transaction's legs balance, no run creates or destroys money |
| TwoPhaseMoney.NothingOwing | internal/shard/txn.go:88-110 | once no decided transaction has a leg left to commit, the ledgers alone hold all the money |
| TwoPhaseOrphanMoney.AccountsExplainTotal | cmd/shardctl/main.go:713-723 | over any later run, however orphans were rolled back before it, all money differs from a constant by the accounts of the transactions alone |
| TwoPhaseOrphanMoney.SplitAccountIs | cmd/shardctl/main.go:713-723 | the account of a transaction that lost one of its legs is even until it is split and from then on out by what its other legs move |
| TwoPhaseOrphanMoney.BlindRollbackMoneyIff | cmd/shardctl/main.go:713-723 | for a transaction whose legs balance, some later run creates or loses money if and only if the lost leg moves some and the rollback was not safe |
| TwoPhaseMoney.TransferBalancesIff | cmd/shardctl/main.go:556-576 | a transfer's legs cancel if and only if it moves nothing, or its tenants are on two shards and the debit matched its row, or they share a shard and it matched none |
| TwoPhaseMoney.TransfersConserve | cmd/shardctl/main.go:556-590 | interleaved transfers between tenants on different shards, none finding its balance too low, conserve money through any crash and any uniform resolution |
| TwoPhaseMoney.StepKeepsSolvent | cmd/shardctl/main.go:560-576 | with non-negative amounts no step overdraws or overflows a balance, row locks and pending legs included |
| Hash.Sum64 | internal/shard/hash.go:21-27 | folding the big-endian buffer byte by byte computes the hash function |
| HashGolden.GoldenValues | internal/shard/hash_test.go:37-55 | the hash of tenants 1, 2, 42 and 1000000 is the pinned value |
| Hash.KeyInjectiveInLastByte | internal/shard/hash.go:21-27 | ids that differ only in the last byte never collide |
| Hash.ResidueInjective | internal/shard/hash.go:21-27 | within an aligned block of 2^k ids, k up to 8, no two hashes agree modulo 2^k |
| Hash.ResidueSurjective | internal/shard/hash.go:21-27 | the hash maps each such block onto all residues |
| Hash.BlockInArc | internal/shard/topology.go:80-93 | the raw hashes of such a block lie in one circular arc of length at most (2^k - 1) times the FNV prime |
| Hash.RingPosition | internal/shard/topology.go:102-109 | the reassignments of the finalizer compute the specified function |
| Hash.Fold33Involution | internal/shard/topology.go:103-107 | xor with the value shifted by 33 undoes itself |
| Hash.RingPosBijective | internal/shard/topology.go:102-109 | the finalizer has a two-sided inverse on 64-bit values |
| ModN.OneIdPerShardInBlock | internal/shard/topology.go:37-48 | with 2^k shards every shard owns exactly one id of every aligned block of 2^k ids |
| ModN.DoublingMovesUp | internal/shard/topology.go:39-43 | on doubling, a tenant stays or moves up by the old count, exactly when its new shard is an added one |
| ModN.DoublingMovesHalf | internal/shard/topology.go:39-43 | exactly half of every aligned block of ids moves on doubling |
| ModN.LowTenantsRotate | internal/shard/hash_test.go:66-72 | over 8 shards the tenants below 256 follow a fixed rotation |
| ModN.WheelTurns | internal/shard/hash_test.go:66-72 | which goes on by 5 with every tenant, so neighbours never share a shard |
| Ring.Ring.constructor | internal/shard/topology.go:70-76 | the points of a ring are exactly those of its shards, sorted |
| Ring.Ring.Add | internal/shard/topology.go:111-119 | adding a shard adds exactly its virtual nodes and keeps the points sorted |
| Ring.Ring.RouteRead | internal/shard/topology.go:124-135 | the binary search with wrap-around answers the owner, by the circular-successor specification, at the tenant's ring position, and 0 on an empty ring |
| Ring.VnodeKeyRoutesHome | internal/shard/topology.go:111-128 | a tenant whose id is the key of a virtual node is owned by that node's shard: tenants and nodes go through the same hash and finalizer |
| Ring.LowestTenantsShareShardZero | internal/shard/topology.go:111-128 | in a ring with shard 0, tenants with ids below the number of virtual nodes all land on it |
| RingGolden.GoldenPositions | internal/shard/topology.go:102-109 | the ring positions of tenants 1, 2, 42 and 1000000 |
| Ring.SearchFindsSuccessor | internal/shard/topology.go:129-134 | the index found, modulo the length, is the circular successor |
| Ring.OwnerUnique | internal/shard/topology.go:118-135 | the answer is unique when no two shards share a position, so the unstable sort does not matter |
| Ring.GrowingMovesOntoAdded | internal/shard/topology.go:57-63 | adding points moves a tenant only onto the shard of an added point |
| Ring.GrowingRing | internal/shard/topology.go:57-63 | with at most 256 virtual nodes and shard numbers of one page, growing moves tenants only onto added shards, with no assumption on hash values |
| Ring.BuildOrderIrrelevant | internal/shard/topology.go:70-76 | wherever no two shards share a position, routing does not depend on the order in which shards were added, or on adding one again |
| Ring.PageBuildOrderIrrelevant | internal/shard/topology.go:70-76 | within a page and with at most 256 virtual nodes that needs no assumption on hash values |
| Ring.OneShardDistinct | internal/shard/topology.go:111-116 | one shard's first 256 points are pairwise distinct |
| Ring.OnePageNeverCollides | internal/shard/topology.go:111-116 | shards of one page of 256 numbers never share a position |
| Snowflake.NewIDGen | internal/shard/id.go:40-45 | refuses exactly the shard numbers outside 0 to 1023 |
| Snowflake.IDGen.Next | internal/shard/id.go:47-71 | a later reading starts its millisecond at sequence 0; ids of one millisecond are numbered up to 4095 without waiting; the next one waits for the first later reading; a clock behind counts on in the old millisecond; and the id is ms * 2^22 + shard * 2^12 + sequence while the sequence fits |
| Snowflake.Spin | internal/shard/id.go:56-59 | the spin loop returns the first clock reading past the last millisecond |
| Snowflake.DecodeInvertsPack | internal/shard/id.go:70-79 | an id whose sequence fits its field decodes exactly |
| Snowflake.DecodesIffNoOverflow | internal/shard/id.go:64-70 | from any state, a call's id decodes exactly if and only if it is not a backwards call at sequence 4095 or more |
| Snowflake.DistinctIffNoOverflow | internal/shard/id.go:47-71 | over any clock trace that starts past the epoch, a generator of an odd shard issues distinct ids if and only if it makes no such call |
| Snowflake.IdsIncreaseAndDecode | internal/shard/id.go:47-79 | over any clock trace without such a call, ids strictly increase and decode exactly |
| Snowflake.AtMost4096PerMillisecond | internal/shard/id.go:53-61 | no millisecond carries more than 4096 ids |
| Snowflake.ShardsNeverCollide | internal/shard/id.go:70-79 | generators of different shards never issue the same id |
| Snowflake.PinnedMillisecondRepeats | internal/shard/id.go:64-66 | the bound is tight: after 4096 calls behind a fresh millisecond an odd shard repeats its first id, an even one issues its neighbour's |
| Scatter.StepKeepsBound | internal/shard/scatter.go:43-83 | no schedule has more than Concurrency calls in flight |
| Scatter.WaitsIffFull | internal/shard/scatter.go:43-48 | a goroutine waits exactly while the number of busy ones is at the concurrency asked for; with none asked for nobody waits |
| Scatter.NeverStuck | internal/shard/scatter.go:69-96 | until everything is gone some goroutine or the main loop can move |
| Scatter.StepDoesWork | internal/shard/scatter.go:69-96 | every step uses up work, so every schedule ends |
| Scatter.RunIsBounded | internal/shard/scatter.go:52-96 | every run keeps the number of busy goroutines within the concurrency asked for and has at most four steps per shard |
| Scatter.AnyScheduleSameAnswer | internal/shard/scatter.go:49-97 | the sorted results of any finished schedule are, in ascending shard order, each shard's own answer, or an error and the zero value for a shard without a pool; schedules differ in timing alone |
| Scatter.SortByShard | internal/shard/scatter.go:97 | the results in ascending shard order, none lost or added |
| Scatter.Gather | internal/shard/scatter.go:99-110 | errors exactly when partial answers are not allowed and some shard failed, and names every failed shard |
| Scatter.FailsIffSomeShardFails | internal/shard/scatter.go:69-110 | whether a request fails depends on the shards' answers and pools only, never on the schedule |
| Scatter.SlowestShard | internal/shard/scatter.go:114-122 | the greatest time and the first shard that took it, -1 when nothing took any time |
| StateCounts.MergeCounts | internal/shard/orders.go:165-171 | the merged count of a state is the sum of the shards' counts, and its keys are all states seen |
| StateCounts.CountsAreRows | internal/shard/orders.go:144-172 | the merged count of a state is its rows on the shards that answered plus the groups of it that failing shards had delivered before their row error |
| StateCounts.PartialGroupsIff | internal/shard/orders.go:162-171 | it counts the rows of the answering shards alone if and only if no failing shard had delivered that state |

## Left out

- Pools, DSNs, contexts, timeouts and connection arithmetic: a shard is a value, an unreachable one is a missing key or an error reply.
- `Save`, `LoadDirectory`, `LoadOrInitDirectory`: file I/O and JSON; a map is an atomic value.
- `Churn`, `Distribution`, the statistical balance of the ring and `imbalance`: floating point over samples; only the exact counting facts are proved.
- `PhysicalCount`, `Name`, `PendingOutbox`, `SummarizeTenant`, `Stats`, `Ping`: single queries or counts that would only add easy members.
- `prepareOnly`: a run of the two-phase machine in which the coordinator dies after its prepares.
- `cmd/reshard`: not part of this model; the backfill is the environment step described in `Migration.dfy`, with the ordering of `docs/curriculum.md:337-339`, and a verify or clean-up step is not modelled.
- Orders.Cluster.Misplaced: both queries of one shard see one state of its table; rows inserted between the two are not modelled.
- TwoPhaseOrphans.PassSplits: the converse of `PassSplitsOnly` is stated for passes after which every other transaction has lost all of its prepared legs or none; a leg of a half-rolled-back neighbour that nobody may resolve can keep a row locked.
- The random draws of `Seed` are parameters, and its ids are whatever each shard's generator hands out; a duplicate id fails that shard's COPY.
- `Insert` and `logicalOf` for a topology that is not a `Directory`; `Insert` reads the router's map twice and the model once, which a logical shard that never changes makes equivalent.
- Orders.WriteInOrder: the loop works on a value holding every shard's table, which `Cluster.Insert` assigns back, because proving it on the object's field directly is too costly; no aliasing between pools is possible in the source either.
- Orders.CopyBuckets: same as for the write loop of `Insert`.
- Snowflake.IDGen.Next: milliseconds of 2^41 and beyond, where the shift leaves a positive int64, are not wrapped, and clock readings before the id epoch only appear as readings below the last one.
- Ring.GrowingRing: shard numbers from different pages of 256, or more than 256 virtual nodes, need the distinct-positions hypothesis of `Ring.GrowingMovesOntoAdded`.
- TwoPhase.StepKeepsInv: locks are modelled as one prepared change per row; waiting for a lock is an error answer, and other writers of the ledger take no part.
- Tenant ids of 2^63 and above, which Postgres refuses as `bigint`: routing covers them, the tables take them like any other.
- Data races on the unlocked maps of `Directory`: every edit and every route is one atomic step.
- Scatter's cancellation and per-shard timeout: a timed-out call is a failed answer.
- The SQL labs 00 to 03, VACUUM, the xmin horizon and table sizes: no decision logic in this code.
