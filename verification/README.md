# Model of the rollapp block explorer's indexer

The indexer copies blocks of many chains from JSON-RPC endpoints into PostgreSQL. This project models the part of it
that decides what ends up in the tables, and proves what its design promises.

* **Recent transactions per account** (`Tables`, `TopRows`, `Pruning`, `Batches`, `Statements`, `Consistency`, `Collector`,
  `History`, `StorageBound`, `QueueEffects`, `RecentStore`). Account references to recent transactions are counted by triggers, pruned to
  the most recent K of four overlapping lists, and transactions without references are collected. A multi-row INSERT lands
  all its rows; then, row by row, the foreign key check, trigger 00100 and trigger 00200 fire (AFTER triggers fire in name
  order: PostgreSQL 15 documentation, section 39.1); the DELETE inside 00200 fires 00300 for each row before it returns,
  and may delete rows whose own triggers have not fired yet. `LIMIT` may return any of the tied rows.
* **One block** (`RowBuilding`, `Limits`, `BlockIndexing`, `Acceptance`, `Deliveries`, `Convergence`, `IndexerRuns`). How
  the rows of a block are built from what the endpoint reports, whatever the order in which Go walks its maps; how many
  there are; which blocks pass the checks before the inserts and fit the inserts; that they never leave a dangling
  reference; and that the tables depend only on which blocks were committed.
* **Rounds** (`RangeFinder`, `BlockBook`, `QueryService`, `Rounds`, `Coverage`, `CoverageRuns`, `FetchEffects`,
  `ExactCoverage`, `ExactLosses`, `HealthyRounds`, `LossExamples`, `RetryBudget`, `ChainIndexer`, `RoundLaws`). The latest indexed block and
  the failed blocks, moved round by round. Every database call is applied, refused without effect, or applied although the
  caller sees an error; a delivered block is valid or not, which `Deliveries` ties to its content. `indexed` and `dropped`
  are ghost sets: heights whose block was processed, and heights whose failure record was removed without that.
* **Around it** (`RpcRetry`, `Retention`, `UrlLists`, `IndexerManager`). The RPC retry loop, the choice of weekly partitions
  to prune, and the manager that keeps one indexer per enabled chain.

State that the program changes in place is modelled by classes and loops (`RecentStore.Store`, `ChainIndexer.Indexer`,
`IndexerManager.Manager`, the row builder, the range finder); each method leaves exactly the state that a specification
function gives, or, for the manager, that its contract spells out, and the theorems are about those functions and runs
of them.

## What the code does not promise

`ExactCoverage.RunSafeIff` says exactly when a run keeps every height up to the latest block indexed, failed or dropped, at
every write: when no round leaves a gap below a height it indexes. For a fetch, what it will do is foretold from the answer
and the fate of the numbered calls (`FetchEffects`), not from what came of them. For a round and a run the conditions also
read the book as it stands before each fetch: which heights were accounted for when a retry or a round begins
(`RoundLeavesNoGap`, `RetriesStayBehind`). Three properties that the design suggests fail:

1. *A retry can lose a block.* When a retried height is answered "missing" or "error", or its block is delivered but its
   transaction fails and is rolled back, the fetch reports no fatal error and the failure record is deleted all the same
   (`indexer/services/per_chain_indexer/chain_indexer.go:323-324`). The transaction fails not only for a failing call. The
   validation of the response lets through blocks that are refused on every attempt (`Acceptance.Acceptable`): the checks
   of the records refuse a block that lists one hash twice, a token contract with a capital letter or an address that could
   not be encoded; and an insert cannot be sent with more than 65535 parameters, which is 9362 references in a block, or
   with a NUL character in a text. Of the four inserts only those of transactions and references can be too large
   (`Acceptance.SendableIff`).
   `ExactLosses.RetryLosesIff` and `ExactLosses.DeliveredBlockLostIff` give the exact condition, `HealthyRounds.RetryOutcome`
   the one for a healthy database; `LossExamples.RetryLosesHeight`, `LossExamples.RefusedBlockLost`,
   `LossExamples.CrowdedBlockLost` and `LossExamples.RolledBackBlockLost` are runs. `CoverageRuns.GoneForever` shows that
   nothing brings such a height back once it is behind the latest block.
2. *Completeness of a response is not checked.* Heights in a response are checked to lie in the range, not to cover it
   (`indexer/services/query/be_json_rpc_query_svc.go:172-211`). `ExactCoverage.FetchSafeIff` and
   `HealthyRounds.CoveredIffNoGap` show which gaps lose a block, `LossExamples.IncompleteAnswerLosesHeight` is a run.
3. *A refused marking can lose a block.* The code calls the failure of the insert that marks a range after a fatal round not
   critical (`indexer/services/per_chain_indexer/chain_indexer.go:270`). By itself it loses nothing: with complete answers,
   `ExactLosses.RunCoveredIff` shows, a run loses a height exactly if a retry indexes a height above the latest block while
   one below it is unaccounted for. `ExactLosses.RoundCoveredIff` says this of a round, `ExactLosses.RetryCoversIff` and
   `HealthyRounds.HealthyRetryCovers` of a retry, `ExactLosses.MarkingDecides` when a marking leaves such a hole;
   `LossExamples.RefusedMarkingSkipsHeight` is a run.

`CoverageRuns.NothingSkipped` therefore carries two hypotheses, complete answers about new blocks and a marking insert that
takes effect (`WellBehaved`), and counts dropped heights separately.

## Model

| member | source | states |
|---|---|---|
| Pruning.PruneIgnoresTies | indexer/database/schema/schema.sql:155-193 | whichever tied rows the four LIMIT subqueries return, the DELETE removes the same rows: those with no category in which fewer than K rows of the account lie strictly above their height, height-mates included |
| Pruning.PruneIdempotent | indexer/database/schema/schema.sql:155-193 | a second prune right after the first deletes nothing |
| Pruning.PruneKeepsDepth | indexer/database/schema/schema.sql:155-193 | a prune never brings a height closer to the top of a list than the K rows it keeps |
| Pruning.PruneBoundsHeights | indexer/database/schema/schema.sql:155-193 | after a prune an account has at most 4K distinct heights |
| Batches.ValidateRecentBatch | indexer/database/types/record_recent_account_transaction.go:43-110 | the loop accepts exactly the batches of one chain and one height with hashes unique up to case and sound records: normalized chain, positive height and epoch, a hash in one of the two formats, some message type |
| Batches.ValidRecentBatchIff | indexer/database/types/record_recent_account_transaction.go:43-80 | the batch check in other words: sound records of one chain and one height, no two hashes equal letter by letter up to case |
| Batches.SoundRecentIff | indexer/database/types/record_recent_account_transaction.go:83-110 | the record check: chain id left alone by trimming and lower-casing, positive height and epoch, a message type, a hash of 64 capitals or digits or of 0x and 64 hex digits |
| Batches.SoundTransactionIff | indexer/database/types/record_transaction.go:77-119 | the same for the transaction table, the form of the hash decided by the type |
| Batches.SoundRefIff | indexer/database/types/record_ref_account_to_recent_tx.go:69-97 | the same for references, with the address left alone too |
| Batches.SoundAccountIff | indexer/database/types/record_account.go:53-103 | the same for accounts and each of their contracts |
| Batches.NormalizedIff | indexer/utils/validation.go:8-14 | the check for being normalized accepts exactly the non-empty texts that trimming and lower-casing leave alone |
| Batches.Distinct | indexer/database/schema/schema.sql:40-56 | contract lists are stored without duplicates and without losing a contract |
| Consistency.CounterUpdatesStayClean | indexer/database/schema/schema.sql:40-59 | the account trigger also runs when 00100 or 00200 change a counter, whatever its value, and then changes nothing, provided the contract lists had no duplicates |
| Consistency.TransactionsInserted | indexer/database/postgres_tx/transaction.go:21-61 | after the insert a key is there exactly if it was or a row has it; stored transactions stay as they are, and a new one has the details of the first row with its key |
| Consistency.RecentInserted | indexer/database/postgres_tx/recent_account_transaction.go:24-62 | the same for recent transactions, which come in with count 0 |
| Consistency.RefsInserted | indexer/database/postgres_tx/recent_account_transaction.go:78-120 | the same for references and their flags |
| Consistency.QueueInRowOrder | indexer/database/postgres_tx/recent_account_transaction.go:91-116 | the rows that land are queued for their triggers in the order of the statement |
| Consistency.FiringKeeps | indexer/database/schema/schema.sql:121-220 | firing any prefix of the trigger queue keeps counts, foreign keys, zero counts pending and account counters consistent with what has not fired yet |
| Consistency.DeletingKeepsCounts | indexer/database/schema/schema.sql:157-220 | inside the prune's DELETE, after any subset of its 00300 triggers, each count is the references present minus unfired 00100 plus unfired 00300 rows, though deleted rows may themselves be unfired |
| Consistency.FiringSucceeds | indexer/database/schema/schema.sql:113-116 | no foreign key check in the queue fails when every landed reference has its parents |
| Collector.CountsAtEveryPoint | indexer/database/schema/schema.sql:121-220 | from any rest state, before, between and after the two triggers of every row of a multi-row insert, ref_count is the number of references minus the rows whose 00100 has not fired |
| Collector.RestCount | indexer/database/schema/schema.sql:121-220 | at the end of a statement ref_count is exactly the number of references |
| Collector.LandRecentAdds | indexer/database/postgres_tx/recent_account_transaction.go:11-67 | inserting transactions adds exactly the new ones, uncounted and pending, and leaves stored ones alone |
| Collector.MergeKeeps | indexer/database/postgres_tx/account.go:24-58 | merging accounts adds the missing ones with counter 0, keeps counters, and leaves no duplicate contract |
| Collector.InsertRefsKeeps | indexer/database/postgres_tx/recent_account_transaction.go:69-125 | a multi-row reference insert that succeeds ends at rest: counts exact, references closed, unreferenced transactions pending |
| Collector.CleanupExact | indexer/database/schema/schema.sql:222-238 | from rest the cleanup cannot fail, deletes no referenced transaction, empties the pending table and leaves exactly the transactions with a reference |
| Collector.RunKeeps | indexer/database/schema/schema.sql:79-238 | over any run of transactions, committed, failing or rolled back, all of this holds whenever no statement is running |
| Collector.NoTrace | indexer/services/per_chain_indexer/chain_indexer.go:534-668 | a transaction that is rolled back, or any of whose statements fails, leaves the tables as they were |
| Collector.InsertRefused | indexer/database/postgres_tx/account.go:10-58 | an insert of more than 65535 parameters (9, 4, 7 and 7 per row), with a row that fails its check or has a NUL in a text, for an unregistered chain, or touching an account twice is refused |
| History.PageHeightsUnique | web-app/src/services/db/accounts.ts:68-83 | any two answers to one page query list the same heights in the same order |
| History.PruneFaithful | indexer/database/schema/schema.sql:148-193 | a prune keeps the table faithful to the history: what is missing has at least K kept rows of each of its categories strictly above |
| History.PrunedIndexAnswersLikeHistory | indexer/database/schema/schema.sql:137-204 | over any run, in any height order and with re-inserts, every page of up to k rows of each of the four lists is an answer of the pruned table if and only if it is one of the table of all references ever inserted, provided k is at most 50 or every setting written for the chain is a number of at least k |
| History.LaterPagesAnswerLikeHistory | web-app/src/services/db/accounts.ts:68-83 | the same for a page after `skip` rows, as the address page asks for it, as long as skip + take is at most K |
| History.CountsLikeHistory | web-app/src/services/db/accounts.ts:26-37 | the total by which the address page limits page numbers is never above the true one, and exact up to K |
| History.AddressPageLists | web-app/src/services/db/accounts.ts:11-25 | the four lists are what the filters of the address page select: everything, or the rows whose one flag is set |
| History.FiftyAlwaysKept | indexer/database/schema/schema.sql:144-150 | whatever keep settings a run goes through, pages of 50 rows are those of the full history |
| StorageBound.RunWithinBudget | indexer/database/schema/schema.sql:137-204 | with k at least 50 and no setting above k, after any run an account's counter is in 0..9 and its references lie on at most 4k + counter, so 4k + 9, heights |
| StorageBound.FiringWithinBudget | indexer/database/schema/schema.sql:121-204 | within a statement the budget is 4K + counter + rows still waiting for their triggers, and it is back to 4K + counter at the end |
| QueueEffects.CounterCountsToTen | indexer/database/schema/schema.sql:121-200 | after any queue of triggers the counter is the old one plus the rows of the account, modulo ten, whatever other accounts do |
| QueueEffects.NothingPrunedBeforeTen | indexer/database/schema/schema.sql:137-146 | while the counter stays below ten an account keeps every reference |
| QueueEffects.TenthInsertPrunes | indexer/database/schema/schema.sql:144-200 | the tenth insert deletes exactly the references that are not among the k newest of any list, k being the setting or 50, whichever is more |
| QueueEffects.DeletedArePending | indexer/database/schema/schema.sql:206-217 | the transactions of all deleted references are pending |
| RecentStore.SelectPage | indexer/database/schema/schema.sql:163-190 | ORDER BY height DESC LIMIT: a descending page whose rows nothing left out exceeds, of full size |
| RecentStore.Store.UpsertAccounts | indexer/database/postgres_tx/account.go:10-59 | the upsert merges row by row, refuses a row touched twice or an unknown chain, and then changes nothing |
| RecentStore.Store.InsertTransactions | indexer/database/postgres_tx/transaction.go:12-66 | stores the absent transactions and keeps stored ones |
| RecentStore.Store.InsertRecent | indexer/database/postgres_tx/recent_account_transaction.go:11-67 | lands the absent rows with count 0, then marks them pending |
| RecentStore.Store.Fire00100 | indexer/database/schema/schema.sql:121-132 | adds one to the account's counter and to the transaction's count |
| RecentStore.Store.Fire00300 | indexer/database/schema/schema.sql:206-217 | takes one from the transaction's count and marks it pending |
| RecentStore.Store.DeleteRefs | indexer/database/schema/schema.sql:157-220 | the rows go first, then 00300 fires for each of them in any order |
| RecentStore.Store.Fire00200 | indexer/database/schema/schema.sql:137-201 | prunes the account exactly when its counter has reached 10 and then resets it, whichever tied rows LIMIT picks |
| RecentStore.Store.InsertRefs | indexer/database/postgres_tx/recent_account_transaction.go:69-125 | lands the absent rows, then fires check, 00100 and 00200 row by row; an error leaves nothing changed |
| RecentStore.Store.Cleanup | indexer/database/schema/schema.sql:222-238 | the loop over the pending table, in any order, deletes exactly the pending transactions with no count |
| RecentStore.Store.RunTransaction | indexer/services/per_chain_indexer/chain_indexer.go:534-668 | all statements or, after an error or a rollback, none |
| RowBuilding.AddTx | indexer/services/per_chain_indexer/chain_indexer.go:705-812 | for every order of the involver kinds, contract maps and addresses: an error exactly if an entry that must be converted cannot be, otherwise flags and contracts mean exactly the transaction's roles and holdings |
| RowBuilding.RefRows | indexer/services/per_chain_indexer/chain_indexer.go:814-828 | exactly one reference row per involved address, with a flag set exactly if some valid entry of that kind converts to it |
| RowBuilding.BuildRows | indexer/services/per_chain_indexer/chain_indexer.go:675-855 | the whole block: the rows it determines, each as often as it determines it, or an error exactly for a block with an unconvertible entry or an unparsable value |
| Limits.PlaysRoleIff | indexer/services/per_chain_indexer/chain_indexer.go:716-812 | who plays which role, entry by entry: an entry of the list converts to the address, or a holder below a contract that is itself valid; invalid entries and everything below invalid contracts count for nothing |
| Limits.HoldsIff | indexer/services/per_chain_indexer/chain_indexer.go:763-808 | an account gets a contract exactly if the contract is valid and some holder listed below it converts to the account |
| BlockIndexing.ParentsInBatch | indexer/services/per_chain_indexer/chain_indexer.go:751-844 | every reference row has its account row and its transaction row in the same batch |
| BlockIndexing.BlockCloses | indexer/services/per_chain_indexer/chain_indexer.go:847-870 | from rest, with the chain registered, the block's statements and cleanup succeed exactly if the rows pass validation and the inserts can be sent; no foreign key fails |
| Limits.RefRowsCounted | indexer/services/per_chain_indexer/chain_indexer.go:814-828 | a block makes as many reference rows as its transactions have involved addresses, added up |
| Limits.InvolvedBound | indexer/services/query/types/be_response.go:178-244 | within the limits of the response validation one transaction involves at most 10760 addresses |
| Acceptance.AcceptableIffValid | indexer/database/types/record_account.go:53-103 | the rows pass all checks and can be sent exactly if the block is acceptable: well-formed transactions, hashes of involving transactions unique up to case, normalized addresses and contracts, no NUL in a text, few enough transactions and references |
| Acceptance.SendableIff | indexer/database/postgres_tx/recent_account_transaction.go:82-120 | the four inserts, with 9, 4, 7 and 7 parameters per row, stay within 65535 parameters and free of NUL exactly if 9 times the transactions and 7 times the references do and the texts are: accounts and recent transactions are never too many on their own |
| Acceptance.CommitsIffAcceptable | indexer/services/per_chain_indexer/chain_indexer.go:548-575 | from rest, with the chain registered, a block is turned into rows and all its statements succeed exactly if it is acceptable |
| Acceptance.RepeatedHashRefused | indexer/database/types/record_recent_account_transaction.go:68-73 | a block that lists one hash twice, both times involving somebody, is refused |
| Acceptance.CapitalContractRefused | indexer/services/per_chain_indexer/chain_indexer.go:801-807 | a block with a balance on a contract written with a capital letter is refused |
| Acceptance.UnreadableRefused | indexer/services/per_chain_indexer/chain_indexer.go:690-760 | a block with a value that does not parse, or with an involver whose conversion reports an error, is refused |
| Deliveries.StoreBlock | indexer/services/per_chain_indexer/chain_indexer.go:534-668 | with no failing call, building the rows of a delivered block and running its transaction commits exactly if the block counts as valid, and leaves nothing behind otherwise |
| Deliveries.EmptyBringsNoRows | indexer/services/per_chain_indexer/chain_indexer.go:473-486 | a block is handled as empty exactly if there is nothing to store of it |
| Deliveries.RepeatedHashIsBad | indexer/services/query/types/be_response.go:150-176 | a block with a repeated hash meets every demand the response validation makes of the records, and is still no good |
| Deliveries.CapitalContractIsBad | indexer/services/per_chain_indexer/chain_indexer.go:801-807 | so is a block with a balance on a contract written with capital letters |
| Deliveries.EmptyAddressIsBad | indexer/services/per_chain_indexer/chain_indexer.go:966-975 | so is one with an involver that could not be encoded and came back as the empty address |
| Deliveries.NulIsBad | indexer/services/query/types/be_response.go:277-284 | so is one with a NUL character in a message type, which the validation only checks for length |
| Deliveries.CrowdedIsBad | indexer/database/postgres_tx/recent_account_transaction.go:69-125 | so is one of 26 transactions with 500 accounts each, though it is within every limit of the response validation and passes every check of the records: 13000 references do not fit one insert |
| Convergence.TablesConverge | indexer/database/postgres_tx/transaction.go:12-66 | when heights have fixed content: the transaction table holds exactly the transactions of the committed blocks, each in the week of its block and with the epoch, message types, type and rest its block has; recent transactions come from committed blocks in the same way; accounts, contract sets and the reference history are functions of the set of committed blocks |
| Convergence.SameBlocksSameTables | indexer/database/postgres_tx/account.go:24-58 | two runs that committed the same blocks, in any order and repetition, agree on transactions, accounts and contract sets |
| IndexerRuns.RecentListsFromBlocks | web-app/src/services/db/accounts.ts:68-83 | the pages shown are those of the references that the committed blocks contain |
| IndexerRuns.SameBlocksSamePages | web-app/src/services/db/accounts.ts:68-83 | two indexers that committed the same blocks show the same pages, though they may have pruned at different moments |
| IndexerRuns.StoredAsInBlocks | indexer/services/per_chain_indexer/chain_indexer.go:548-575 | after any run exactly the transactions with a reference are stored for accounts, each with the epoch, message types and rest that its committed block has for it |
| IndexerRuns.FlagsAsInBlocks | indexer/services/per_chain_indexer/chain_indexer.go:814-828 | each stored reference has the flag of a list exactly if its account plays that role in its transaction |
| IndexerRuns.StoredInItsWeek | indexer/utils/epoch.go:5-13 | each stored transaction lies in the partition of its own time, at a positive height and with a message type |
| IndexerRuns.LastSettingHolds | indexer/database/schema/schema.sql:2-14 | a chain is registered from its first setting on, and its last setting is the one in force, whatever blocks come in between |
| IndexerRuns.RefsOfTxBound | indexer/services/query/types/be_response.go:178-244 | at most 10760 references to one transaction ever exist: 10 signers, three lists of 250, two kinds of 20 contracts with 250 holders |
| IndexerRuns.RefCountsFit | indexer/database/schema/schema.sql:67 | ref_count fits 16 bits at every point of the trigger queue, negative transient values included |
| IndexerRuns.RunCountsFit | indexer/database/postgres_tx/recent_account_transaction.go:69-125 | in any run of source blocks, whenever a block has got as far as its references, firing the queue cannot fail and every ref_count fits at every point of it |
| IndexerRuns.ReachableRefsFromContent | indexer/database/postgres_tx/recent_account_transaction.go:69-125 | after any run of source blocks the tables are at rest and every reference comes from its block's content |
| IndexerRuns.AccountRowsBound | indexer/services/query/types/be_response.go:147 | with at most 100 transactions per block, an account has at most 100 (4K + 9) references |
| RangeFinder.Closest | indexer/utils/number.go:11-64 | the least height of the window that is not excluded and the longest run from there, or nothing exactly if all are excluded |
| RangeFinder.ClosestUnique | indexer/utils/number.go:11-64 | that description has one solution only |
| RangeFinder.GetClosestRange | indexer/utils/number.go:11-64 | the loops over a set of candidates find it |
| RangeFinder.GetClosestRangeWithExtensible | indexer/utils/number.go:66-122 | the window loop, with queries that may fail, computes the search specified by windows |
| RangeFinder.ClosestExtendedCorrect | indexer/utils/number.go:66-122 | a range is found exactly if some height of the windows is not excluded: it starts at the least one and ends at an exclusion or a window; the search fails only on a failed query that nothing but excluded heights precede |
| RangeFinder.DeterminedRange | indexer/services/per_chain_indexer/chain_indexer.go:920-947 | above the latest block, at most 100 heights, none failed, only failed ones passed over; no range exactly if all up to upstream have failed; no result only for a failed query with only failed heights before it |
| BlockBook.UpsertedFailed | indexer/database/postgres/block.go:54-98 | inserts new records with no retries; existing ones gain one and never an earlier time; others are untouched |
| BlockBook.FailedInRange | indexer/database/postgres/block.go:139-180 | lists exactly the failed heights of the window |
| QueryService.TransactionsInBlockRange | indexer/services/query/be_json_rpc_query_svc.go:138-214 | the three loops reject a response with any height out of range or unparsable, and otherwise keep everything |
| QueryService.Transform | indexer/services/query/be_json_rpc_query_svc.go:172-211 | an accepted answer mentions only heights that were asked for |
| QueryService.AnswerKeepsAll | indexer/services/query/be_json_rpc_query_svc.go:172-211 | an answer is given exactly if all heights of the response parse and were asked for, and has the missing and error heights and the blocks of the response, one for one |
| QueryService.CompleteIff | indexer/services/query/be_json_rpc_query_svc.go:172-211 | the answer mentions every height asked for exactly if the response does |
| QueryService.SortedIsPermutation | indexer/services/per_chain_indexer/chain_indexer.go:463-468 | sorting the blocks keeps each as often as it was delivered |
| Rounds.SelectFailed | indexer/database/postgres/block.go:100-137 | the greatest height with fewer than 100 retries and more than 60 seconds' rest, 0 if there is none |
| Coverage.FetchFollows | indexer/services/per_chain_indexer/chain_indexer.go:375-673 | whatever fails, a fetch forgets nothing, drops nothing, touches no record outside its range, and removes a record only of an indexed block |
| Coverage.FetchSafe | indexer/services/per_chain_indexer/chain_indexer.go:429-661 | every write of a fetch keeps all heights up to the latest block accounted for, if the answer mentions what is not; without a fatal error the whole range is accounted for |
| Coverage.NewPartSafe | indexer/services/per_chain_indexer/chain_indexer.go:242-274 | with a complete answer, whatever calls fail, every write of a new-block round leaves each height in 1..latest indexed, failed or dropped |
| Coverage.RoundSound | indexer/services/per_chain_indexer/chain_indexer.go:172-369 | a round with its retry keeps everything up to the greatest height ever asked for accounted for |
| CoverageRuns.NothingSkipped | indexer/services/per_chain_indexer/chain_indexer.go:172-369 | over whole runs, after every single write, each height up to the latest block is indexed, failed or dropped |
| CoverageRuns.FailedHeightsContiguous | indexer/services/per_chain_indexer/chain_indexer.go:227-274 | while nothing is dropped, every height above the latest block up to any failed height is failed |
| CoverageRuns.NewRangesIncrease | indexer/services/per_chain_indexer/chain_indexer.go:227-274 | while nothing is dropped, a later round's range of new blocks starts above the end of every earlier one |
| CoverageRuns.OnlyRetriesDrop | indexer/services/per_chain_indexer/chain_indexer.go:304-334 | a height is dropped only by its own retry, ended without a fatal error and without its block being indexed |
| CoverageRuns.GoneForever | indexer/services/per_chain_indexer/chain_indexer.go:172-369 | a height behind the latest block with no record is never indexed or recorded again, whatever follows |
| FetchEffects.FetchForetold | indexer/services/per_chain_indexer/chain_indexer.go:375-673 | whatever the book, the answer and the fate of the numbered calls foretell whether a fetch is fatal, how many calls it makes, and at every height whether it is indexed or recorded as failed |
| ExactCoverage.FetchSafeIff | indexer/services/per_chain_indexer/chain_indexer.go:429-661 | whatever fails, every write of a fetch keeps all heights up to the latest block accounted for exactly if below each height foretold to be indexed every height was accounted for or is mentioned |
| ExactCoverage.RoundSafeIff | indexer/services/per_chain_indexer/chain_indexer.go:179-361 | the same of a round: no gap in its new blocks and none below its retry |
| ExactCoverage.RunSafeIff | indexer/services/per_chain_indexer/chain_indexer.go:172-369 | over any run from an empty database, with no hypothesis on calls or answers, every write keeps coverage exactly if no round leaves a gap |
| ExactLosses.RetryLosesIff | indexer/services/per_chain_indexer/chain_indexer.go:318-334 | a retry leaves its height neither failed nor indexed exactly if its markings are reported, no block is foretold to take effect, none is fatal, and the removal call lands |
| ExactLosses.DeliveredBlockLostIff | indexer/services/per_chain_indexer/chain_indexer.go:470-661 | a delivered block with transactions is lost exactly if partitions and begin are reported, it is invalid or a statement is unreported or the commit refused, the next call records this as reported, and the call after that removes the record |
| ExactLosses.RetryCoversIff | indexer/services/per_chain_indexer/chain_indexer.go:318-355 | a retry keeps coverage exactly if its height is not above the latest block, or nothing below it is missing, or no delivered block is foretold to take effect |
| ExactLosses.RoundCoveredIff | indexer/services/per_chain_indexer/chain_indexer.go:242-355 | with a complete answer, whatever becomes of the marking, a round keeps coverage exactly if its retry stays behind in that sense |
| ExactLosses.RunCoveredIff | indexer/services/per_chain_indexer/chain_indexer.go:172-369 | with complete answers, a run keeps coverage exactly if every retry stays behind: a hole left by a refused marking does harm only when a retry jumps over it |
| ExactLosses.MarkingDecides | indexer/services/per_chain_indexer/chain_indexer.go:248-271 | after a fatal round its range is accounted for exactly if the marking call lands, or each height was accounted for or is foretold to be indexed or recorded |
| HealthyRounds.HealthyFetch | indexer/services/per_chain_indexer/chain_indexer.go:375-673 | without database errors a fetch is fatal exactly for no answer or duplicate error or missing heights; otherwise it indexes exactly the heights with a good block, delivered and empty or acceptable, accounts for exactly those mentioned, and leaves the others failed exactly as the answer says |
| HealthyRounds.RetryOutcome | indexer/services/per_chain_indexer/chain_indexer.go:318-355 | without database errors a retry keeps, indexes or drops its height, told apart exactly by the answer; a delivered block that the database refuses is dropped |
| HealthyRounds.HealthyRetryCovers | indexer/services/per_chain_indexer/chain_indexer.go:318-355 | without database errors a retry keeps coverage exactly if its height is not above the latest block, nothing below it is missing, or the answer is unusable or brings no good block of it |
| HealthyRounds.CoveredIffNoGap | indexer/services/query/be_json_rpc_query_svc.go:172-211 | without database errors coverage survives a usable answer exactly if it leaves no unaccounted height below a good block |
| HealthyRounds.RoundCatchesUp | indexer/services/per_chain_indexer/chain_indexer.go:225-296 | a round served good blocks only indexes exactly the next 100 blocks, or all that are left |
| HealthyRounds.CatchesUp | indexer/services/per_chain_indexer/chain_indexer.go:172-369 | after n such rounds exactly the blocks up to the latest are indexed, at least the smaller of the target and 100 n, and nothing is failed |
| LossExamples.RetryLosesHeight | indexer/services/per_chain_indexer/chain_indexer.go:323-324 | with no failing call and complete answers, a block answered missing twice is dropped for good |
| LossExamples.RefusedMarkingSkipsHeight | indexer/services/per_chain_indexer/chain_indexer.go:262-271 | with complete answers, two refused inserts leave a block below the latest one neither indexed, failed nor dropped |
| LossExamples.RefusedBlockLost | indexer/services/per_chain_indexer/chain_indexer.go:548-631 | with every call applied and complete answers, any delivered block with transactions that is not acceptable is rolled back, retried, rolled back again and dropped for good |
| LossExamples.CrowdedBlockLost | indexer/services/per_chain_indexer/chain_indexer.go:867-870 | such a run for the block with too many references |
| LossExamples.RolledBackBlockLost | indexer/services/per_chain_indexer/chain_indexer.go:603-631 | an acceptable block whose row insert is refused twice is dropped for good |
| LossExamples.IncompleteAnswerLosesHeight | indexer/services/query/be_json_rpc_query_svc.go:172-211 | an accepted response that leaves out block 1 of 2, every call applied: block 1 is neither indexed, failed nor dropped, for good |
| RetryBudget.SelectionIsGreatest | indexer/database/postgres/block.go:100-137 | what the selection returns is the greatest eligible height, and 0 only if there is none |
| RetryBudget.AtMostHundredRetries | indexer/services/per_chain_indexer/chain_indexer.go:304-355 | after any run, over any stretch in which its block does not take effect and its retries end fatally and are recorded, a height is retried at most 100 times, and no more often than it has retries left, whatever else happens |
| RetryBudget.LostCommitRestartsBudget | indexer/services/per_chain_indexer/chain_indexer.go:633-661 | a commit that takes effect but reports an error, followed by a refused insert: the block is indexed, and its record is back with no retries used |
| RetryBudget.RetriesMinuteApart | indexer/constants/database.go:4-5 | two retries of such a height within the stretch are more than 60 clock seconds apart |
| RetryBudget.RetryDecreases | indexer/database/postgres/block.go:54-114 | a recorded failing retry strictly lowers the sum of retries left |
| RetryBudget.RetriesRunOut | indexer/services/per_chain_indexer/chain_indexer.go:304-355 | while only such retries happen, no more rounds retry something than there were retries left |
| ChainIndexer.Indexer.InsertOrUpdateFailedBlocks | indexer/database/postgres/block.go:54-98 | one statement for all heights: all recorded, or, when a height occurs twice or the call is refused, none |
| ChainIndexer.Indexer.GetOneFailedBlock | indexer/database/postgres/block.go:100-137 | the loop finds the greatest eligible height, or 0 |
| ChainIndexer.Indexer.CommitBlock | indexer/services/per_chain_indexer/chain_indexer.go:548-646 | the transaction's own changes become visible at the commit only, or not at all |
| ChainIndexer.Indexer.IndexBlock | indexer/services/per_chain_indexer/chain_indexer.go:470-661 | one block: empty, fatal before its transaction, committed, or rolled back and recorded |
| ChainIndexer.Indexer.FetchAndIndexBlockRange | indexer/services/per_chain_indexer/chain_indexer.go:375-673 | errors, then missing blocks, then the blocks in ascending order, stopping at the first fatal error |
| ChainIndexer.Indexer.Round | indexer/services/per_chain_indexer/chain_indexer.go:179-361 | one round, and catch-up mode exactly if blocks were indexed without reaching the upstream height |
| RoundLaws.FetchesIff | indexer/services/per_chain_indexer/chain_indexer.go:227-240 | with readable tables a round fetches new blocks exactly if upstream is ahead and some height up to it has not failed |
| RoundLaws.RetriesIff | indexer/services/per_chain_indexer/chain_indexer.go:204-302 | it goes on to its retry exactly at the tip (upstream at most three behind), with less than five heights ahead and all of them failed, or after a fetch without fatal error that reaches the newest upstream height |
| RoundLaws.RetriedIff | indexer/services/per_chain_indexer/chain_indexer.go:298-316 | it then retries h exactly if retries are enabled, the selection works and h is the greatest height tried less than 100 times, the last time more than 60 seconds ago |
| RoundLaws.RetryProgresses | indexer/services/per_chain_indexer/chain_indexer.go:298-334 | with a healthy database, such a round served a good block of that height indexes it and strikes it from the failed heights |
| RoundLaws.StuckHeightIsRetried | indexer/services/per_chain_indexer/chain_indexer.go:298-301 | in particular when every height up to upstream has failed and upstream is less than five ahead |
| RoundLaws.FailedReadEndsRound | indexer/services/per_chain_indexer/chain_indexer.go:227-234 | a failed read of the failed heights ends the round without effect, and only one that nothing but failed heights precede |
| RoundLaws.RoundIsIdle | indexer/services/per_chain_indexer/chain_indexer.go:179-215 | a round changes nothing when the tables cannot be read, it is postponed, or the endpoint is more than three blocks behind |
| RoundLaws.SpeedsUpIff | indexer/services/per_chain_indexer/chain_indexer.go:275-296 | catch-up mode exactly after a fetch without fatal error that does not reach the newest upstream height; such a round retries nothing |
| RoundLaws.EmptyBlockNeedsRemoval | indexer/services/per_chain_indexer/chain_indexer.go:473-486 | a retried block without transactions is indexed with its record untouched; only the removal call clears it |
| ChainIndexer.Indexer.Start | indexer/services/per_chain_indexer/chain_indexer.go:172-369 | the loop over rounds; in a well-behaved run every write leaves all heights up to the latest block accounted for |
| RpcRetry.QueryWithRetry | indexer/services/query/retry.go:11-69 | whenever the loop ends at all: the first success at once, otherwise the error of the first call, after the first call that is not worth or not granted another |
| RpcRetry.StopsInTime | indexer/services/query/retry.go:27-65 | with a clock that advances by the sleep between calls it ends, after at most max(min, ceil(duration / 100 ms)) + 1 calls |
| RpcRetry.NoBoundWithoutClock | indexer/services/query/retry.go:16-62 | with a wall clock that never reaches the maximum duration, failing calls have no end |
| RpcRetry.FailureMeans | indexer/services/query/retry.go:39-68 | a failure means every call failed and either the last error was final or the minimum of retries was made and the time was up |
| RpcRetry.SucceedsIff | indexer/services/query/retry.go:27-65 | a success is returned exactly if some call succeeds before a final error and before the retries run out |
| RpcRetry.FinalIff | indexer/services/query/retry.go:39-55 | an error is final exactly if its text has one of the four phrases in it |
| Retention.ListedIsOld | indexer/database/schema/schema.sql:350-362 | a listed partition holds only transactions more than k weeks old, k = max(1, configured weeks) |
| Retention.OldIsListed | indexer/database/schema/schema.sql:350-362 | transactions k + 1 weeks old or older lie in listed partitions |
| Retention.BoundsAreTight | indexer/utils/epoch.go:5-13 | for every k neither bound can be improved by a second, hence the documented 1-2 weeks for k = 1 |
| Retention.ClockIsChecked | indexer/database/schema/schema.sql:334-349 | a list is returned exactly if the given time is within a day of the server's |
| UrlLists.OrderedUnique | indexer/utils/strings.go:14-19 | sorting brings two lists to the same order exactly when they hold the same strings |
| UrlLists.LeIff | indexer/utils/strings.go:14-19 | the order of sort.Strings is that of dictionaries |
| UrlLists.AreSortedStringArraysEquals | indexer/utils/strings.go:5-24 | true exactly for equal multisets; both arrays end up sorted if their lengths agree and untouched otherwise, also when they are one array |
| IndexerManager.Indexer.Reload | indexer/services/per_chain_indexer/indexer_controller.go:13-28 | refused for another chain id; otherwise the configuration is replaced and the active URL cleared exactly if the URL multiset changed |
| IndexerManager.Manager.SignalShutdown | indexer/services/per_chain_indexer/manager.go:49-59 | exactly the indexers under names no longer enabled are shut down |
| IndexerManager.Manager.LaunchMissing | indexer/services/per_chain_indexer/manager.go:64-86 | exactly the enabled names without an indexer get a new one with the list's configuration |
| IndexerManager.Manager.UpdateRunning | indexer/services/per_chain_indexer/manager.go:88-103 | every running indexer is handed its configuration, whatever arrays the configurations share |
| IndexerManager.Manager.Reload | indexer/services/per_chain_indexer/manager.go:42-104 | running names are the enabled names, kept names keep their object, live indexers are configured for their own chain, nothing shut down comes back |
| IndexerManager.Manager.ReloadAll | indexer/services/per_chain_indexer/manager.go:42-104 | any sequence of reloads on record: each list's enabled names ran, kept names kept their object, what stopped running was shut down for good; in the end each indexer has the last list's configuration unless that is for another chain |
| IndexerManager.NeverReturns | indexer/services/per_chain_indexer/manager.go:49-62 | an indexer that ran and then did not is shut down and never runs again |
| IndexerManager.KeptThroughout | indexer/services/per_chain_indexer/manager.go:51-55 | a name that every list enables keeps its indexer throughout |

## Left out

- Web application, HTTP, JSON decoding, logging, Telegram, configuration files, signals and sleeping. Answers of endpoints,
  upstream heights and clocks are inputs of the model.
- Bech32 and hexadecimal conversion and coin parsing: conversion of an involver is an arbitrary function to an address, an
  invalid entry or an error, and whether a value parses is a flag of the transaction. `BuildRows` reports both kinds of
  failure by one error.
- Normalisation of chain ids and addresses when a record is made, treated as the identity; the checks that they are
  normalized are modelled, for capital letters `A` to `Z` and the spaces of Latin-1.
- NULL contract arrays and the order in which `SELECT DISTINCT` returns contracts: the model keeps the first occurrence,
  and states results as sets.
- Partition creation, the shared cache of created partitions (the call is always modelled as made), table naming, `ibc_transaction`.
- Other refusals by the server, such as a full disk or an index entry that is too long, count as failing calls, also when
  they come from the block: the validation measures the signers' addresses twice and those of the other involvers never
  (`indexer/services/query/types/be_response.go:187-194`). The chain id is taken to be free of NUL, being stored already.
- Filters for two flags at once, which the address page never asks for: the prune keeps no list for them. A filter for a
  flag that is not set finds nothing, as `NULL` is stored (`History.Matches`).
- Concurrent database transactions of other chains: statements and transactions are atomic and serial. Process crashes,
  except that the coverage results hold after every write.
- `failed_block.error_messages`, `chain_info.increased_latest_indexed_block_at` and the reason of a fatal error.
- Health checks and the choice of the active URL, apart from its clearing on reload. `lastUrlCheck` is not modelled.
- ChainIndexer.Indexer.Start: does not model preparing partitions and chain information before the loop, nor the shutdown
  flag that ends it; rounds that fail before the database is read change nothing and are not listed as inputs.
- ChainIndexer.Indexer.IndexBlock: counts building, checking and inserting the rows of a block as one call, and the
  rollback as none. That the row inserts of a valid block fail for failing calls only is
  `Acceptance.CommitsIffAcceptable`.
- Coverage.RoundSound: needs complete answers and a marking insert that takes effect; `ExactCoverage` and `ExactLosses` say
  what holds without them.
- RetryBudget.AtMostHundredRetries: speaks of a stretch in which the block does not take effect; a commit in doubt starts the
  budget again (`RetryBudget.LostCommitRestartsBudget`).
- RetryBudget.RetriesMinuteApart: needs a clock that does not go back between selecting a height and recording its failure.
- Retention.ListedIsOld: by the server's clock the bound is weaker by the day that the function tolerates.
- Heights, counters and times are unbounded integers, except where `IndexerRuns.RefCountsFit` shows that ref_count fits its width.
