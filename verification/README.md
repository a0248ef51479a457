# A verified model of the DeFi indexer's scheduler and readers

The application fills a database of tokens, pools, farms, NFTs and wallet interactions from several chains.
Its work is done by cron jobs that crawl on-chain lists in windows of ten, write inside transactions and keep a
cursor, and by readers that put many contract calls into one multicall. This project models that logic in Dafny
and proves what it keeps.

`dafny verify dfyconfig.toml` checks everything. One module per component:

| modules | component |
|---|---|
| `PairPipeline`, `PairDoTask`, `PairCrawl`, `PairRefinement` | the pair job: one chunk as functions and methods; any number of overlapping runs as a transition system; the proof that the first is a behaviour of the second |
| `InteractionCrawl`, `NftCrawl`, `CrawlWindow` | the other two crawls with a cursor |
| `JobLifecycle`, `ErrorClasses` | the flags of a job, and how errors become exceptions |
| `FarmRewards`, `FarmRun`, `MdexHalving` | reward shares, the per-pool loop, the halving loop |
| `TokenPrices`, `PriceRefresh` | AMM prices and how they are stored |
| `Swap` | currency pairs, pools and the best trade |
| `Wallet` | token balances and farms of a wallet |
| `MultiCall`, `BatchReads`, `CodeMemory` | the multicall contract and what TypeScript makes of its answers |
| `Arrays`, `Numbers`, `Addresses` | list helpers, bignumber.js values, canonical addresses |

How to read it. Code that changes state is a class or a method, tied by its `ensures` to a specification function;
the lemmas say what that function means. In the three crawls and the farm rows `Step` (or `RowAfter`) lists the
steps a run makes between two `await`s, `Enabled` says when each is possible, and the lemmas speak of every
sequence of such steps. The pair and interaction jobs are proved safe without any mutual exclusion: the flag
`process` is checked (src/scheduler-job/scheduler-job.base.ts:96) and written (line 47) in two steps, so two runs
of one job can overlap (`JobLifecycle.WorksExactly`). Money is `real`: multiplication and decimal shifts are exact in bignumber.js, division is
a rounding function of its own (`Numbers.Div`).

## Where the code does not do what it is for

Each of these is the code as it is, with the exact condition proved for all inputs, and an input that shows it.

- The Mdex loop adds the tail of the year once per crossed boundary, so the yearly amount is right only if exactly
  one boundary is crossed (or nothing is paid at the end, or the year has no blocks): `MdexHalving.YearlyAmountRight`;
  two wrong years: `MdexHalving.WrongYears`.
- The LP price scales the key token's balance by the LP token's decimals, so the printed price is right only if both
  tokens have the same decimals or the price prints as zero: `TokenPrices.LpPriceRightScale`,
  `TokenPrices.LpPriceStoredRight`; a token worth 2 stored as 2 * 10^-12: `TokenPrices.WrongLpPrice`.
- The class "could not detect network" is reported with an empty message, so a second handler makes it Fatal:
  `ErrorClasses.SecondHandlerAgrees`; the plain message: `ErrorClasses.UndetectedNetworkTurnsFatal`.
- A chunk aborts iff a new pair has as a token a new pair that the first pass leaves out:
  `PairDoTask.AbortsExactlyWhenBlocked`; nesting three deep does: `PairDoTask.ThreeLevelsAbort`. As long as chain
  answers and rows are the same, every run that takes it ends so: `PairDoTask.BlockedChunkStays`.
- The pair cursor can go back: a step lowers it iff the step commits a run whose window, from the cursor and length
  that run read, ends below the committed cursor: `PairCrawl.CursorFallsExactly`; two runs of one job that do it:
  `PairRefinement.CursorGoesBack`.
- The NFT job commits its cursor before its rows. With sequential runs an index gets no row iff a run whose window
  holds it ended in between: `NftCrawl.RowsBelowCursor`; such a run: `NftCrawl.FailureLosesTheWindow`. With overlapping runs an index gets two rows iff of two
  committed runs one read the cursor inside the other's window: `NftCrawl.DuplicatesExactly`,
  `NftCrawl.DuplicatesIffStale`; a behaviour that gets there: `NftCrawl.OverlapDuplicates`.
- A batch of blocks may have fewer entries than blocks, and the cursor passes the missing ones: a block was dealt
  with iff some committed batch had an entry for it: `InteractionCrawl.BlocksBelowCursorDealtWith`,
  `InteractionCrawl.ShortBatchPassesBlocks`.
- A farm switched off can be switched on again by a refresh that read it earlier, and only so:
  `FarmRun.ReactivatedIffReadEarlier`, `FarmRun.OverlapReactivates`.
- The flag `process` stays set iff, since the last start that could clear it, a tick began and went wrong outside a
  Normal exception, or a crash hit one before it cleared the flag: `JobLifecycle.FlagSetIff`; an error that escapes:
  `JobLifecycle.EscapedErrorSticks`. It does not keep two ticks apart: both work iff both check it before either sets
  it: `JobLifecycle.WorksExactly`, `JobLifecycle.TicksCanOverlap`.
- `getProtocolPairs` fails with a TypeError iff the chain has no protocols or there is no pair of tokens:
  `Swap.GetProtocolPairs`; there is no pair iff the two tokens and all bases are one token: `Swap.NoCombinationsIff`.
- The best trade has the highest price iff the first candidate of that price beats by 0.5% what was chosen before it:
  `Swap.HighestChosenIff`; three hop levels where it does not: `Swap.BestTradeNeedNotBeMaximal`.

## Model

| member | source | states |
|---|---|---|
| `PairCrawl.CoverageAlways` | src/scheduler-job/template/pair.template.ts:514-581 | in every reachable state of any number of overlapping pair runs, with failures, crashes and cursors set back, no cursor passes the factory's length and every index below it was handled by a committed chunk of its own job, its pair having a row, a component such a chunk classified invalid, or a component with an inactive row |
| `PairCrawl.HandledByACommit` | src/scheduler-job/template/pair.template.ts:557-565 | an index is recorded as handled iff some earlier step committed a chunk of the job that holds it, and an address is recorded for it iff such a chunk classified it invalid |
| `PairCrawl.CompositionWellFounded` | src/scheduler-job/template/pair.template.ts:343-447 | in every reachable state both components of every MULTI row are the rows its contract names, with smaller ids, and no chain of components returns to its start |
| `PairCrawl.NothingIsForgotten` | libs/repository/src/token/repository.ts:72-92 | committed rows, handled indices and their classifications are never lost or changed by any later step of any run |
| `PairCrawl.StepKeeps` | src/scheduler-job/template/pair.template.ts:457-581 | each of the steps of the chain, of runs, failures and crashes keeps the invariant of store, windows and open transactions |
| `PairCrawl.AlwaysInv` | src/scheduler-job/template/pair.template.ts:457-581 | the invariant holds in every state of every behaviour |
| `PairCrawl.ChunkAccounted` | src/scheduler-job/template/pair.template.ts:557-565 | what a run commits accounts for every pair of its window at the instant its cursor becomes visible |
| `PairCrawl.CursorFallsExactly` | src/scheduler-job/template/pair.template.ts:524-565 | in every behaviour a step lowers a job's cursor iff it commits a run of the job whose window, computed from the cursor and length it read, ends below the committed cursor; a run whose cursor is still the committed one always raises it |
| `PairRefinement.CursorGoesBack` | src/scheduler-job/template/pair.template.ts:524-565 | from any initial state with two plain pairs two runs of one job, without any failure, take the cursor from 2 back to 1 |
| `PairCrawl.InsertKeeps` | libs/repository/src/token/repository.ts:72-92 | an insert-or-ignore under keys no other transaction holds keeps the invariant of all runs |
| `PairCrawl.IdsDecrease` | src/scheduler-job/template/pair.template.ts:388-398 | along any path of components ids strictly decrease |
| `PairRefinement.IsolatedRunIsABehaviour` | src/scheduler-job/template/pair.template.ts:457-581 | a run beside runs that have staged nothing, if it commits, goes by enabled steps from its tick to exactly the rows, next id and cursor that `RunOnce` computes |
| `PairRefinement.DoTaskLosesNothing` | src/scheduler-job/template/pair.template.ts:457-512 | after a committed chunk each of its pairs has a row, or a component classified invalid, or a component whose row is inactive |
| `PairDoTask.PairJob.Run` | src/scheduler-job/template/pair.template.ts:514-581 | at most ten pairs from the cursor on; rows and cursor change together or not at all, and nothing changes when reads, an entry, the chunk or the commit fail |
| `PairDoTask.PairJob.RunTask` | src/scheduler-job/template/pair.template.ts:457-512 | the staged rows and the next id, or the abort, as the composition of grouping, filtering, classification and the insertion passes |
| `PairDoTask.PairJob.CreateMultiTokens` | src/scheduler-job/template/pair.template.ts:343-447 | the two passes: rows whose components are there and active, pairs put off to a second look, the throw when a component is missing then too |
| `PairDoTask.StagedRowsExact` | src/scheduler-job/template/pair.template.ts:316-447 | every row a chunk stages is new, with a fresh id, the contract's own name and decimals, and a status that says whether name and symbol are known; a pair of the chunk is a MULTI row with the symbols of its two tokens joined by "-" in order, which are visible, active and referred to by id; anything else is a SINGLE row with its own symbol, of a contract that is no pair |
| `PairDoTask.AbortsExactlyWhenBlocked` | src/scheduler-job/template/pair.template.ts:411-425 | a chunk aborts iff some new pair without rejected token has as token a new pair the first pass leaves out (a second token counts only if the first is active), all in terms of the chain and the committed rows |
| `PairDoTask.BlockedChunkStays` | src/scheduler-job/template/pair.template.ts:557-573 | while chain answers and rows are the same every run that takes a blocked chunk leaves rows and cursor where they are |
| `PairDoTask.ThreeLevelsAbort` | src/scheduler-job/template/pair.template.ts:377-446 | pairs nested three deep in one chunk abort it |
| `PairDoTask.FlatChunkCommits` | src/scheduler-job/template/pair.template.ts:457-512 | a chunk none of whose new pairs has another new pair of the chunk as a token never aborts |
| `PairDoTask.FirstPassMembers` | src/scheduler-job/template/pair.template.ts:353-402 | exactly which new pairs the first pass inserts (no token rejected, new or inactive) and which it puts off |
| `PairDoTask.ComponentPlace` | src/scheduler-job/template/pair.template.ts:457-505 | after the single tokens are in, a token of a new pair that is not rejected has a row iff it is not itself a new pair of the chunk, with the status its committed row or its name and symbol give |
| `PairDoTask.RejectedExactly` | src/scheduler-job/template/pair.template.ts:91-235 | a token of a new pair is classified invalid iff it is unknown, no pair of the chunk, and without code or itself a pair contract |
| `PairDoTask.PresentInSecondPass` | src/scheduler-job/template/pair.template.ts:404-423 | such a token has a row in the second pass iff it is not a new pair the first pass left out |
| `PairPipeline.SinglesPartitioned` | src/scheduler-job/template/pair.template.ts:122-235 | every new single is, in exactly one way, also a new pair, without code, a pair contract in single position, or pure; no class has repeats |
| `PairPipeline.Grouping` | src/scheduler-job/template/pair.template.ts:72-89 | the pairs and the component tokens, first occurrences in order |
| `PairPipeline.RemoveInvalidTokens` | src/scheduler-job/template/pair.template.ts:122-163 | singles that are new pairs are dropped, the rest is split by having code |
| `PairPipeline.CheckMultiTokenInSinglePosition` | src/scheduler-job/template/pair.template.ts:165-235 | pure singles, and the invalid list extended by the pair contracts found in single position |
| `PairPipeline.SinglesMembers` | src/scheduler-job/template/pair.template.ts:79-83 | the singles are exactly the two tokens of each pair |
| `PairPipeline.InsertAllExact` | libs/repository/src/token/repository.ts:72-92 | insert-or-ignore keeps what is there, writes only its own rows under free keys, and leaves none of its keys without a row |
| `PairPipeline.InsertAllFits` | libs/repository/src/token/repository.ts:72-92 | inserting rows that refer to rows already visible keeps every row well-formed |
| `PairPipeline.PassOneExact` | src/scheduler-job/template/pair.template.ts:353-402 | the first pass handles every new pair, inserts only pairs, and its rows refer to visible rows with smaller ids, even when lookups miss rows |
| `PairPipeline.PassTwoExact` | src/scheduler-job/template/pair.template.ts:409-440 | the second pass throws iff a needed row is missing; otherwise it inserts every pair put off, or finds an inactive component |
| `InteractionCrawl.TableIsUnionOfWindows` | src/scheduler-job/template/interaction.template.ts:149-214 | after any interleaving of overlapping, repeated and failing runs the table holds exactly its first keys and those of contract-targeted transactions of the blocks committed windows have parsed, each key once |
| `InteractionCrawl.BlocksBelowCursorDealtWith` | src/scheduler-job/template/interaction.template.ts:149-214 | every block from the first cursor to the current one lies in a committed window, and was parsed or answered with an error iff the batch of such a window had an entry for it; with no short batch all of them were; the cursor stays below the chain's height |
| `InteractionCrawl.ShortBatchPassesBlocks` | src/scheduler-job/template/interaction.template.ts:174-198 | a batch without entries commits the run and passes its blocks |
| `InteractionCrawl.StepKeeps` | src/scheduler-job/template/interaction.template.ts:149-214 | each step of chain, runs, failures and crashes keeps the invariant |
| `InteractionCrawl.AlwaysInv` | src/scheduler-job/template/interaction.template.ts:149-214 | the invariant holds in every state of every behaviour |
| `InteractionCrawl.InteractionsExact` | src/scheduler-job/template/interaction.template.ts:121-147 | exactly the (from, to) pairs of transactions to contracts; contract creations never among them |
| `InteractionCrawl.InsertIgnoreExact` | src/scheduler-job/template/interaction.template.ts:107-119 | insert-or-ignore adds exactly the missing keys, each once |
| `InteractionCrawl.InteractionJob.Run` | src/scheduler-job/template/interaction.template.ts:149-214 | one whole run, and each way it can end |
| `InteractionCrawl.RunOnceExact` | src/scheduler-job/template/interaction.template.ts:149-214 | a committed run adds exactly the keys of its window's answered blocks and moves the cursor by up to ten; any other run changes nothing |
| `InteractionCrawl.RunIsABehaviour` | src/scheduler-job/template/interaction.template.ts:149-214 | a run beside no other that commits goes by enabled steps to exactly the rows and cursor that `Run` computes in one go |
| `InteractionCrawl.RecordsAreCommits` | src/scheduler-job/template/interaction.template.ts:191-201 | the recorded parsed blocks, failed blocks and windows are exactly those of runs committed so far |
| `InteractionCrawl.WindowKeysExact` | src/scheduler-job/template/interaction.template.ts:180-189 | the keys of a window are those of its answered blocks; an entry without result throws, an error entry or a missing one is skipped |
| `CrawlWindow.WindowExactly` | src/scheduler-job/template/pair.template.ts:535-541 | a window is not empty when there is something beyond the cursor, holds at most ten entries, and stops short only with ten |
| `InteractionCrawl.WindowsTile` | src/scheduler-job/template/interaction.template.ts:157-166 | successive windows tile the range to a fixed head without gap or overlap, in exactly ceil((head - s) / 10) pieces |
| `InteractionCrawl.ReachesHead` | src/scheduler-job/template/interaction.template.ts:157-166 | after n successful runs the cursor is at min(s + 10n, head), so the head is reached iff n is at least that number |
| `InteractionCrawl.RunsFollowWindows` | src/scheduler-job/template/interaction.template.ts:149-214 | successful runs against a fixed head move the cursor along those windows |
| `NftCrawl.RowsBelowCursor` | src/scheduler-job/template/nft.template.ts:70-125 | between sequential runs each passed index has exactly one new row iff no run whose window holds it ended between its cursor write and its commit, and none otherwise; nothing else is touched |
| `NftCrawl.LostByOneStepOnly` | src/scheduler-job/template/nft.template.ts:105-118 | with any overlap, a cursor write lacks its rows iff its run is still between the write and the commit, or ended there in some step |
| `NftCrawl.LosingStepLosesTheWindow` | src/scheduler-job/template/nft.template.ts:105-118 | after such a step of sequential runs the whole window lies below the cursor without rows in every later idle state |
| `NftCrawl.RowsCountWindows` | src/scheduler-job/template/nft.template.ts:105-111 | in every reachable state of overlapping runs an index has one new row for each committed window that holds it, two iff two hold it |
| `NftCrawl.DuplicatesExactly` | src/scheduler-job/template/nft.template.ts:78-111 | some index has two new rows iff of two runs with committed rows one read the cursor at a value inside the other's window |
| `NftCrawl.OverlapIffStale` | src/scheduler-job/template/nft.template.ts:79-109 | two written windows share an index iff some run wrote the cursor after another write had followed its read |
| `NftCrawl.DuplicatesIffStale` | src/scheduler-job/template/nft.template.ts:79-111 | without such a write no index has two new rows; when all staged rows are committed, some index has iff there was one |
| `NftCrawl.StepKeeps` | src/scheduler-job/template/nft.template.ts:70-125 | each step of overlapping runs keeps the count of rows by committed windows and the log of cursor writes |
| `NftCrawl.AlwaysInv` | src/scheduler-job/template/nft.template.ts:70-125 | the invariant holds in every state of every behaviour |
| `NftCrawl.NftJob.Run` | src/scheduler-job/template/nft.template.ts:70-125 | rows gain one per index of the window iff the run commits; the cursor moves also when it fails after its cursor write |
| `NftCrawl.WindowCounts` | src/scheduler-job/template/nft.template.ts:96-108 | a window's rows are one for each of its indices |
| `NftCrawl.OverlapDuplicates` | src/scheduler-job/template/nft.template.ts:78-111 | from any initial state with something to crawl two overlapping runs reach two new rows for every index of the window |
| `NftCrawl.FailureLosesTheWindow` | src/scheduler-job/template/nft.template.ts:105-118 | from any initial state with something to crawl one run that fails after its cursor write leaves the cursor moved and no row |
| `NftCrawl.RunIsABehaviour` | src/scheduler-job/template/nft.template.ts:70-125 | a run beside no other, wherever it is stopped, goes by enabled steps to exactly the rows and cursor that `Run` leaves |
| `JobLifecycle.SchedulerJob.CheckState` | src/scheduler-job/scheduler-job.base.ts:83-119 | when a tick may start work, and what the check changes when it may not |
| `JobLifecycle.SchedulerJob.ProcessWork` | src/scheduler-job/scheduler-job.base.ts:39-77 | the row, registry and timer after one tick, for every way its work and its writes can end |
| `JobLifecycle.EndingsExactly` | src/scheduler-job/scheduler-job.base.ts:45-71 | when each ending comes about and what it leaves: success the job as it was, a Normal exception an active row, a Fatal one a marked, inactive row in error and a job out of the registry |
| `JobLifecycle.ChangedCronIsAdopted` | src/scheduler-job/scheduler-job.base.ts:83-119 | a tick that may not start changes no row; a changed cron is adopted, and the next tick may start, iff its name is valid |
| `JobLifecycle.SchedulerJob.Restart` | src/scheduler-job/scheduler-job.service.ts:16-33 | the state after `start` |
| `JobLifecycle.StartedExactly` | src/scheduler-job/scheduler-job.service.ts:16-33 | a start without failure clears the flag, switches off an active job the application does not know, lets one it knows tick, and changes nothing else in the row |
| `JobLifecycle.FlagHasACause` | src/scheduler-job/scheduler-job.base.ts:39-77 | a set flag between ticks has a cause: an event that made it stick, after which no start cleared it |
| `JobLifecycle.FlagSetIff` | src/scheduler-job/scheduler-job.base.ts:39-77 | over any sequence of ticks, crashes after any write, and starts, the flag is set at the end iff, since the last start that could clear it, a tick began whose work threw a Fatal exception or an unclassified error or one of whose later writes failed, or a crash hit a tick after its first write and before it cleared the flag |
| `JobLifecycle.TickEndsWithLastWrite` | src/scheduler-job/scheduler-job.base.ts:39-77 | a whole tick leaves the row of the last of its writes, the list a crash cuts short |
| `JobLifecycle.WorksExactly` | src/scheduler-job/scheduler-job.base.ts:43-47 | for any number of ticks in any interleaving of checks and marks, the ticks that start work are exactly those that check the row before the first mark and mark it |
| `JobLifecycle.TicksCanOverlap` | src/scheduler-job/scheduler-job.base.ts:43-47 | two ticks that both check before either marks both work; in the other order only the first does |
| `JobLifecycle.EscapedErrorSticks` | src/scheduler-job/scheduler-job.base.ts:54-58 | a concrete tick with an escaping error, the idle tick after it, and the start that clears it |
| `JobLifecycle.StuckUntilStart` | src/scheduler-job/scheduler-job.base.ts:95-100 | while the flag is set no tick starts work or changes the row, until a `start` clears it |
| `ErrorClasses.SecondHandlerAgrees` | src/scheduler-job/scheduler-job.base.ts:162-232 | for every message a second handler gives the same exception iff the first did not see the undetected-network class; that one turns from Normal to Fatal |
| `ErrorClasses.FirstClassWins` | src/scheduler-job/scheduler-job.base.ts:162-232 | the exception of a message is that of the first text, in order, that occurs in it, and the unknown, Fatal one if none does |
| `ErrorClasses.UndetectedNetworkTurnsFatal` | src/scheduler-job/scheduler-job.base.ts:180-185 | the plain message of that class: Normal first, Fatal second |
| `ErrorClasses.MatchesMeansOccurs` | src/scheduler-job/scheduler-job.base.ts:164-180 | a message matches iff the text occurs in it at some position |
| `FarmRewards.RewardConserved` | src/scheduler-job/pancake-swap-job/pancake-swap-job.bsc.farm.service.ts:129-194 | over any pools with liquidity the payments implied by the stored rates differ from reward * sum of points / total by at most half of 10^-20 times (n * reward + sum of liquidity) |
| `FarmRewards.PoolPaysItsShare` | src/scheduler-job/pancake-swap-job/pancake-swap-job.bsc.farm.service.ts:163-180 | the same bound for one pool, both roundings counted, shares that round to zero included |
| `FarmRewards.WholeRewardConserved` | src/scheduler-job/pancake-swap-job/pancake-swap-job.bsc.farm.service.ts:129-194 | when the pools hold all points, the sum is the whole reward up to that bound |
| `FarmRewards.FundedRewardConserved` | src/scheduler-job/pancake-swap-job/pancake-swap-job.bsc.farm.service.ts:129-194 | over any pools, empty ones included, the sum is the funded pools' part of the reward up to that bound |
| `FarmRewards.YearlyRewardBound` | src/scheduler-job/pancake-swap-job/pancake-swap-job.bsc.farm.service.ts:93-127 | the yearly reward is exact but for the rounding of the blocks per day |
| `FarmRun.FarmStore.Run` | src/scheduler-job/pancake-swap-job/pancake-swap-job.bsc.farm.service.ts:196-281 | the table and the failed pids after the loop over all pools, for any failures |
| `FarmRun.RunPoolsExact` | src/scheduler-job/pancake-swap-job/pancake-swap-job.bsc.farm.service.ts:61-281 | for any snapshot, failures and table: a pid is reported iff something outside failed or its refresh could not read token or balance; a refreshed row keeps its stake token, a new one has the pool's, and both hold the staked balance at the token's decimals, that amount times the token's price, and a rate that pays the pool's share up to the rounding; a pool without points switches its row off; everything else stays |
| `FarmRun.PoolsIndependent` | src/scheduler-job/pancake-swap-job/pancake-swap-job.bsc.farm.service.ts:210-268 | each row ends as its own pass leaves it, a failing pool changes no row, and the failed pids are reported exactly once |
| `FarmRun.RetryConverges` | src/scheduler-job/pancake-swap-job/pancake-swap-job.bsc.farm.service.ts:196-281 | whatever failed before, a later run without failures leaves the table and report that one such run leaves; the run is idempotent |
| `FarmRun.InactiveForGood` | src/scheduler-job/pancake-swap-job/pancake-swap-job.bsc.farm.service.ts:147 | through any sequence of runs an inactive row stays as it is |
| `FarmRun.BecomesInactive` | src/scheduler-job/pancake-swap-job/pancake-swap-job.bsc.farm.service.ts:227-236 | an active row becomes inactive in a run iff its pool was read with no points and its pass did not fail |
| `FarmRun.ReactivatedIffReadEarlier` | src/scheduler-job/pancake-swap-job/pancake-swap-job.bsc.farm.service.ts:142-193 | with overlapping runs, in any reachable state, an inactive row can become active again iff a refresh that read it while active has not written yet |
| `FarmRun.OverlapReactivates` | src/scheduler-job/pancake-swap-job/pancake-swap-job.bsc.farm.service.ts:142-193 | two runs reach such a state, and the row comes back with the numbers of the earlier read |
| `FarmRun.RunConservesReward` | src/scheduler-job/pancake-swap-job/pancake-swap-job.bsc.farm.service.ts:196-281 | after any run, with any failures and on any table, the rates of the rows it refreshed (pool read with points, pass not failed, row active, with liquidity) pay, on what is staked by balance and price, their part of the reward up to the same bound |
| `FarmRun.StoredRatesConserveReward` | src/scheduler-job/pancake-swap-job/pancake-swap-job.bsc.farm.service.ts:182-193 | the rates of rows that hold this snapshot's numbers conserve the reward up to the bound |
| `MdexHalving.RewardAmountInOneYear` | src/scheduler-job/mdex-job/mdex-job.bsc.farm.service.ts:74-103 | the loop ends, with the blocks' payments plus one surplus tail for each crossed boundary but the last, and zero when none is crossed |
| `MdexHalving.YearlyAmountRight` | src/scheduler-job/mdex-job/mdex-job.bsc.farm.service.ts:74-103 | that is what the year's blocks pay iff exactly one boundary is crossed, or the end pays nothing, or there are no blocks |
| `MdexHalving.TooMuchAfterTwoBoundaries` | src/scheduler-job/mdex-job/mdex-job.bsc.farm.service.ts:84-103 | with two or more boundaries the surplus is exactly the tails of all but the last, and positive |
| `MdexHalving.WrongYears` | src/scheduler-job/mdex-job/mdex-job.bsc.farm.service.ts:84-103 | a year without halving that pays 32 and is computed as 0, and one with two halvings that counts 11 too much |
| `MdexHalving.LastSegment` | src/scheduler-job/mdex-job/mdex-job.bsc.farm.service.ts:93-99 | the blocks after the last boundary pay exactly the last tail |
| `MdexHalving.SamePhasePays` | src/scheduler-job/mdex-job/mdex-job.bsc.farm.service.ts:84-90 | blocks of one phase pay their number times its reward |
| `TokenPrices.CrawlSingleTokens` | src/scheduler-job/token-price-job/token-price-job.single.amm.service.ts:95-218 | one multicall for all tokens gives each token the update that its own calls alone give, none to tokens padded with dummy calls |
| `TokenPrices.SingleUpdatesExact` | src/scheduler-job/token-price-job/token-price-job.single.amm.service.ts:59-218 | in order, one update for each token with a pool worth something and for no other; it holds the token's id and supply, and a price that is the other token's balance in the first of the most valuable pools times that token's price, over the token's own balance there, each by its own call at its own decimals |
| `TokenPrices.TargetPairExact` | src/scheduler-job/token-price-job/token-price-job.single.amm.service.ts:59-93 | the pair of a token is the first of the most valuable active pools with it, none iff none is worth something |
| `TokenPrices.CrawlLpTokens` | src/scheduler-job/token-price-job/token-price-job.multi.amm.service.ts:71-166 | the same for LP tokens |
| `TokenPrices.LpUpdatesExact` | src/scheduler-job/token-price-job/token-price-job.multi.amm.service.ts:56-166 | in order, one update for each LP token one of whose tokens has a price feed and for no other; its price is twice the value of the first such token it holds over its supply, both amounts at the LP token's decimals |
| `TokenPrices.FindHighestLiquidityPair` | src/scheduler-job/token-price-job/token-price-job.single.amm.service.ts:80-93 | the loop computes `HighestLiquidity` |
| `TokenPrices.HighestLiquidityIsMaximum` | src/scheduler-job/token-price-job/token-price-job.single.amm.service.ts:80-93 | none iff no pair has positive liquidity; otherwise the first of the most liquid pairs |
| `TokenPrices.SinglePriceBound` | src/scheduler-job/token-price-job/token-price-job.single.amm.service.ts:181-214 | with a positive pool balance price times balance is within half of 10^-20 times balance of the other side's value; an empty pool and a price over 10^35 are stored as 0 |
| `TokenPrices.LpPriceBound` | src/scheduler-job/token-price-job/token-price-job.multi.amm.service.ts:137-163 | the same bound against twice the key side's value |
| `TokenPrices.LpPriceIgnoresDecimals` | src/scheduler-job/token-price-job/token-price-job.multi.amm.service.ts:137-163 | the LP price is the rounded quotient of raw amounts: the LP token's decimals cancel |
| `TokenPrices.LpPriceRightScale` | src/scheduler-job/token-price-job/token-price-job.multi.amm.service.ts:137-163 | the printed price is the one at the key token's own decimals iff both decimals agree or the larger of the two quotients rounds to 0 |
| `TokenPrices.LpPriceStoredRight` | src/scheduler-job/token-price-job/token-price-job.multi.amm.service.ts:137-163 | the stored prices agree iff the decimals do or both are stored as 0, too small to print or over 10^35 |
| `TokenPrices.LpUpdateIsCodePrice` | src/scheduler-job/token-price-job/token-price-job.multi.amm.service.ts:106-163 | what the job writes is that price, of the raw answers of the token's own two calls |
| `TokenPrices.WrongLpPrice` | src/scheduler-job/token-price-job/token-price-job.multi.amm.service.ts:137-163 | an LP token worth 2, of 18 decimals over a key token of 6, is stored as 2 * 10^-12 |
| `TokenPrices.StoredExactly` | src/scheduler-job/template/price.template.ts:53-74 | a non-negative number up to 10^35 is stored as it is, every other value as 0 |
| `PriceRefresh.RefreshVisitsEveryTokenOnce` | src/scheduler-job/template/price.template.ts:90-111 | every token is visited once, with its own chain, in pieces of 1 to 100 |
| `PriceRefresh.PriceStore.Refresh` | src/scheduler-job/template/price.template.ts:90-111 | the rows after all pieces, or after those before the first that throws; every stored number stays between 0 and 10^35 |
| `PriceRefresh.PriceStore.RefreshChain` | src/scheduler-job/template/price.template.ts:103-109 | the pieces of one chain, in order, up to the first that throws |
| `PriceRefresh.PriceStore.BulkUpdate` | src/scheduler-job/template/price.template.ts:42-88 | all rows of a piece or none |
| `PriceRefresh.UpdateRowsMeaning` | src/scheduler-job/template/price.template.ts:55-76 | a row holds what the last update of its id stored, or what it held before |
| `PriceRefresh.UpdateRowsInRange` | src/scheduler-job/template/price.template.ts:53-76 | updates keep every stored number in range and add or remove no row |
| `PriceRefresh.SingleUpdatesComputed` | src/scheduler-job/token-price-job/token-price-job.single.amm.service.ts:144-218 | what the single-token job computes from non-negative prices is never negative |
| `PriceRefresh.LpUpdatesComputed` | src/scheduler-job/token-price-job/token-price-job.multi.amm.service.ts:106-166 | the same for the LP-token job |
| `PriceRefresh.PriceJobsKeepRange` | src/scheduler-job/template/price.template.ts:90-131 | both jobs keep every stored number between 0 and 10^35, for any chains, tokens and failures |
| `Swap.CombinationsExact` | src/swap/swap.service.ts:212-257 | for any base list, repeats and the two tokens included, exactly the pairs {A,B}, A with a base, B with a base, two bases, each once and address-sorted |
| `Swap.GetProtocolPairs` | src/swap/swap.service.ts:188-356 | every protocol of the chain gets the pools that reading its own pairs one by one gives; a TypeError iff the chain has no protocols or there are no pairs |
| `Swap.PoolsKeepTheirPair` | src/swap/swap.service.ts:318-351 | through the index-preserving filter each pool belongs to the pair at its position, one per readable pair, with reserve0 at the lower-sorted token |
| `Swap.NoCombinationsIff` | src/swap/swap.service.ts:212-257 | there is no pair of tokens iff the two tokens and all bases are the same token |
| `Swap.GetBestTrade` | src/swap/swap.service.ts:367-399 | the loop picks the candidate at `BestIndex` |
| `Swap.ChoiceExactly` | src/swap/swap.service.ts:387-430 | a candidate is taken iff nothing was chosen before or its price is more than 1.005 times the price chosen before; otherwise the choice stays |
| `Swap.BestTradeIsGoodEnough` | src/swap/swap.service.ts:367-431 | none iff no candidate; strictly better than every earlier candidate; no candidate better by more than 1.005 |
| `Swap.HighestChosenIff` | src/swap/swap.service.ts:367-431 | the choice has the highest price iff the first candidate of that price finds nothing chosen or is more than 1.005 times what is chosen among those before it |
| `Swap.BestTradeNeedNotBeMaximal` | src/swap/swap.service.ts:383-393 | three hop levels with prices that never fall, of which the best is not chosen |
| `Wallet.GetWalletTokenBalances` | src/wallet/wallet.service.ts:62-103 | fails iff some token answers with no number; otherwise an entry appears as often as its token iff it shows, at the token's decimals, what the wallet holds of it on its own chain and that is not zero, and never otherwise |
| `Wallet.EntriesExactly` | src/wallet/wallet.service.ts:85-97 | the same for asking token by token |
| `Wallet.ChainBalances` | src/wallet/wallet.service.ts:66-99 | one chain's tokens with a balance, in order |
| `Wallet.GroupedSameAsSingle` | src/wallet/wallet.service.ts:62-103 | grouping by chain, batching, filtering and flattening loses and adds nothing |
| `Wallet.NonZeroCount` | src/wallet/wallet.service.ts:85-97 | an entry appears as often as its token, with the token's own scaled balance, and never for a zero balance |
| `Wallet.GetFarmWalletInfo` | src/defi/pancake-swap/pancake-swap.bsc.service.ts:518-599 | each farm shown with the decoded answers of its own two calls |
| `Wallet.GetWalletFarms` | src/defi/pancake-swap/pancake-swap.bsc.service.ts:73-83 | the farms of the two kinds, each read its own way, in order |
| `Wallet.InvestedCount` | src/defi/pancake-swap/pancake-swap.bsc.service.ts:545-597 | a farm is shown iff it has stake or reward, as often as asked for |
| `Wallet.FarmEntriesExactly` | src/defi/pancake-swap/pancake-swap.bsc.service.ts:545-597 | an entry appears as often as its farm iff it shows the stake of the farm's first call at the stake token's decimals and the reward of its second at the reward token's, not both zero, and never otherwise |
| `MultiCall.StaticAggregate` | multicalls/contracts/MultiCall.sol:293-304 | reverts iff success is required and a call fails; otherwise answer i belongs to call i |
| `MultiCall.GetBatchERC20Balances` | multicalls/contracts/MultiCall.sol:125-163 | cell j + T*i holds the number token j answers to `balanceOf` of user i, zero if that call fails or answers nothing, and the native balance for the zero address; reverts iff some answer is no number |
| `MultiCall.BalanceExactly` | multicalls/contracts/MultiCall.sol:125-161 | the same for one cell |
| `MultiCall.EveryCellOnce` | multicalls/contracts/MultiCall.sol:153-155 | every index of the array is the cell of exactly one user and token |
| `BatchReads.ReadInGroups` | src/scheduler-job/token-price-job/token-price-job.single.amm.service.ts:137-142 | flattening, one multicall and cutting back into pieces of k |
| `BatchReads.BatchEqualsIndividual` | multicalls/contracts/MultiCall.sol:293-304 | batched reading equals reading item by item, for every item list and every fixed k |
| `BatchReads.ZipPairsOwnAnswers` | src/defi/pancake-swap/pancake-swap.bsc.service.ts:519-552 | after `zip` each item is paired with the answers to its own calls, in order |
| `CodeMemory.ReservedBounds` | multicalls/contracts/MultiCall.sol:240 | the masked round-up reserves a multiple of 32, at least size + 32 and less than size + 64 |
| `CodeMemory.ReservedCoversExactly` | multicalls/contracts/MultiCall.sol:240 | the reservation covers length word and code iff the sums in it do not overflow 256 bits |
| `CodeMemory.MaskDropsLowBits` | multicalls/contracts/MultiCall.sol:240 | and-ing with not(31), bit by bit, drops the remainder by 32 |
| `CodeMemory.Memory.GetCode` | multicalls/contracts/MultiCall.sol:236-244 | the code is placed at the free pointer, which stays aligned; nothing allocated before changes |
| `CodeMemory.Memory.GetBatchGetCode` | multicalls/contracts/MultiCall.sol:254-259 | the array points, in order, at blobs that hold exactly the codes, aligned and in disjoint ranges |
| `CodeMemory.StartsApart` | multicalls/contracts/MultiCall.sol:236-259 | for any code sizes without overflow the blobs of a batch are aligned and disjoint |
| `CodeMemory.BytesRoundTrip` | multicalls/contracts/MultiCall.sol:240-241 | a word read back from its bytes is the word stored |
| `Numbers.RoundIsNearest` | libs/helper/src/bignumber.ts:37-39 | division's rounding yields a multiple of 10^-20, and none is nearer |
| `Numbers.TiesGoAwayFromZero` | libs/helper/src/bignumber.ts:37-39 | half-way between two multiples the one further from zero is taken, on both sides of zero |
| `Numbers.PrintedIsNearest` | libs/helper/src/bignumber.ts:13-15 | what is printed with 20 places is a nearest multiple of 10^-20 |
| `Numbers.DivTimesDivisor` | libs/helper/src/bignumber.ts:37-39 | quotient times divisor misses the dividend by at most half of 10^-20 times the divisor |
| `Numbers.RoundIdempotent` | libs/helper/src/bignumber.ts:13-15 | printing a quotient with 20 places changes nothing |
| `Arrays.ChunkOfFlat` | libs/helper/src/array.ts:29-31 | chunking the flattening of groups of k gives the groups back |
| `Arrays.FlatOfChunk` | libs/helper/src/array.ts:9-31 | flattening chunks gives the list back |
| `Arrays.ChunkShape` | libs/helper/src/array.ts:29-31 | no chunk is empty, all but the last are full, and there are ceil of the quotient |
| `Arrays.GroupKeysExact` | libs/helper/src/array.ts:48-50 | the keys of a grouping are the keys of the elements, once each, ascending |
| `Arrays.GroupsPartition` | libs/helper/src/array.ts:48-50 | flattening all groups keeps every element with its multiplicity |
| `Arrays.UniqueIsSet` | src/scheduler-job/template/pair.template.ts:85-88 | the same members, each once |
| `Arrays.UniqueKeepsFirsts` | src/scheduler-job/template/pair.template.ts:85-88 | the first occurrences of a prefix come first, in the same order |

## Left out

- The chain: RPC providers, ethers contracts, axios, subgraphs and IPFS are oracles that answer or fail.
- ABI encoding, keccak256 and CREATE2 are parameters. In the price and farm readers an answer that is not empty but
  cannot be decoded would make the whole read throw; there every non-empty answer decodes.
- The database is a keyed table with find, insert-or-ignore, staged commit and rollback. Rollback and release succeed
  in the crawls; `JobLifecycle.Work` has the case that they do not. Columns do not truncate: DECIMAL(65,22) is exact here.
- Lookups inside a pair transaction may miss rows but not invent them; which rows an isolation level shows is open.
- A factory's entries and a pair's two tokens never change; chain reorganisations are not modelled. A lagging node
  is modelled only by a shorter list or an earlier head.
- InteractionCrawl.BlocksBelowCursorDealtWith: an entry of a batch answers one of the blocks asked for, each at most once.
- Callbacks of one `Promise.all` over database reads are taken in index order, as one connection serves them.
- Letter case of addresses and the other networks: an address is a canonical number, each crawl has one network.
- PairPipeline.CheckMultiTokenInSinglePosition: the fallback with single reads is part of the run's read failures,
  because its promise is returned un-awaited and its `catch` never sees a rejection, so one failing read fails the
  chunk; the branch for weird tokens is never reached.
- PairDoTask.PairJob.Run: a factory entry that could not be read fails the chunk, because no later call can encode it.
- TokenPrices.CrawlSingleTokens: the chosen pair is kept in a list beside the tokens, not written into them; `other`,
  `keyPair` and `wallet` of the source's objects, and any aliasing through them, are not captured.
- Wallet.GetFarmWalletInfo: the two calls of a farm and their decoders are parameters; returns farm and amounts as a value instead of writing `wallet` into the farm.
- TokenPrices.CrawlLpTokens: a missing (null) price column of a key token; every token has a price here.
- MdexHalving.RewardAmountInOneYear: the scaling of the amount by the reward token's decimals and price is left out;
  the contract's `phase` and `reward` are parameters; the last block of phase n is
  startBlock + (n + 1) * halvingPeriod, the reward is constant within a phase, and the number of blocks in a year is
  an integer.
- MultiCall.GetBatchERC20Balances: the product of the two lengths does not overflow 256 bits.
- CodeMemory.Memory.GetBatchGetCode: zeroing of the fresh array is not modelled, each element is written before it is read.
- NftCrawl.RowsBelowCursor: the crawl yields one row for each index; images, metadata and attributes are dropped. It
  is stated for sequential runs; `NftCrawl.RowsCountWindows` is the statement for overlapping ones.
- JobLifecycle.FlagSetIff: stated for ticks one after the other; overlapping ones are followed only up to the start of
  their work (`JobLifecycle.WorksExactly`). Cron timing is a tick at any time; log entries are dropped.
- FarmRun.InactiveForGood: stated for runs one after the other; `FarmRun.ReactivatedIffReadEarlier` is the statement
  for overlapping ones.
- FarmRun.FarmStore.Run: farms of other names that share the table's key, and the columns for assets and data.
- Numbers: exponent limits and negative zero of bignumber.js.
- The trades themselves: the Uniswap SDK's search per hop count is not part of this model, its candidates are inputs.
- The other farm, pair, NFT, price and DeFi services are near copies of the modelled ones;
  pancake-swap-job.bsc.farm2.service.ts opens transactions it never commits.
- Controllers, DTOs, Swagger, loggers, filters, configuration, migrations, seeds and module wiring.
