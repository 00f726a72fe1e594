# Verification model of the DASH invoice bridge

The repository turns DASH payments into satoshi credits: an API creates invoices with a quoted amount of duffs and a
fresh receive address each, and a watcher polls a Dash node, merges what the node reports into the stored invoices and
decides when an invoice is settled, overpaid, underpaid or expired. This project models that logic in Dafny 4.11 and
proves what it guarantees.

Run `dafny verify dfyconfig.toml` in this directory.

## How it is laid out

| file | what it models |
|---|---|
| `Base.dfy`, `Sorting.dfy` | filters and sums over sequences; sorted listings of finite sets |
| `Decimal.dfy` | the decimal context of Python: 28 significant digits, round half even |
| `Amounts.dfy`, `Quotes.dfy`, `HiveConfig.dfy`, `Pricing.dfy` | amounts, quotes, fees, rate windows as configured |
| `Settlement.dfy`, `SettlementLaws.dfy` | the settlement decision and the merge of outputs |
| `Invoices.dfy`, `Collection.dfy` | the stored document, its compare-and-set updates, inserts under unique keys |
| `Protocol.dfy`, `History.dfy`, `LatePayments.dfy` | all interleavings of ticks, cancels and creates; what recorded history keeps; late payments |
| `Rotation.dfy`, `Watcher.dfy`, `WatcherLaws.dfy` | the rotating cursor, the watcher's methods, and how a tick fits the protocol |
| `Fairness.dfy` | rotation while invoices leave and join; when one is starved, when an overdue one becomes final |
| `RateLimit.dfy`, `RateLimitLaws.dfy` | the sliding-window check, its expiry hint, and the limit over runs |
| `CustomerLimits.dfy` | the limits over protocol runs, on the documents as stored |
| `Creation.dfy`, `CreationLaws.dfy`, `CreationProtocol.dfy` | wallet row, index allocation, create; what a created invoice is priced at; all interleavings of creates and boots |
| `SharedCollection.dfy` | the watcher's and the creating side's state machines on one collection |
| `Pagination.dfy` | cursor pagination of the invoice list |

Objects the source updates in place are classes (`WatchedOutput`, `InvoiceCollection`, `WatcherState`, `WalletStore`)
and its loops are loops; their methods are proved against functions, and the laws are proved about those functions.
Concurrency is modelled by state machines whose steps are the single-document operations of Mongo; the node may answer
anything that lists each outpoint once, and tasks may be dropped at any point.

The watcher's methods carry a ghost parameter `judge`, a name for the decision function of the tick. It exists only so
that the verifier need not unfold the decision in every loop; `Watcher.Judges` says what it is.

## What was found

Properties one would expect of the code, and the exact condition under which they hold:

- Rounding the quote up does not always cover the satoshis: when the price is a hair above a whole number of duffs, 28
  digits drop the hair and the quote is one duff short (`QuoteExactly` says exactly when, `QuoteCanFallShort` gives a rate).
- The rate check can crash: a configuration that lists the same hours twice with the looser limit last leaves next() without
  a period to report, on requests between the two limits (`DuplicateHoursCrash`). A configuration never crashes exactly when
  each window is backed by one the dictionary keeps, at least as long and no more generous (`NeverCrashesExactlyWhen`).
- Invoices accepted one after the other can together exceed a limit: for every configuration the limits are kept over all
  runs exactly with at most one request outstanding (`CustomerLimitsKeptExactlyWhen` on the stored documents,
  `LimitsKeptExactlyWhen` on ledgers), and what is outstanding fits a window exactly when the check's sum and all of it do
  (`OutstandingFitsExactlyWhen`).
- The rotation can starve an invoice: creates only add ids beyond the cursor, and as long as every tick finds a full batch
  there the cursor is never reset. For every batch limit there are such ticks, with as many creates per tick as the limit
  (`CreatesCanStarve`). An invoice behind the cursor is loaded exactly if some tick finds fewer than the limit beyond it
  (`LoadedExactlyWhen`), again and again exactly if that happens again and again (`LoadedForeverExactlyWhen`); with fewer
  creates per tick than the limit it does, within a bound (`LoadedWhileFewJoin`).
- An output that has vanished from the node's answers, as after a reorganisation, keeps its old confirmations and still
  counts. A credit rests on outputs reported at the deciding tick exactly if the sum without the vanished ones reaches the
  threshold (`CreditStandsExactlyWhen`); that is so for every tick exactly for terms whose threshold any one output above dust
  reaches (`CreditsStandExactlyWhen`).
- A write can lose a recorded output when a second task on the invoice wrote since this one read. It keeps all of them
  exactly when it is refused, or when the document's outpoints are among those the task read or was told of
  (`WriteKeepsOutputsExactlyWhen`; for first-seen times `WriteKeepsTimeExactlyWhen`); no other step of any run loses one
  (`StepKeepsOutputsExactlyWhen`). States stay sound even then.
- An invoice quoted below the dust limit is not settled by an exact payment (`FirstExactPaymentSettlesExactlyWhen`).
- "Stuck" reports every overdue DETECTED invoice exactly when the settle deadline is not before expiry or no output above dust
  stays below the threshold (`StuckExactlyWhen`), and a credit needs evidence exactly when the threshold is positive
  (`EvidenceExactlyWhen`).
- Splitting a request can lower what is collected exactly when base and routing fee are both zero and the conversion fee
  rate is not a multiple of one half (`SplitKeepsExactlyWhen`). Among requests up to a maximum, at a rate below one half, it
  can exactly when besides the largest one is charged at all (`SplitKeepsUpToExactlyWhen`). A numeric base fee of 0 is read
  as the default 50 (`src/v4vapp_dash/limits/hive_config.py:131`), so this takes a configured fraction below one, or a text "0".
- A batch setting of 0 stops the rotation after one tick (`ZeroLimitStarves`); nothing validates the setting.
- The watcher's `last_error` never shows a failed `listunspent` after the round that met it (`WatchOnce`), although the
  health check reads it (`src/v4vapp_dash/api/health.py:73`).

Where the design document and the code differ the model follows the code: amounts read from the node are rounded half
even, not down; quotes are made on the satoshis to collect, not on those requested. After expiry both keep an invoice
DETECTED while a timely output does not meet its policy, and the code does so also when the timely sum is below tolerance,
for which the design document has a row that says UNDERPAID (`docs/design-dash-integration-bridge.md:841`).

## Model

| member | source | states |
|---|---|---|
| Settlement.FirstSeenIsLeast | src/v4vapp_dash/watcher/settlement.py:73 | first_seen is the time of some output and a lower bound of all |
| Settlement.Dictionary | src/v4vapp_dash/watcher/settlement.py:204 | a dictionary keyed by outpoint has each recorded outpoint once, and is the list itself when there are no repeats |
| Settlement.LastRowStays | src/v4vapp_dash/watcher/settlement.py:204 | of several recorded rows with one outpoint the last is kept |
| Settlement.RefreshReported | src/v4vapp_dash/watcher/settlement.py:207-213 | the first loop overwrites the reported objects in place with recorded first-seen times and collects their keys |
| Settlement.KeepUnreported | src/v4vapp_dash/watcher/settlement.py:214-226 | the second loop brings back, as new objects and in order, exactly the recorded rows the node no longer reports |
| Settlement.MergeOutputs | src/v4vapp_dash/watcher/settlement.py:199-227 | the in-place merge computes the merge function, reusing the reported objects and adding only new ones |
| SettlementLaws.MergeKeys | src/v4vapp_dash/watcher/settlement.py:204-227 | after a merge each outpoint appears once: the recorded and the reported ones, no others |
| SettlementLaws.MergeRetains | src/v4vapp_dash/watcher/settlement.py:210-226 | a recorded output is never lost and keeps its first-seen time |
| SettlementLaws.MergeOrigin | src/v4vapp_dash/watcher/settlement.py:207-226 | everything in a merge was recorded before or is reported now |
| SettlementLaws.QualifiesExactly | src/v4vapp_dash/watcher/settlement.py:45-50 | an output is final by a lock, unless the stored policy names another rule; then by at least one confirmation, or as many as it asks for |
| SettlementLaws.ToleranceExactly | src/v4vapp_dash/watcher/settlement.py:41-42 | the tolerance is the larger of the floor and the whole duffs in the share, a missing entry counting as 0 |
| SettlementLaws.CreditExactly | src/v4vapp_dash/watcher/settlement.py:134-159 | an invoice is credited exactly when something came in time and the qualifying sum reaches the threshold, and then for the requested satoshis |
| SettlementLaws.UnderpaidExactly | src/v4vapp_dash/watcher/settlement.py:149-184 | UNDERPAID exactly when time is up, something came in time, all of it qualifies and it totals below the threshold |
| SettlementLaws.ExpiredExactly | src/v4vapp_dash/watcher/settlement.py:110-132 | EXPIRED, or OPEN before expiry, exactly when nothing came in time |
| SettlementLaws.ClosedDecision | src/v4vapp_dash/watcher/settlement.py:86-108 | for a canceled or expired invoice a decision keeps the state, credits and settles nothing, is never stuck, records all outputs and their sum, and is late exactly when something was seen, for an expired one at or after expiry |
| SettlementLaws.ActiveFields | src/v4vapp_dash/watcher/settlement.py:70-184 | for an open or detected invoice every field of a decision in terms of the outputs and the clock: first seen, settled, credit, late, stuck, recorded list and sum |
| SettlementLaws.StuckIsOverdue | src/v4vapp_dash/watcher/settlement.py:161-173 | with a deadline not before expiry a decision is stuck exactly if it is DETECTED at or past the deadline, from whatever state it was made |
| SettlementLaws.DetectedAfterExpiryExactly | src/v4vapp_dash/watcher/settlement.py:161-184 | at or after expiry a decision is DETECTED if and only if the qualifying sum falls short of the threshold and some timely output does not qualify |
| SettlementLaws.StuckExactlyWhen | src/v4vapp_dash/watcher/settlement.py:161-173 | for given terms, over all outputs a tick can receive, stuck means DETECTED past the deadline in every decision, if and only if the deadline is not before expiry or no output above dust stays below the threshold |
| SettlementLaws.EvidenceExactlyWhen | src/v4vapp_dash/watcher/settlement.py:134-159 | for given terms, over all outputs a tick can receive, every credit rests on a timely qualifying output, if and only if the tolerance is below a positive quote |
| SettlementLaws.ToleranceBelowQuote | src/v4vapp_dash/watcher/settlement.py:41-42 | a floor below the quote and less than 10000 basis points meet that condition |
| SettlementLaws.DecisionIgnoresOrder | src/v4vapp_dash/watcher/settlement.py:70-84 | reordering the outputs reorders the recorded list and changes nothing else in the decision |
| SettlementLaws.CreditMonotone | src/v4vapp_dash/watcher/settlement.py:134-159 | more timely outputs, confirmations or locks, in any order and at any later time, never turn a credit into a non-credit |
| SettlementLaws.MergeCountsBoth | src/v4vapp_dash/watcher/settlement.py:199-227 | the qualifying sum of a merge is that of the outputs still reported plus that of the recorded ones that are gone, in full |
| SettlementLaws.CreditStandsExactlyWhen | src/v4vapp_dash/watcher/settlement.py:134-159 | a credit would also be given on what the node reports at that tick alone, if and only if the sum without the vanished outputs reaches the threshold (and, for a threshold of 0 or less, something timely is still reported) |
| SettlementLaws.CreditsStandExactlyWhen | src/v4vapp_dash/watcher/settlement.py:134-159 | for given terms, over all a consistent invoice can hold and a tick can be told, every credit stands in that way, if and only if the threshold is at most the larger of 1 and dust |
| Protocol.DecisionSound | src/v4vapp_dash/watcher/loop.py:118-139 | a decision made from any consistent snapshot is one its state may lead to, and writing it keeps the document consistent |
| Protocol.WriteFollowsEdge | src/v4vapp_dash/watcher/loop.py:188-214 | a write the compare-and-set lets through, however late it comes, follows an edge of the state graph from the state it overwrites; a DETECTED document is never put back |
| Invoices.WriteSetsOnly | src/v4vapp_dash/watcher/loop.py:198-208 | a write of the watcher sets what the decision says and the update time, and no other field |
| Invoices.CancelSetsOnly | src/v4vapp_dash/api/v1/invoices.py:257-265 | a cancel sets state, canceled_at and the update time of one document, and no other field |
| Protocol.StepKeeps | src/v4vapp_dash/watcher/loop.py:181-216 | every step of the interleaved protocol keeps the invariant and moves each document by at most one edge |
| Protocol.RunKeeps | src/v4vapp_dash/watcher/loop.py:181-216 | the invariant holds in every state of every run |
| Protocol.HistoryIsAPath | src/v4vapp_dash/watcher/loop.py:181-216 | over any run an invoice's states form a path of the state graph; settled_at and sats_credited are set once and never change |
| Protocol.AtMostTwoChanges | src/v4vapp_dash/watcher/loop.py:181-216 | no invoice changes state more than twice |
| Protocol.LeavingOpenLate | src/v4vapp_dash/watcher/settlement.py:111-122 | an OPEN invoice that a tick at or after expiry moves becomes EXPIRED |
| Protocol.CancelOnlyUntouched | src/v4vapp_dash/api/v1/invoices.py:257-267 | in any reachable state a cancel succeeds exactly on OPEN invoices, and those have no output recorded |
| Protocol.ReachableDocuments | src/v4vapp_dash/watcher/settlement.py:70-71 | every reachable OPEN document is untouched and every DETECTED one holds a timely output; first_seen_at is the time of a recorded timely output |
| Protocol.CreditsAreSound | src/v4vapp_dash/watcher/settlement.py:134-159 | in every reachable document a credit is present exactly in SETTLED and OVERPAID, for the requested amount, on enough timely qualifying duffs; OVERPAID exactly above the quote |
| History.HistoryOnlyGrows | src/v4vapp_dash/watcher/settlement.py:199-227 | with one watcher and a clock that does not go back: no recorded output is lost, first-seen times and amounts stay, late_payment latches, duffs_received never falls |
| History.ReceivedOncePerOutpoint | src/v4vapp_dash/watcher/settlement.py:76 | duffs_received is the sum of the chain's amounts over distinct recorded outpoints |
| History.OneInvoicePerOutpoint | src/v4vapp_dash/watcher/loop.py:73-92 | no outpoint is ever recorded for two invoices |
| History.Conservation | src/v4vapp_dash/watcher/loop.py:73-92 | over any set of invoices the amounts received add up to the chain's amounts over their outpoints, so nothing is counted twice across ticks or invoices |
| History.WriteKeepsOutputsExactlyWhen | src/v4vapp_dash/watcher/loop.py:198-216 | a write, however late, keeps every recorded outpoint of its document if and only if the filter refuses it or the task read or heard of all of them |
| History.StepKeepsOutputsExactlyWhen | src/v4vapp_dash/watcher/loop.py:181-216 | with any number of watchers, a step of a run loses no recorded outpoint of any document, if and only if it is not a write that overwrites outpoints its task does not know |
| History.WriteKeepsTimeExactlyWhen | src/v4vapp_dash/watcher/settlement.py:207-226 | a write keeps a recorded output with its first-seen time if and only if it is refused or the task would give the outpoint that time |
| History.TwoWatchersCanLoseAnOutput | src/v4vapp_dash/watcher/loop.py:198-216 | a run whose last step is such a write: two tasks read before either wrote, and the second drops what the first recorded |
| LatePayments.TimelyOutputsDecide | src/v4vapp_dash/watcher/settlement.py:66-84 | two output lists with the same timely part give the same decision but for total, late flag and recorded list |
| LatePayments.TimelyPartOfMerge | src/v4vapp_dash/watcher/settlement.py:199-227 | after expiry the timely part of a merge depends only on the timely part of what was recorded |
| LatePayments.LatePaymentsNeverMatter | src/v4vapp_dash/watcher/loop.py:109-154 | two histories of ticks from the same new invoice whose node answers differ only in late outputs end in the same outcome |
| Rotation.QueriedIsSlice | src/v4vapp_dash/watcher/loop.py:98-106 | what the query beyond the cursor returns is the next slice of the id-ordered watch set |
| Rotation.EveryInvoiceIsLoaded | src/v4vapp_dash/watcher/loop.py:65-69 | from any cursor every watched invoice is loaded within size/limit + 2 ticks |
| Fairness.LoadedFrom | src/v4vapp_dash/watcher/loop.py:65-69 | with any number of invoices joining after it and any leaving, an invoice beyond the cursor is loaded, or no longer watched, within (watched ids before it)/limit + 1 ticks |
| Fairness.LoadedAfterReset | src/v4vapp_dash/watcher/loop.py:65-69 | behind the cursor the same bound counts from any tick that finds fewer than the limit beyond the cursor |
| Fairness.StarvedUntilReset | src/v4vapp_dash/watcher/loop.py:65-69 | until such a tick an invoice behind the cursor is not loaded |
| Fairness.LoadedExactlyWhen | src/v4vapp_dash/watcher/loop.py:65-69 | an invoice that stays watched is loaded from a tick on if and only if it is beyond the cursor or some later tick finds fewer than the limit beyond the cursor |
| Fairness.LoadedForeverExactlyWhen | src/v4vapp_dash/watcher/loop.py:65-69 | it is loaded again and again if and only if the cursor is reset again and again |
| Fairness.LoadedWhileFewJoin | src/v4vapp_dash/watcher/loop.py:65-69 | with fewer joins per tick than the limit, none before it, it is loaded from any cursor, within (ids left)/(limit - joins) + 1 + (ids before it)/limit further ticks |
| Fairness.CreatesCanStarve | src/v4vapp_dash/watcher/loop.py:65-69 | for every limit, ticks with that many creates each in which a watched invoice is never loaded |
| Fairness.LoadedWhileOthersLeave | src/v4vapp_dash/watcher/loop.py:65-69 | while invoices leave the watch set and none joins, an invoice that stays is loaded within size/limit + 2 ticks from any cursor |
| Fairness.OverdueBecomesFinal | src/v4vapp_dash/watcher/loop.py:58-95 | an overdue DETECTED invoice beyond the cursor: however many invoices are created with larger ids and whatever else changes between ticks, within (watched ids before it)/limit + 1 ticks one loads it, and leaves it SETTLED, OVERPAID, UNDERPAID or waiting on a stored timely output that does not qualify, unless listunspent fails in that tick |
| Fairness.OverdueAfterReset | src/v4vapp_dash/watcher/loop.py:58-95 | behind the cursor the same holds, counted from any tick that resets it |
| Fairness.OverdueUntouched | src/v4vapp_dash/watcher/loop.py:58-95 | while no answered tick loads it, the stored document stays exactly as it is |
| Fairness.OverdueJudgedExactlyWhen | src/v4vapp_dash/watcher/loop.py:58-95 | with a node that answers, some tick judges it and leaves it final or waiting, if and only if it is beyond the cursor or some tick finds fewer than the limit beyond the cursor |
| Rotation.CycleLoadsEachOnce | src/v4vapp_dash/watcher/loop.py:65-69 | a cycle lasts size/limit + 1 ticks, loads every invoice exactly once in order, does not reset early, and ends with an empty batch exactly when the size is a multiple of the limit |
| Rotation.LostBatchReturns | src/v4vapp_dash/watcher/loop.py:75-83 | a batch lost to a failed listunspent is loaded again, the same batch, one cycle later |
| Rotation.ZeroLimitStarves | src/v4vapp_dash/watcher/loop.py:66-69 | with limit 0 one tick loads everything beyond the cursor and no later tick loads any of it again |
| Collection.InvoiceCollection.FindOneAndUpdate | src/v4vapp_dash/watcher/loop.py:216 | the atomic conditional update: one document changes if it matches, none otherwise |
| Collection.InvoiceCollection.InsertOne | src/v4vapp_dash/db/indexes.py:9-11 | an insert is refused exactly when the external id or the address is taken |
| Watcher.WatcherState.constructor | src/v4vapp_dash/watcher/loop.py:27-34 | a watcher starts with no cursor, no error and all counters at zero |
| Watcher.WatchIds | src/v4vapp_dash/watcher/loop.py:99-105 | the ids of exactly the unswept documents in a watched state, ascending |
| Watcher.WatchedExactly | src/v4vapp_dash/watcher/loop.py:98-105 | watched are exactly the stored, unswept invoices that are not SETTLED, OVERPAID or UNDERPAID |
| Watcher.OpenCount | src/v4vapp_dash/watcher/loop.py:70-71 | what is counted as open is the OPEN and DETECTED invoices of the batch |
| Watcher.BatchRotates | src/v4vapp_dash/watcher/loop.py:98-106 | the documents _load_batch returns are those of the rotation over the watched ids |
| Watcher.CancelInvoice | src/v4vapp_dash/api/v1/invoices.py:251-273 | uninterrupted: 404 exactly for an unknown id, success exactly for an OPEN invoice without funds, 409 otherwise; the stored document is canceled or nothing changes |
| Watcher.CancelUpdate | src/v4vapp_dash/api/v1/invoices.py:257-267 | the atomic step: cancels exactly an OPEN invoice without funds, and returns it as stored |
| Watcher.CancelReply | src/v4vapp_dash/api/v1/invoices.py:268-273 | the answer, from the update and whatever is stored at the second lookup |
| Watcher.Persist | src/v4vapp_dash/watcher/loop.py:181-216 | the filters of _persist let the update through exactly in the allowed states |
| Watcher.ReadOutputs | src/v4vapp_dash/watcher/loop.py:118-124 | the loop yields one new output object per reported UTXO at or above dust, in order |
| Watcher.ApplyInvoice | src/v4vapp_dash/watcher/loop.py:109-154 | the snapshot is judged on the merged outputs, the decision persisted, and stuck counted |
| Watcher.Dispatch | src/v4vapp_dash/watcher/loop.py:73-87 | each address asked for gets exactly the node's entries paying to it, in order |
| Watcher.NextBatch | src/v4vapp_dash/watcher/loop.py:65-71 | the batch after the cursor is loaded, the cursor moved past it, the invoices in progress counted |
| Watcher.Answered | src/v4vapp_dash/watcher/loop.py:75-95 | a failed listunspent changes no document and no stuck count; an answer applies the whole batch; both count as a tick |
| Watcher.Tick | src/v4vapp_dash/watcher/loop.py:58-95 | the whole effect of a tick on the collection and the watcher's counters; the cursor moves alike whether or not the node answers |
| Watcher.WatchOnce | src/v4vapp_dash/watcher/loop.py:45-51 | after a round whose tick returns, last_error is empty even if listunspent failed, and then no document changed |
| WatcherLaws.LoadedIsSnapshot | src/v4vapp_dash/watcher/loop.py:98-106 | a batch holds watched documents as stored, each once |
| WatcherLaws.UnpreemptedTickWritesAll | src/v4vapp_dash/watcher/loop.py:90-92 | a tick nothing preempts writes its decision to every invoice it loaded and changes no other |
| WatcherLaws.TickCountsStuck | src/v4vapp_dash/watcher/loop.py:139-142 | with deadlines not before expiry a tick adds to its stuck count exactly the loaded invoices that are DETECTED afterwards with their deadline passed |
| WatcherLaws.OverdueProgresses | src/v4vapp_dash/watcher/settlement.py:149-184 | a stored DETECTED invoice that an unpreempted tick loads at or after expiry is SETTLED, OVERPAID or UNDERPAID afterwards, unless what is now stored falls short and holds a timely output that does not qualify; then, and only then, it stays DETECTED |
| WatcherLaws.CancelAnswerStands | src/v4vapp_dash/api/v1/invoices.py:257-273 | whatever happens in a run between the update and the second lookup of a cancel, its answer is what it would have been at the update, if and only if the document existed then or does not exist at the lookup |
| WatcherLaws.TickIsRun | src/v4vapp_dash/watcher/loop.py:58-95 | the effect of a tick is a stretch of a protocol run, so the run laws hold of ticks |
| WatcherLaws.NoOutputTwice | src/v4vapp_dash/watcher/loop.py:84-91 | with unique addresses no reported output is given to two invoices of a batch |
| WatcherLaws.BatchConserves | src/v4vapp_dash/watcher/loop.py:84-92 | what a batch is given adds up to exactly what was reported above dust at the watched addresses |
| WatcherLaws.ExactPaymentSettles | src/v4vapp_dash/watcher/loop.py:119-124 | paying exactly the printed quote in one qualifying output first seen in time settles, with the requested credit: not OVERPAID, not UNDERPAID |
| WatcherLaws.FirstExactPaymentSettlesExactlyWhen | src/v4vapp_dash/watcher/loop.py:121-122 | such a first payment settles if and only if the quote is not below dust |
| WatcherLaws.NewInvoiceTerms | src/v4vapp_dash/api/v1/invoices.py:45-58 | the stored policy of a new invoice gives the configured tolerance and settle rule; stuck reports all overdue invoices exactly for a grace of at least 0 or a tolerance that reaches the quote but for dust; credits need evidence exactly when floor and share are below the quote |
| WatcherLaws.NewInvoicePaidExactly | src/v4vapp_dash/api/v1/invoices.py:119-172 | an invoice as create_invoice inserts it, paid its printed quote in time, is credited what was requested |
| Amounts.AmountRoundTrip | src/v4vapp_dash/amounts.py:8-14 | reading back the printed amount gives the amount, for every amount below 10^28 |
| Amounts.ToDuffsExact | src/v4vapp_dash/amounts.py:8-10 | an amount with at most eight decimals is read exactly, for every coefficient below 10^28 |
| Amounts.ToDuffsNearest | src/v4vapp_dash/amounts.py:8-10 | with more decimals it is read as the nearest number of duffs, the even one of two |
| Amounts.RpcReadsText | src/v4vapp_dash/amounts.py:8-10 | the text of a number, with or without a point, is read as its digits say: exactly up to eight decimals, else to the nearest duff |
| Amounts.RpcReadsScientific | src/v4vapp_dash/amounts.py:8-10 | the same for texts with an exponent, as Python prints small and large floats |
| Amounts.PrintedForm | src/v4vapp_dash/amounts.py:13-14 | the printed amount is the whole DASH without leading zeros, a point and exactly eight digits |
| Quotes.QuoteExactly | src/v4vapp_dash/quotes/service.py:21-29 | for every price below 10^28 the quote is the exact ceiling, or one less exactly when 28 digits round the fraction away |
| Quotes.QuoteExactUnderBound | src/v4vapp_dash/quotes/service.py:21-29 | with m digits times price magnitude below 2*10^28 the quote is the exact ceiling |
| Quotes.ExactDuffsIsLeast | src/v4vapp_dash/quotes/service.py:22 | the exact ceiling is the least number of duffs worth at least the satoshis |
| Decimal.DivAboveLimit | src/v4vapp_dash/quotes/service.py:28 | a quotient of 10^28 or more is rounded to the nearest multiple of the power of ten that leaves 28 digits |
| Quotes.QuoteCanFallShort | src/v4vapp_dash/quotes/service.py:27-29 | a rate at which one satoshi is quoted one duff below its worth |
| HiveConfig.ParseWindows | src/v4vapp_dash/limits/hive_config.py:145-155 | the usable entries, all positive, in the stable order by hours |
| HiveConfig.UsableExactly | src/v4vapp_dash/limits/hive_config.py:145-153 | each window is kept as often as an entry with its hours and satoshis, both positive, is listed |
| HiveConfig.SortIsStable | src/v4vapp_dash/limits/hive_config.py:154 | windows of equal hours keep their order |
| HiveConfig.HalfUp | src/v4vapp_dash/limits/hive_config.py:105-107 | the result is within one half of the quotient, and ties go away from zero |
| HiveConfig.ConvFeeNearestAndMonotone | src/v4vapp_dash/limits/hive_config.py:103-108 | the conversion fee is within one half of the exact fee and grows with the request |
| HiveConfig.SplitNeverCollectsLess | src/v4vapp_dash/limits/hive_config.py:103-117 | with a fixed part of at least one satoshi, splitting a request never lowers what is collected |
| HiveConfig.SplitKeepsExactlyWhen | src/v4vapp_dash/limits/hive_config.py:103-117 | for a given configuration no split lowers what is collected, if and only if base and routing fee are at least one satoshi together or the fee rate is a multiple of one half |
| HiveConfig.SplitKeepsUpToExactlyWhen | src/v4vapp_dash/limits/hive_config.py:103-117 | at a rate below one half, no split of a request up to a maximum lowers what is collected, if and only if base and routing fee are at least one satoshi together or the largest request is not charged |
| HiveConfig.ConvFeeDecimalExact | src/v4vapp_dash/limits/hive_config.py:105-107 | the fee computed in the decimal context is the exact half-up fee while the exact product fits 28 digits |
| HiveConfig.CollectDecimalExact | src/v4vapp_dash/limits/hive_config.py:103-117 | within that bound the amount to collect is the exact one |
| Pricing.SplitNeverPricesLess | src/v4vapp_dash/api/v1/invoices.py:99-102 | nor does splitting lower the exact price of what is collected |
| Pricing.SplitNeverQuotesLess | src/v4vapp_dash/api/v1/invoices.py:99-102 | nor the quotes the service computes, of the amounts collected in the decimal context, while fee and price stay within the digit bounds |
| RateLimit.WidestServesAll | src/v4vapp_dash/limits/check.py:92-103 | the payments of the widest window are all any window needs |
| RateLimit.MaxHours | src/v4vapp_dash/limits/check.py:92 | the largest hours of any window |
| RateLimit.DocumentRead | src/v4vapp_dash/limits/check.py:11-39 | a stored document counts for a customer exactly when it is the customer's, SETTLED or OVERPAID, and has a settlement time; then for its credit, or for what was requested if it has none |
| RateLimit.PutInPlace | src/v4vapp_dash/limits/check.py:107 | the dictionary keeps the order in which the hours were first listed, a new entry coming last |
| RateLimit.Oldest | src/v4vapp_dash/limits/check.py:119 | a listed payment, settled no later than any other |
| RateLimit.OldestIsFirst | src/v4vapp_dash/limits/check.py:119 | among equal settlement times the first listed |
| RateLimit.Measure | src/v4vapp_dash/limits/check.py:95-108 | the dictionary keeps for each hours the result of its last window, and the exceeded windows are listed with their payments |
| RateLimit.NextExpiry | src/v4vapp_dash/limits/check.py:113-123 | the nested minima give the first moment at which any payment leaves any exceeded window, and that payment's satoshis |
| RateLimit.CheckCustRateLimit | src/v4vapp_dash/limits/check.py:73-151 | accepts exactly when no window over all the customer's payments would be exceeded; crashes exactly when every exceeded window was superseded by one of the same hours; otherwise reports the first exceeded period of the dictionary and a correct hint |
| RateLimitLaws.LookupFinds | src/v4vapp_dash/limits/check.py:132 | with no later window of the same hours looser, distinct hours in particular, the lookup always finds a period |
| RateLimitLaws.DuplicateHoursCrash | src/v4vapp_dash/limits/check.py:106-132 | a payload with the same hours twice, the looser last, crashes every first request between the two limits |
| RateLimitLaws.NeverCrashesExactlyWhen | src/v4vapp_dash/limits/check.py:106-132 | a configuration of positive windows never makes the check crash, if and only if each window is backed by one the dictionary keeps, at least as long and no more generous |
| RateLimitLaws.DistinctHoursNeverCrash | src/v4vapp_dash/limits/check.py:106-132 | with distinct hours no request crashes |
| RateLimitLaws.RejectionNamesWindow | src/v4vapp_dash/limits/check.py:95-132 | a rejection states hours, limit, paid and requested satoshis of an exceeded window; with windows in order of their hours, of the shortest the dictionary keeps |
| RateLimitLaws.HintExactly | src/v4vapp_dash/limits/check.py:113-130 | the announced expiry is the last second at which some payment of an exceeded window counts in it, hours * 3600 seconds after its settlement, and the freed satoshis are that payment's |
| RateLimitLaws.HintIsSound | src/v4vapp_dash/limits/check.py:113-130 | the same request is refused at every moment through the announced expiry whatever else is paid, and for good when none is announced |
| RateLimitLaws.CheckCountsInterval | src/v4vapp_dash/limits/check.py:98-104 | with nothing settled in the future the check counts exactly the credits of [now - hours, now] |
| RateLimitLaws.LimitHoldsOverRuns | src/v4vapp_dash/limits/check.py:73-111 | over runs with at most one outstanding invoice no interval as long as a window holds more credit than its limit |
| RateLimitLaws.TwoOutstandingExceed | src/v4vapp_dash/api/v1/invoices.py:108-109 | for every configuration a ledger run in which two requests for the strictest limit are both accepted and together exceed it |
| RateLimitLaws.LimitsKeptExactlyWhen | src/v4vapp_dash/limits/check.py:73-111 | for every configuration, all ledger runs with at most k outstanding requests keep every limit, if and only if k is at most one |
| RateLimitLaws.OutstandingFitsExactlyWhen | src/v4vapp_dash/limits/check.py:98-111 | crediting all that is outstanding stays within a window in every interval, if and only if what the check counts and all of it fit the limit |
| CustomerLimits.PaymentExactly | src/v4vapp_dash/limits/check.py:11-39 | a consistent document counts exactly if it is the customer's and holds a credit, with that credit at its settlement time |
| CustomerLimits.OverExactlyWhen | src/v4vapp_dash/limits/check.py:73-111 | the check finds a window exceeded if and only if the sats_credited of the customer's documents settled in the last hours * 3600 seconds and the request exceed its limit |
| CustomerLimits.CustomerStaysWithinLimits | src/v4vapp_dash/api/v1/invoices.py:108-172 | in any run of the protocol in which the requests behind a customer's invoices passed the check, on any earlier state, and at most one request is outstanding from its check to the end of its invoice: over every interval of hours * 3600 seconds the sats_credited of the customer's documents settled in it add up to at most the limit |
| CustomerLimits.TwoPurchasesExceed | src/v4vapp_dash/api/v1/invoices.py:108-172 | for every configuration a run on stored documents in which two checked requests are both credited beyond the strictest limit, with never more than two outstanding |
| CustomerLimits.CustomerLimitsKeptExactlyWhen | src/v4vapp_dash/api/v1/invoices.py:108-172 | for every configuration, all runs of checked requests with at most k outstanding keep what the customer's documents credit within every window over every interval, if and only if k is at most one |
| Creation.WalletStore.EnsureWalletState | src/v4vapp_dash/db/wallet_state.py:22-66 | succeeds exactly for a complete key that matches the stored row, if there is one; the first boot writes the row, later ones change nothing |
| Creation.WalletStore.AllocateReceiveIndex | src/v4vapp_dash/db/wallet_state.py:69-83 | returns the next index and increments it; without a row returns none and changes nothing |
| Creation.KeyLockExactly | src/v4vapp_dash/db/wallet_state.py:42-54 | the key that locked a network is accepted again with any letters of its fingerprint in the other case, and no other key is |
| Creation.FindByExternalId | src/v4vapp_dash/api/v1/invoices.py:72 | finds a stored invoice with the external id exactly if there is one |
| Creation.Screen | src/v4vapp_dash/api/v1/invoices.py:85-109 | refuses with the first check that fails, and otherwise gives the price, of the amount collected as the decimal context computes it |
| CreationLaws.QuoteRefusedExactlyWhen | src/v4vapp_dash/api/v1/invoices.py:99-106 | no quote is made if and only if there is no price, the rate is zero, or less than one satoshi is to be collected, with the fee written out |
| CreationLaws.CreatedQuote | src/v4vapp_dash/api/v1/invoices.py:99-172 | the stored duffs_quoted of a created invoice is the least number of duffs worth the requested satoshis, the half-up conversion fee and the routing fee together, within the digit bounds |
| CreationLaws.StoredPolicy | src/v4vapp_dash/api/v1/invoices.py:45-58 | the stored policy holds the settings, and the confirmations of the network under locks, of the request or the settings otherwise |
| Creation.NewInvoiceFixes | src/v4vapp_dash/api/v1/invoices.py:119-172 | the inserted document is OPEN with nothing seen, credited or settled; it is the request's own, at the address of its index, prints an amount that reads back as its quote, expires expires_in_s after creation and is overdue a grace period later |
| Creation.TakeIndexAndInsert | src/v4vapp_dash/api/v1/invoices.py:111-178 | an index is spent in any case; past the range end nothing is inserted; otherwise the document is, unless a unique key refuses it |
| Creation.CreateInvoice | src/v4vapp_dash/api/v1/invoices.py:62-178 | the whole effect and answer of an uninterrupted create, branch by branch, on the collection and the wallet row |
| CreationProtocol.WritesKeepIdentity | src/v4vapp_dash/watcher/loop.py:198-208 | no write of the watcher or of cancel touches what identifies an invoice |
| CreationProtocol.CreationInvariant | src/v4vapp_dash/api/v1/invoices.py:111-117 | in every reachable state of interleaved creates and boots, stored and held indices are distinct and issued, stored ones are below the range end, external ids are unique |
| CreationProtocol.AddressesUnique | src/v4vapp_dash/db/indexes.py:10-11 | two stored invoices never share an address or an external id |
| SharedCollection.JointRunProjects | src/v4vapp_dash/api/v1/invoices.py:111-172 | ticks, cancels, creates and boots interleaved on one collection: every state is one of an orderly protocol run, and one of a creation run |
| SharedCollection.JointHistory | src/v4vapp_dash/api/v1/invoices.py:111-172 | between any two moments of one joint run every document stays, further along its state graph, with outputs, times, credit and identity kept; wallet rows keep their key and their counters do not fall |
| SharedCollection.JointGuarantees | src/v4vapp_dash/db/indexes.py:9-11 | so such a state has consistent documents, unique addresses and external ids, and received amounts that add up to the chain's, with no address assumed unique |
| CreationProtocol.RefusalsAreDuplicates | src/v4vapp_dash/api/v1/invoices.py:173-176 | an insert refused in a run was refused because of the external id, as the 409 says |
| CreationProtocol.LaterInRun | src/v4vapp_dash/db/wallet_state.py:73-80 | next_receive_index never decreases, keys never change, documents stay |
| CreationProtocol.CountersCount | src/v4vapp_dash/db/wallet_state.py:40-80 | next_receive_index is the number of allocations of the network so far: indices count from 0 without a gap |
| CreationProtocol.AllocationsAreNew | src/v4vapp_dash/db/wallet_state.py:69-83 | an allocation hands out an index no earlier state had issued |
| CreationProtocol.KeyStaysLocked | src/v4vapp_dash/db/wallet_state.py:52-61 | which key boots a network never changes after the first boot |
| CreationProtocol.RetryReturnsCommitted | src/v4vapp_dash/api/v1/invoices.py:72-80 | at any time after a create committed, repeating it with the same sats and expiry gets past the lookup under no market, key or clock, so nothing is allocated or inserted, and the only answer is the stored invoice |
| CreationProtocol.OtherRequestIsDuplicate | src/v4vapp_dash/api/v1/invoices.py:72-83 | with other sats or another expiry the only answer is the duplicate refusal |
| Pagination.CursorSelectsSuccessors | src/v4vapp_dash/api/v1/invoices.py:229-241 | the $or of the cursor selects exactly the strict successors in (created_at, _id) order |
| Pagination.PagesPartitionListing | src/v4vapp_dash/api/v1/invoices.py:236-248 | following next_cursor shows the filtered sorted collection with no gap or repeat in max(1, ceil(n/limit)) pages |
| Pagination.WalkShowsExactly | src/v4vapp_dash/api/v1/invoices.py:224-248 | the pages of a walk show every stored invoice that meets the state and cust_id filters exactly once and no other, by creation time and then id |
| Pagination.Found | src/v4vapp_dash/api/v1/invoices.py:236-242 | find, sort and limit return the first documents of the sorted selection |
| Pagination.CursorRoundTrip | src/v4vapp_dash/api/v1/invoices.py:276-284 | splitting a printed cursor recovers both parts |
| Pagination.CursorReadExactly | src/v4vapp_dash/api/v1/invoices.py:229-232 | a cursor is refused with 400 exactly if it has no bar or no timestamp before the first, and with 404 exactly if what follows is no id |
| Pagination.ReplacesEveryZ | src/v4vapp_dash/api/v1/invoices.py:281 | every Z of the timestamp is written out as +00:00 |
| Pagination.NextCursorLeadsOn | src/v4vapp_dash/api/v1/invoices.py:229-235 | the printed next cursor is read back as the position it stands for |
| Pagination.ListInvoices | src/v4vapp_dash/api/v1/invoices.py:214-248 | returns stored invoices that meet the filters, the page of the listing after the cursor, and the next cursor exactly if more remains |

## Left out

- HTTP, JSON-RPC, authentication, health, logging and `asyncio` scheduling are not modelled; dashd is an arbitrary answer per tick, and `_enrich` is part of that answer.
- Address derivation is taken to be injective in network, account key and index.
- Quote and configuration fetching, caches and fallbacks: their results are parameters.
- Printing of binary floats, datetime and ObjectId text, and Mongo's truncation to milliseconds: amounts are decimal numbers, times are integers (seconds in the rate windows), cursor text uses abstract printers assumed to invert.
- Decimal operands have at most 28 digits and are not negative; a price of 10^28 duffs or more is not covered by the quote laws.
- Deleting documents, `swept_at` being set, and payouts do not occur in the code modelled; memo, URI, derivation and fee fields of a document are not kept.
- A negative `dash_watch_batch` is not modelled.
- Message texts, percentages and the HTTP error envelopes of refusals.
- The xpub file is re-read on every request; that it still holds the key the process booted with is not checked by the code and not modelled, and the index laws do not need it.
