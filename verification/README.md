# Quant Lab decision reference: a verified model

Quant Lab's cloud node publishes content-addressed market snapshots. A NAS worker answers each one
with eight pieces of advice and a forward ledger; the cloud node accepts, publishes and later prunes
those results. This project models that protocol and the code around it in Dafny and proves what it
promises. Run `dafny verify dfyconfig.toml` to check everything.

## Modules

| area | modules |
|---|---|
| signed artifacts and their validators | `Contracts`, `Acceptance` |
| the cloud directory as a crash-prone store | `Store`, `Pipeline`, `Retention`, `CrashTransparency`, `EvidenceClosure`, `LoopOrder`, `StaleWindows`, `FaultWindows`, `TurnEffect`, `PruneEffect`, `CloudDisk` |
| forward ledger and diagnostics | `Ledger`, `NonOverlap`, `Coverage`, `Summary`, `ForwardSummary` |
| analysis engine | `History`, `WorkingHistory`, `Labels`, `Statistics`, `AdviceBuilder` |
| current inputs | `OrderBook`, `CurrentCost`, `Refresh` |
| lake, archive, response cache | `Batches`, `Upsert`, `Manifest`, `NasArchive`, `Advisory`, `ResponseCache` |
| sorting, counting, example results | `Sorting`, `Tally`, `Samples` |

`Store` holds the directory as maps; every atomic file replacement or unlink is one `Step`, and a
call of the original is a list of steps. A crash is a prefix of such a list. `CloudDisk.Disk` is the
same directory as an object that is updated in place and dies when its `budget` of file operations
is used up: its methods follow the original's loops and branches, and each is proved to leave what
the prefix of the specified steps leaves. Theorems about whole runs are then proved of the step lists,
and `TurnEffect` and `PruneEffect` say of the files themselves what the steps of a call come to.
Instants are integers in microseconds, prices and basis points are reals, tables and directories are
maps, and a digest is modelled by the content it stands for.

## What the proofs found

- A crash between the two recovery writes leaves the new receipt beside the old current result, or
  beside none. The next call does not repair the pointer by itself: it starts its loop from the old
  result and publishes out of order exactly when the first file that result lets through overtakes it
  (`StaleWindows.StrandedBreaksOrder`); a first file that follows the last publication moves the
  pointer on and restores the order. A name is exposed if no smaller name holds a file that ends the
  call or is let through, and it holds an overtaking file or, in an inbox with room, is free for one.
  Whatever files arrive, the order is safe if and only if the stop was elsewhere or no name is exposed
  (`StaleWindows.OrderSafeIff`, for every reachable directory
  `StaleWindows.ReachableOrderSafeIff`). The exact condition for keeping the directory's invariant is
  `CrashTransparency.CrashSafeIff`; `StaleWindows.StrandingExample` is a concrete directory on which
  the next call publishes out of order.
- An `OSError` that the accept loop swallows between the commit and the current pointer leaves the
  loop comparing with an older result; the rest of the loop keeps the order exactly when the first
  file let through does not overtake that (`FaultWindows.FaultOrderIff`). One at the receipt leaves the
  pointer right, but the new publication without its receipt: if another file of the same loop advances
  the publication, the result stays published and no sequence of later calls gives it a publication
  time, so the worker never sees its receipt. `FaultWindows.FaultHarmlessIff` says exactly which steps
  may fail without either, `FaultWindows.ReceiptFaultIff` exactly when the receipt is recovered.
- A receipt list that a worker once replayed in full can be refused on every later run: advice that
  was published too late to be registered is still compared with the row another receipt registered.
  `Ledger.ReplayAgainIff` gives the exact condition, `Ledger.LateVersionBlocksReplay` a list.
- The volume-weighted price stops filling within a relative tolerance and still divides by the whole
  quantity, so a slightly larger order can look cheaper. `OrderBook.AskMonotoneIff` says exactly for
  which quantities the ask price is monotone, `OrderBook.AskMonotoneFails` gives two quantities.
  Over a whole book, any tolerance breaks the ask law (`OrderBook.AskNeverFallsIff`), and the bid
  law as soon as there are two levels (`OrderBook.BidNeverRisesIff`). The two sides do not make up for
  each other: with any tolerance a larger size is cheaper somewhere on every accepted book, unless its
  bids are a single level that is used up before the first ask level is
  (`CurrentCost.SizesNeverCheaperIff`).
- A cached advisory response can differ from a recomputation when a request combines fresh-only,
  latest-only and the compact form, and no other: `ResponseCache.AlwaysAgreesIff`.
- The streaming upsert keeps an old row beside a new one whose key holds a null
  (`Upsert.FastIsSimpleIff`, `Upsert.NullKeyDuplicates`), and the first batch of a dataset is not
  deduplicated (`Upsert.UniqueAfterRunIff`).
- A summary raises for more than four cost versions, which its query accepts: `Summary.SummaryValid`.
- A file name with a line break makes the archive manifest ambiguous: `Manifest.RoundTripIff`,
  `Manifest.BreaksAreAmbiguous`, `NasArchive.DeletedIsCopiedIff`.

## Model

| member | source | states |
|---|---|---|
| CrashTransparency.CrashSafeIff | src/quant_lab/decision/pipeline.py:142-273 | an accept call stopped after any number of steps keeps the directory sound, the results it will publish in the end, and every acknowledged receipt, if and only if it did not stop between the two recovery writes with a stale pointer |
| CrashTransparency.CrashTransparent | src/quant_lab/decision/pipeline.py:158-251 | any number of calls stopped anywhere else, followed by one that completes, publish the same sequence as one uninterrupted call; result times strictly increase, input times never decrease, and each new publication has one time, its receipt's |
| CrashTransparency.CompletedRun | src/quant_lab/decision/pipeline.py:172-273 | a call that comes to its end has published exactly the running records of the inbox in name order, acknowledged the last of them, and left nothing acceptable or to recover behind |
| CrashTransparency.AttemptsKeep | src/quant_lab/decision/pipeline.py:158-251 | over any run of interrupted calls the directory invariant and the promised outcome are kept |
| CrashTransparency.LoopPath | src/quant_lab/decision/pipeline.py:178-254 | every store along the accept loop keeps the outcome, the loop ends with no acceptable file left, and never misses the previous result's input |
| CrashTransparency.RecoveryPath | src/quant_lab/decision/pipeline.py:160-177 | the recovery prologue, its first two writes taken together, reaches the recovered store and then changes only details |
| CrashTransparency.CandidateRun | src/quant_lab/decision/pipeline.py:219-251 | the result the loop compares with is the one published last, and the branch it takes is the one the publication log calls for |
| LoopOrder.LoopKeepsOrderIff | src/quant_lab/decision/pipeline.py:178-254 | whatever result the loop starts with, it keeps the published order if and only if the first file it lets through, with none before it that ends the call, does not overtake that result |
| LoopOrder.LoopMovesIff | src/quant_lab/decision/pipeline.py:178-254 | the loop publishes, and moves the pointer to a newer result, if and only if some file is let through first; otherwise it leaves log, publication and pointer alone |
| FaultWindows.FaultHarmlessIff | src/quant_lab/decision/pipeline.py:235-254 | a swallowed error at a given step leaves the loop holding the last published result if and only if it is not between the commit and the pointer, and leaves every new publication with its receipt as well if and only if it comes before the commit or at the unlink |
| FaultWindows.FaultOrderIff | src/quant_lab/decision/pipeline.py:235-254 | after an error past the commit the rest of the loop keeps the published order if and only if the first file let through does not overtake the result it then holds |
| FaultWindows.ReceiptFaultIff | src/quant_lab/decision/pipeline.py:249-254 | when the receipt write fails, the result stays published in order, and the next recovery writes its receipt if and only if no other file the loop reaches advances the publication; otherwise no sequence of later calls, stopped anywhere, gives it a publication time |
| LoopOrder.OrderKeptIff | src/quant_lab/decision/pipeline.py:220-251 | whatever result the loop holds, or none, an acceptable file keeps the published order if and only if it does not overtake that holder while not following the last publication |
| LoopOrder.StaleHolderBreaksOrder | src/quant_lab/decision/pipeline.py:220-251 | a loop that holds an older result, or none, publishes such a file out of order |
| StaleWindows.CallKeepsOrderIff | src/quant_lab/decision/pipeline.py:142-273 | a whole call on a store where nothing awaits recovery, whatever the current result is: it keeps the published order if and only if the first file that result lets through does not overtake it, and leaves the current result alone if and only if no file is let through |
| StaleWindows.StrandedHolder | src/quant_lab/decision/pipeline.py:158-254 | after a stop between the recovery writes the next call starts its loop from the old pointer, and ends with that pointer if and only if its loop lets no file through |
| StaleWindows.StrandedBreaksOrder | src/quant_lab/decision/pipeline.py:158-254 | that next whole call publishes out of order if and only if the first file the old pointer lets through overtakes it |
| StaleWindows.OrderSafeIff | src/quant_lab/decision/pipeline.py:142-273 | wherever a call stops: whatever files then arrive, the next whole call keeps the published order, if and only if the stop was not at the stranding point or no name is exposed, that is holds an overtaking file or is free for one with no file before it that ends the call or is let through |
| StaleWindows.ReachableOrderSafeIff | src/quant_lab/decision/pipeline.py:142-273 | the same for every directory that any run of publishing, receiving, accepting and pruning reaches from the empty one |
| StaleWindows.StrandingExample | src/quant_lab/decision/pipeline.py:158-254 | a concrete sound directory of valid results and a valid input on which the next whole call publishes out of order |
| CloudDisk.Disk.AcceptResults | src/quant_lab/decision/pipeline.py:142-273 | the whole call, in place: the store after it is what the first `budget` specified steps make of the old one, and it keeps the invariant exactly when it does not strand the pointer; a completed call has listed exactly the published receipts by name, reported each unacknowledged name as accepted or rejected by whether it now has a receipt, and left every publication its details; it raises exactly for an unusable inbox or publication, an acknowledged name whose file does not read back, or too many publications |
| CloudDisk.Disk.Recover | src/quant_lab/decision/pipeline.py:160-177 | the prologue as it runs, stopped by a crash or not, is a prefix of the recovery steps; run to its end it has given an unacknowledged publication its receipt and the pointer, written its missing details, and touched nothing else |
| CloudDisk.Disk.AcceptFile | src/quant_lab/decision/pipeline.py:180-254 | one file of the inbox, said of the files: a duplicate is unlinked or ends the call; a verified and bound result whose every item agrees with the signed input is saved, acknowledged and unlinked, and published exactly when it is newer on an input no older (only saved when the input of the held result is gone); any other file changes nothing |
| TurnEffect.TurnMeans | src/quant_lab/decision/pipeline.py:180-254 | the same of the specified steps of every file, for every store and every result held |
| TurnEffect.CompletedCall | src/quant_lab/decision/pipeline.py:240-273 | what a completed call leaves beside the publications: the list for the worker, the reported names and all details, said of the receipts |
| TurnEffect.CallEnds | src/quant_lab/decision/pipeline.py:150-273 | a call comes to its regular end if and only if inbox and publication are usable, every acknowledged name still in the inbox reads back, and no more than 5,000 receipts are published |
| CloudDisk.Disk.AcceptFiles | src/quant_lab/decision/pipeline.py:178-254 | the loop over the inbox runs the specified steps and reports the specified accepted and rejected names |
| CloudDisk.Disk.WriteDetails | src/quant_lab/decision/pipeline.py:240-246 | the details loop writes exactly the missing details, in order |
| CloudDisk.Disk.PruneAcknowledged | src/quant_lab/decision/retention.py:13-95 | a call that is not cut off: every artifact of either kind that is present, not in use, aged and acknowledged with its content is gone, with its record kept and returned and nothing else returned, results first; for a result its receipt and its aged unprotected details are gone too; everything else is as it was; each answer is given exactly under its guards |
| PruneEffect.PruneCallMeans | src/quant_lab/decision/retention.py:16-95 | the same of the specified steps, for every store, acknowledgement and clock |
| PruneEffect.LoopEffect | src/quant_lab/decision/retention.py:57-93 | a deletion loop that does not raise has removed exactly what was due in the store it started from, however its entries are ordered or repeated |
| PruneEffect.LoopRaisesIff | src/quant_lab/decision/retention.py:57-74 | the loop raises if and only if an entry is ill-named, or the first entry of an artifact that would go gives other content |
| CloudDisk.Disk.PublishInput | src/quant_lab/decision/pipeline.py:129-139 | publishing an input runs the specified steps: a known identity only moves the pointer to the stored snapshot, a new one is stored and pointed to, and nothing else changes |
| Acceptance.FirstProblem | src/quant_lab/decision/pipeline.py:200-218 | no problem is reported if and only if every item has the hour after its symbol's latest bar (or none without a bar), the entry an hour later, the recorded cost when there is one, and no view when bar or cost is missing; otherwise the first such item's problem |
| Acceptance.ProblemMeans | src/quant_lab/decision/pipeline.py:200-218 | each of the problems of one item is reported exactly when it is the first that applies, said of the bars and costs of the input |
| Acceptance.FileProblem | src/quant_lab/decision/pipeline.py:188-218 | a file has no problem if and only if it is verified, named by its result, dated between its input and now, of the producer's commit, and every item agrees with the signed input as above |
| EvidenceClosure.EvidenceClosure | src/quant_lab/decision/retention.py:39-95 | over every interleaving of publishing, receiving, accepting and pruning, each cut off anywhere but at the stranding point, every stored or current result and every inbox file keeps its input, and what is gone is archived with exactly its content |
| EvidenceClosure.StartsSound | src/quant_lab/decision/pipeline.py:142-157 | the empty directory, from which every run starts, satisfies the whole invariant |
| EvidenceClosure.PreviousInputFound | src/quant_lab/decision/pipeline.py:220-236 | after any such run the lookup of the previous input never fails |
| EvidenceClosure.PruneDeletesOnlyAcknowledged | src/quant_lab/decision/retention.py:39-95 | a prune stopped anywhere has deleted only aged, unprotected artifacts whose content equals an acknowledged digest and whose record was written first |
| EvidenceClosure.JobSound | src/quant_lab/decision/retention.py:23-95 | every single job, cut off or not, keeps the directory invariant |
| EvidenceClosure.JobPreserves | src/quant_lab/decision/worker.py:206-230 | a job with an acknowledgement built from the archive loses nothing the archive does not hold |
| Ledger.LedgerRefinement | src/quant_lab/decision/worker.py:267-288 | over any worker runs on a receipt list that grows at its end and may lose receipts already reached, the registered part of the table is the first observation in time for each key among all receipts reached |
| Ledger.ReplayRefines | src/quant_lab/decision/ledger.py:70-130 | one replay of a longer list extends the fold to exactly the receipts it reached |
| Ledger.ReplayThinned | src/quant_lab/decision/ledger.py:70-130 | so does one replay of a list from which retention has removed receipts already reached |
| Ledger.ReplayIsNoOp | src/quant_lab/decision/ledger.py:70-130 | replaying receipts the table already accounts for changes nothing, raising or not |
| Ledger.ReplayAgainIff | src/quant_lab/decision/ledger.py:82-107 | a list once replayed in full is replayed in full again if and only if none of its late advice contradicts a registered row |
| Ledger.LateVersionBlocksReplay | src/quant_lab/decision/ledger.py:86-107 | a concrete list of two valid results whose every later replay raises at its first receipt |
| Ledger.LedgerIsAppendOnly | src/quant_lab/decision/ledger.py:108-168 | over any runs, rows are never lost, registered fields never change and labels are write-once |
| Ledger.SealedLabel | src/quant_lab/decision/ledger.py:132-168 | a label is dated at or after exit plus one hour and rests on one bar for each hour from entry to exit, closed and ingested by then |
| Ledger.SealedIsLocal | src/quant_lab/decision/ledger.py:132-168 | only the bars of the symbol from entry to exit that are available by now can influence a label |
| Ledger.LedgerTable.Register | src/quant_lab/decision/ledger.py:70-130 | refuses exactly a legacy flag on a later schema, times out of order, or an item that contradicts a registered row; otherwise rows stay, and each key without a row gets its first advice published before entry and expiry, as published; the count inserted, and the number of legacy items passed over before the end or the first contradiction |
| Ledger.LedgerTable.Mature | src/quant_lab/decision/ledger.py:132-168 | keys, advice, publication times and labels stay; a row without a label gets one if and only if its exit hour is over and every hour from entry to exit has a closed, ingested bar of its symbol, whatever its action; the label names the last listed bar of each hour and the returns of exit open over entry open |
| Ledger.SealedMeans | src/quant_lab/decision/ledger.py:132-168 | the same of one row, for every list of bars and every clock |
| NonOverlap.GreedyOptimal | src/quant_lab/decision/observation_diagnostics.py:77-89 | per symbol and horizon the selected windows are pairwise disjoint and no disjoint choice of registered windows is larger |
| NonOverlap.SelectionIgnoresOutcomes | src/quant_lab/decision/observation_diagnostics.py:77-89 | changing labels, returns and actions in any way selects the same registrations |
| NonOverlap.SelectionIgnoresOrder | src/quant_lab/decision/observation_diagnostics.py:77-89 | the selection does not depend on the order in which the query returns the rows |
| NonOverlap.MatureNonOverlapping | src/quant_lab/decision/observation_diagnostics.py:77-110 | the loop's report has one line for each group with selected rows, in key order, and each line's counts of matured, waiting, missing and net observations and its means are those of the selected rows |
| Coverage.GapRanges | src/quant_lab/decision/observation_diagnostics.py:36-41 | the loop's ranges are the maximal runs of the missing hours: expanding them gives the hours back and no two touch |
| Coverage.RunsUnique | src/quant_lab/decision/observation_diagnostics.py:36-41 | the maximal runs of a list of hours are unique |
| Coverage.RunsTotal | src/quant_lab/decision/contracts_v3.py:14-60 | the ranges' hour counts sum to the number of missing hours |
| Coverage.CoverSymbol | src/quant_lab/decision/observation_diagnostics.py:26-66 | a symbol's line is exact in all its figures: missing, partial, pending and late hours, delay, latest entry and ranges; and valid for prompt rows |
| Coverage.ExactDetermines | src/quant_lab/decision/observation_diagnostics.py:35-64 | the rows determine the line: two exact lines of one symbol are equal |
| Coverage.RegistrationReport | src/quant_lab/decision/observation_diagnostics.py:18-74 | every line of the report is exact for the hours due since the first registration, which are spelled out, the status says whether any is missing, and with prompt rows every coverage validator holds |
| Summary.SummaryValid | src/quant_lab/decision/ledger.py:170-253 | for an explicit scope every forward-summary validator holds if and only if names and cost versions are within bounds; the groups sum to the matured count, and the windows counted as independent do not overlap within a symbol |
| Summary.CountsMonotone | src/quant_lab/decision/ledger.py:195-204 | on a fixed ledger and scope matured never falls and waiting never rises with time |
| Summary.IndependentDisjoint | src/quant_lab/decision/ledger.py:213-223 | of the windows of the registered rows, those counted as independent do not overlap within a symbol |
| Summary.GroupsSumToMatured | src/quant_lab/decision/ledger.py:205-212 | the groups partition the matured rows |
| Summary.RegisteredRows | src/quant_lab/decision/contracts_v3.py:31-60 | registered rows were published no earlier than their market hour, so delays are non-negative |
| ForwardSummary.Report | src/quant_lab/decision/ledger.py:170-253 | on every table that accepted receipts produce, all figures are those of the rows of the scope: start, counts, the windows chosen as independent by going through them in order, group counts and means, registration lines and non-overlapping groups; all pass their contracts, and it raises exactly for a scope that is not explicit or beyond the bounds |
| ForwardSummary.SummaryMeans | src/quant_lab/decision/ledger.py:191-253 | the counts, the independent windows and the groups of any rows are those of these rows, said by counting, minima and maxima, and the choice in order |
| ForwardSummary.RanksAreNames | src/quant_lab/decision/ledger.py:205-217 | the order of groups and windows is that of the names of symbols and actions |
| NonOverlap.ReportFits | src/quant_lab/decision/contracts_v3.py:132-134 | a report never has more than thirty-two groups |
| History.PrepareHistory | src/quant_lab/decision/engine.py:38-54 | raises exactly when two closed and ingested bars of one symbol and hour differ in a market field; otherwise returns, ascending, one such bar of each symbol and hour, ingested last |
| History.PreparedUnique | src/quant_lab/decision/engine.py:38-54 | the result depends only on which available bars there are: not on order, repetitions or unavailable bars |
| History.PreparedIsFixed | src/quant_lab/decision/engine.py:38-54 | preparing a prepared history raises nothing and changes nothing |
| WorkingHistory.UpdateHistory | src/quant_lab/decision/worker.py:150-175 | laying an input over the stored history never conflicts, and the result is the prepared year of the merged bars unless it exceeds the row budget |
| WorkingHistory.YearFits | src/quant_lab/decision/worker.py:171-175 | a prepared year of hourly bars never exceeds the row budget |
| WorkingHistory.CorrectionsExact | src/quant_lab/decision/worker.py:160-170 | a correction is recorded exactly when an input bar differs from the stored bar of its hour |
| WorkingHistory.NothingLost | src/quant_lab/decision/worker.py:158-180 | every stored bar is either still there or recorded as a predecessor |
| WorkingHistory.OverlayAgain | src/quant_lab/decision/worker.py:158-170 | the same input again corrects nothing and changes nothing |
| Labels.LabelsDisjoint | src/quant_lab/decision/engine.py:75-98 | any two labels of a horizon overlap at most at an endpoint |
| Labels.LabelsAreAppendOnly | src/quant_lab/decision/engine.py:75-98 | later bars only append labels |
| Labels.SplitSeparates | src/quant_lab/decision/engine.py:111-124 | every tail signal is at least horizon plus one hours after every training exit, and the split keeps the labels in order |
| Labels.HistoricalLabels | src/quant_lab/decision/engine.py:75-98 | one label for each grid hour whose move against the close of 24 hours before has the asked direction and whose bars are without a gap up to the exit, in order of hour, with the return of exit open over entry open; and the number of such hours on or off the grid |
| Statistics.QuantileMonotone | src/quant_lab/decision/engine.py:101-108 | a larger probability never gives a smaller quantile |
| Statistics.DescribeValid | src/quant_lab/decision/engine.py:111-147 | the description meets the distribution contract on every ascending history |
| Statistics.DescribeHistory | src/quant_lab/decision/engine.py:111-147 | what the split keeps of those labels by multiplicity, and every figure of it: mean, interpolated ranks, net of cost, at double cost, share above cost, tail mean |
| Statistics.DescribeMeans | src/quant_lab/decision/engine.py:101-147 | the same of the specified description, for every history, context and cost |
| AdviceBuilder.BuiltAdviceValidIff | src/quant_lab/decision/contracts.py:104-177 | built advice passes all its validators if and only if the input's latest bar of the symbol has closed by the builder's clock |
| AdviceBuilder.EvidenceHolds | src/quant_lab/decision/contracts_v2.py:29-51 | built advice always passes the eligibility validator |
| AdviceBuilder.BuiltAdvicePasses | src/quant_lab/decision/pipeline.py:200-218 | the cloud node finds nothing to object to in built advice |
| AdviceBuilder.BuiltResultAccepted | src/quant_lab/decision/pipeline.py:193-218 | a result assembled from built advice with matching commits is accepted at every later check |
| AdviceBuilder.RaisingCostOnlyDefers | src/quant_lab/decision/engine.py:210-236 | a higher cost moves the action only from review towards the baseline and deferring |
| AdviceBuilder.BuildAdvice | src/quant_lab/decision/engine.py:150-287 | raises exactly when the symbol's bars conflict; otherwise valid advice that passes the cloud check, with the action by the signs of net mean, tail mean and double-cost mean and no view exactly when a reason stands against one, all reasons that hold in their order, times, expiry, context, prices, cost, eligibility and names |
| AdviceBuilder.BuiltAdvises | src/quant_lab/decision/engine.py:150-287 | the same of the specified advice, for every prepared history, input and clock |
| OrderBook.Vwap | src/quant_lab/decision/current_inputs.py:97-105 | the loop computes the specified average, or nothing |
| OrderBook.PriceExists | src/quant_lab/decision/current_inputs.py:97-105 | a price exists exactly when the depth suffices but for the tolerance, and is the exact cost of what was taken over the quantity |
| OrderBook.AverageIsPrice | src/quant_lab/decision/current_inputs.py:97-105 | the price is what is taken from the first levels that leave no more than the tolerance to fill, over the whole quantity |
| OrderBook.AskMonotone | src/quant_lab/decision/current_inputs.py:97-105 | the ask price does not fall with the quantity beyond the tolerance, and not at all when no level ends within it |
| OrderBook.BidMonotone | src/quant_lab/decision/current_inputs.py:97-105 | the bid price does not rise with the quantity beyond the tolerance, and not at all when no level ends within it |
| OrderBook.AskMonotoneIff | src/quant_lab/decision/current_inputs.py:97-105 | the ask price of a quantity is the highest up to it exactly when no level ends within the tolerance just short of it |
| OrderBook.AskMonotoneFails | src/quant_lab/decision/current_inputs.py:97-105 | at the tolerance of the code a larger quantity can have a lower price |
| OrderBook.AskNeverFallsIff | src/quant_lab/decision/current_inputs.py:97-105 | over a whole book the ask price never falls exactly when there is no tolerance |
| OrderBook.BidNeverRisesIff | src/quant_lab/decision/current_inputs.py:97-105 | over a whole book the bid price never rises exactly when there is no tolerance or only one level |
| CurrentCost.DistinctAndSorted | src/quant_lab/decision/current_inputs.py:85-90 | the check of one side, distinct prices equal to their sorted list, is strict order |
| CurrentCost.ReadSide | src/quant_lab/decision/current_inputs.py:80-91 | a side is accepted exactly when it is readable, bounded, positive and strictly ordered |
| CurrentCost.ValidateBook | src/quant_lab/decision/current_inputs.py:75-95 | a book is accepted exactly when it is at most a minute old, each side has one to twenty readable, positive levels in strict order, and it is not crossed; the sides are the rows as sent |
| CurrentCost.EstimateSizes | src/quant_lab/decision/current_inputs.py:108-142 | every notional gets its size, or none when the minimum is unusable or one size is out of bounds: the quantity at the mid, the bps by which buying and selling it are worse than the mid, twice the taker fee without rebate, six bps, their sum, and its status |
| CurrentCost.ScenarioQuoted | src/quant_lab/decision/current_inputs.py:113-141 | the same of one size, for every accepted book, fee, minimum and notional |
| CurrentCost.SizeEstimatedIff | src/quant_lab/decision/current_inputs.py:113-121 | a size is estimated exactly when it is tradable and fits both sides but for the tolerance |
| CurrentCost.ScenarioValidIff | src/quant_lab/decision/current_cost_contracts.py:31-67 | a scenario passes its contract exactly within the notional bound and the cost ceiling |
| CurrentCost.ObservationValidIff | src/quant_lab/decision/current_cost_contracts.py:97-124 | the observation passes every validator exactly when the notional is in bounds and an estimate rests on the symbol's own fee |
| CurrentCost.EstimatedIff | src/quant_lab/decision/current_inputs.py:145-202 | an estimate is given exactly under the listed conditions on book, instrument, fee, sizes and depth |
| CurrentCost.EstimateLifetime | src/quant_lab/decision/current_inputs.py:179-201 | an estimate is dated by its book and ends with the earlier of the book's quarter of an hour and the fee's day, after the moment it is made |
| CurrentCost.CurrentCost | src/quant_lab/decision/current_inputs.py:145-202 | the observation, said of book, fee and instrument: the fee if less than a day old, the book time if the book is accepted, the sizes of the asked and the standard notionals, the roundtrip of the asked one, and the earlier of the two ends |
| CurrentCost.BookCostsTheSpread | src/quant_lab/decision/current_inputs.py:122-124 | the book cost is at least the quoted spread, unless an ask level ends within the tolerance |
| CurrentCost.RoundtripMonotone | src/quant_lab/decision/current_inputs.py:114-141 | the roundtrip cost does not fall with the notional, unless a level ends within the tolerance |
| CurrentCost.ExactNeverTruncates | src/quant_lab/decision/current_inputs.py:103-104 | with no tolerance nothing is ever cut short, so both laws hold of every accepted book |
| CurrentCost.ExactRoundtripMonotone | src/quant_lab/decision/current_inputs.py:114-141 | with no tolerance the roundtrip cost does not fall with the notional, on every accepted book |
| CurrentCost.SizesNeverCheaperIff | src/quant_lab/decision/current_inputs.py:114-129 | on every accepted book: no larger size has the lower book cost if and only if there is no tolerance, or a single bid level is used up before the first ask level is |
| CurrentCost.LargerSizeOnlyDefers | src/quant_lab/decision/engine.py:210-236 | from the book to the advice: the action at a larger size's cost is never further along towards an entry |
| Refresh.MergeClosedCandles | src/quant_lab/decision/current_inputs.py:205-235 | the merge raises exactly on too many rows or a confirmed row that is unreadable, repeated, not closed or no valid bar, and otherwise returns the ascending bars of the last eight days |
| Refresh.MergeInventsNothing | src/quant_lab/decision/current_inputs.py:211-235 | every returned bar is a given one unchanged or made now from a confirmed closed row, and a given bar is replaced only when the market fields differ |
| Refresh.RefreshIsStable | src/quant_lab/decision/current_inputs.py:205-235 | merging the same rows later returns the earlier bars, ingest times and all, cut to the later window |
| Refresh.StillAccepted | src/quant_lab/decision/current_inputs.py:206-219 | an accepted response is accepted again later |
| Refresh.SameFactsWriteNoInput | src/quant_lab/decision/storage.py:56-60 | a snapshot of facts already stored writes no input, whenever it is generated |
| Refresh.InputsWriteOnce | src/quant_lab/decision/pipeline.py:119-139 | over every unpruned run an identity keeps the snapshot first stored under it |
| Batches.ParquetFileBatches | src/quant_lab/data/lake.py:1653-1679 | non-empty batches within both limits that concatenate to the files, and no such partition uses fewer |
| Batches.TightIsMinimal | src/quant_lab/data/lake.py:1653-1679 | a packing no batch of which could have taken one more file is minimal |
| Upsert.FastIsSimpleIff | src/quant_lab/data/lake.py:838-895 | the anti-join form stores the same rows, and the same number of rows, as concatenate-and-keep-last exactly when every stored row is either replaced by a joining row or alone with its key |
| Upsert.FastIsSimpleOnUniqueKeys | src/quant_lab/data/lake.py:808-826 | so it does for unique keys without nulls, and uniqueness is kept |
| Upsert.NullKeyDuplicates | src/quant_lab/data/lake.py:877-889 | a null key part is enough for the two forms to differ |
| Upsert.FastRows | src/quant_lab/data/lake.py:838-895 | how often the dataset holds each row after an upsert: every old row that joins no incoming one, and the last row of each incoming key |
| Upsert.FastIgnoresStoredOrder | src/quant_lab/data/lake.py:864-889 | stored rows in another order give the same rows |
| Upsert.CopiesAfter | src/quant_lab/data/lake.py:838-895 | an upsert leaves one row of each incoming key, or one more if the key has a null part, and does not touch the others |
| Upsert.RunIsMapFold | src/quant_lab/data/lake.py:829-895 | a run of upserts is a fold of map updates |
| Upsert.UniqueAfterRunIff | src/quant_lab/data/lake.py:837-845 | keys are unique after a run that starts without files exactly when every key the first batch repeats is sent again later and every key with a null part occurs once in all |
| Upsert.Dataset.UpsertStreaming | src/quant_lab/data/lake.py:829-895 | for each row how often it is stored afterwards; the keys are updated as a map; one row of each incoming key without nulls, other keys untouched; a dataset without files takes the batch as it is |
| Upsert.Dataset.UpsertInMemory | src/quant_lab/data/lake.py:808-826 | the stored rows, with unique keys, and the returned height of the in-memory form |
| Manifest.RoundTripIff | deploy/nas_archive/verify_redacted_v5_archive_receipt.py:34-48 | parsing the printed manifest gives back exactly the digests of the tree if and only if no file name contains a line break |
| Manifest.PrintInjective | deploy/nas_archive/prune_verified_redacted_v5_archive.py:25-55 | trees without such names that print the same manifest have the same digests |
| Manifest.BreaksAreAmbiguous | deploy/nas_archive/prune_verified_redacted_v5_archive.py:43-50 | with such a name two different trees print the same manifest |
| Manifest.ListingUnique | deploy/nas_archive/prune_verified_redacted_v5_archive.py:29-39 | the sorted listing, and so the manifest, is a function of the tree |
| Manifest.ParseLine | deploy/nas_archive/verify_redacted_v5_archive_receipt.py:10-10 | a parsed line is exactly the printed line of its digest and path |
| Manifest.SplitRules | deploy/nas_archive/verify_redacted_v5_archive_receipt.py:34-34 | how a text is cut into lines: at any break, a carriage return with its line feed being one |
| Manifest.CharacterClasses | deploy/nas_archive/verify_redacted_v5_archive_receipt.py:10-34 | by code point, which characters break a line, which are hexadecimal digits, and what lower-casing does to a letter |
| Manifest.NotAfterIff | deploy/nas_archive/prune_verified_redacted_v5_archive.py:36-36 | the order of names: equal, a prefix, or smaller at the first place they differ |
| NasArchive.BuildSourceManifest | deploy/nas_archive/prune_verified_redacted_v5_archive.py:25-55 | the walk, sort and print loops hash the manifest of the tree, whatever order the walk yields |
| NasArchive.SourceArchive.PruneVerifiedRedactedDay | deploy/nas_archive/prune_verified_redacted_v5_archive.py:58-99 | removes exactly the one past day whose manifest hash and file count match, and nothing otherwise |
| NasArchive.VerifyReceipt | deploy/nas_archive/verify_redacted_v5_archive_receipt.py:17-83 | succeeds exactly when manifest, payload and receipt agree in full |
| NasArchive.DeletedIsCopiedIff | deploy/nas_archive/verify_redacted_v5_archive_receipt.py:34-71 | when the copy is verified and the source is pruned against the same hash, the deleted tree and the copied payload are equal if and only if no deleted name contains a line break |
| Advisory.BestValues | src/quant_lab/api/main.py:1873-1885 | the dictionary loop keeps of each group exactly one row: kept by the filter, beaten by no other, and better than every earlier one |
| Advisory.WinnersFollow | src/quant_lab/api/main.py:1873-1885 | how the latest row of a group among the kept rows relates to the latest among all |
| Advisory.ListedFiltered | src/quant_lab/api/main.py:1886-1894 | the response order is stable, so dropping rows commutes with sorting |
| ResponseCache.ServedAgrees | src/quant_lab/api/main.py:1850-1943 | a served answer has the rows of a recomputation unless all three options are combined |
| ResponseCache.AlwaysAgreesIff | src/quant_lab/api/main.py:1850-1943 | that exception is exact for every request: it always has the rows of a recomputation if and only if it does not combine the three options or all its families are blank |
| ResponseCache.EqualKeysEqualAnswers | src/quant_lab/api/main.py:1772-1794 | equal cache keys ask for the same answer at every moment |
| ResponseCache.KeysEqualIff | src/quant_lab/api/main.py:1772-1794 | cache keys are equal if and only if source, options and the normalised symbols and families agree, in whatever order these are given |
| ResponseCache.FilterRows | src/quant_lab/api/main.py:1850-1894 | in response order every row of an asked symbol and family, still fresh if that is asked, as often as it is there; with latest-only exactly one of each candidate, the first of its newest |
| ResponseCache.CompactRows | src/quant_lab/api/main.py:1904-1935 | in response order all rows that do not mention the risk-on family, and of the others exactly one of each horizon, the first of the highest |
| ResponseCache.ValidUntil | src/quant_lab/api/main.py:1897-1901 | the earliest expiry: no returned row expires earlier and one expires then; an empty response has no end |
| ResponseCache.AdvisoryCache.Get | src/quant_lab/api/cache.py:121-134 | serves a response until it expires and then drops it |
| ResponseCache.AdvisoryCache.Set | src/quant_lab/api/cache.py:148-177 | stores the response and evicts one of the oldest beyond the limit |
| ResponseCache.AdvisoryCache.ClearExceptSourceSha | src/quant_lab/api/cache.py:136-142 | keeps exactly the responses of one source |
| ResponseCache.AdvisoryCache.Respond | src/quant_lab/api/main.py:1614-1718 | over any run of requests every response has the rows of a recomputation, unless the request combines all three options |

## Left out

- CrashTransparency.CrashTransparent: assumes that a call does not stop between the two recovery writes with a stale pointer (pipeline.py:170-171), which `CrashSafeIff` shows to be the exact condition, that failures are crash-stop, so no `OSError` is swallowed after a commit (pipeline.py:253; `FaultWindows` says what one does), and that no inbox file is rejected for its date alone, so verdicts do not change with the clock.
- StaleWindows.OrderSafeIff: takes the committed result as accepted (its input valid and not younger, its date not in the future), which `ReachableOrderSafeIff` proves of every reachable directory whose jobs precede the call; it is about the next call, and each later call is to be judged by its own store.
- FaultWindows.ReceiptFaultIff: the later calls work on the files that are there; new deliveries between them are not part of the statement.
- CurrentCost.BookCostsTheSpread: one way only, because deeper bids can make up for an ask level that ends within the tolerance.
- Ledger.LedgerRefinement: takes as given that retention removes only receipts a worker run has reached.
- EvidenceClosure.EvidenceClosure: uses the same crash-stop assumption, and takes as given that a file is delivered after its input was published and that one name always carries one content.
- ForwardSummary.Report: requires that an opportunity fixes its symbol, which the opportunity's content hash gives.
- CurrentCost.ObservationValidIff: for a positive notional; at zero the original divides by zero and below zero its contract refuses the record.
- AdviceBuilder.RaisingCostOnlyDefers: compares two costs that are both given; a size without an estimate leads to no view.
- ResponseCache.AlwaysAgreesIff: compares row sets, not the order of rows that tie in the response order, and does not model a row limit.
- NasArchive.DeletedIsCopiedIff: takes the hash as free of collisions among the files and manifests concerned.
- Ed25519, SHA-256, JSON and Parquet encodings: a signature is a flag of the artifact, a digest is the content it stands for, an identity is a given function of the hashed fields.
- Floating-point rounding and `isclose`: arithmetic is over the reals; the volatility and the trend figure of an advice are opaque.
- Clock skew: the two hosts share one clock; the five-second allowances of the accept and prune checks are kept, the worker's own allowance on its input is not modelled.
- Byte budgets, symbolic-link checks, permissions, capacity checks and transport: I/O around the modelled steps.
- Explanations, invalidation conditions, a result's warnings, missing-reason lists, first and last signal times and calendar days: texts and figures that no modelled branch reads.
- `bound_experiment` of the v2 result: the result's copy of the forward summary is not part of the result record here.
- The reuse branch of `run_worker` (worker.py:296-345), status files (`retention-status.json` among them) and correction files: they copy what the modelled functions return.
- `parse_fee`, `collect_current_inputs` and the exchange clients: only the fee's group, rate and fetch time reach the modelled code.
- Case folding beyond ASCII letters in the advisory filters; blank stripping and symbol normalisation are parameters.
- Column mismatches, row caps and the fallback of the lake upsert, dataset locks and compaction: the model compares rows with equal columns.
- Byte counts and the report records of the archive tools: they do not influence a decision.
- The retired result contracts' table migration in `Ledger.__init__` (ledger.py:22-62).
