# Alphard: a Dafny model of its stateful and arithmetic kernels

Around Alphard's network code sits a set of small kernels whose correctness can be stated as theorems: files that
must survive a crash, retention that must not drift, a repair that must undo a detector, limits that must not be
ratcheted past. This project models those kernels and proves the theorems.

| module (file) | models |
|---|---|
| `AtomicFiles`, `RiskState` (RiskState.dfy), `RiskStateProofs` | the peak-equity and daily-P&L basis stores as a file protocol of seven calls, a failure or a kill possible at each, recovery on load, and the account whose answers depend on them |
| `Retention` | backup pruning after every dump, and the labels of the operator's page |
| `Splits`, `SplitsRoundTrip` | split detection and repair on historical bars |
| `Adjustment` | split and dividend adjustment of stored rows |
| `CrossSource` | gap-aware log-returns, the Pearson loop, the rolling divergence, the whole gate |
| `RateLimiter` | the token bucket |
| `Base64`, `PemBundle` | the certificate bundle's writer and parser (section 4 of RFC 4648, sections 2 and 3 of RFC 7468) |
| `RiskGate` | the hard-limit gate |
| `OrderFlow` | slicing of an approved order and the submission loop |
| `Sizing` | position sizing and its Newton square root |
| `AuditLog` | the append-only sizing log and its replay |
| `MoexLoader`, `FallbackLoader` | paging, range chunking, the fallback chain and its skip cache |
| `Common`, `Algebra`, `Sorting` | shared value types, named real arithmetic with its laws, Python's stable sort |

`Decimal` and `float` are exact reals, dates and times are numbers, NaN and the infinities are a constructor or
`None`. The integer roundings the code chooses (half-even `round` and `to_integral_value`, truncation by `int`) are
kept. Loops and updated objects are methods and classes proved against functions; the theorems are about those
functions. `log`, `sqrt` and the certificate fingerprint are function parameters with their laws as hypotheses.

Where the code and its own documentation disagree the model follows the code:

- `adjustment.py` (147, 285) and `historical.py` (244) call adjustment idempotent. That is purity on raw rows. Run on
  its own output, the split stage is a no-op exactly when the splits after each row multiply to 1 or the row is all
  zero, and the dividend stage exactly when nothing is paid after any row (`Adjustment.ReapplyingIsANoOpIff`); the
  other module's repair keeps prices exactly when its factor is 1 (`Splits.RepairingAgainKeepsPricesIff`), and even
  then its rounded volumes can go on changing (`Splits.RoundingKeepsDrifting`).
- The basis loader's comments and log message say a damaged file is renamed aside (`tinkoff_account.py` 465, 518).
  Only the peak loader does that to its primary. `DamagedBasisThenKilledSaveStartsCold` shows what the difference costs.
- The backup page says a file labelled extra will be pruned and others kept. With a non-positive daily window that
  fails; `LabelsAgreeWithPruneIff` gives the exact condition and `WeeklyLabelOnADeletedFile` a listing.
- `_prune` (223) speaks of weeks back from the current week, but spends its budget on weeks that hold a backup. It
  never keeps less; `WeeklyWindowIsCalendarIff` says when it keeps the same, `GapKeepsAnOldWeek` when it does not.
- `fallback_loader.py` (251) assumes a source that is empty once stays empty. The cache is per ticker, not per
  window; `CacheIsInvisibleIff` says exactly when it changes who serves a call, `CacheChangesNoAnswerIff` when it
  changes no answer whatever bars the sources send, and `EmptyWindowHidesLaterBars` is a run that loses bars.
- `check_cross_source` (`cross_source.py` 329-331) says a constant factor between sources cancels out. In the
  correlation it does; the rolling divergence of the same function sees it. `MultipleOfItselfPassesIff` is the exact
  condition, `DoubledFeedIsReported` with `AlternatingFeedCorrelates` a feed it reports.
- `submit_market` builds its intent and its positions without a sector (`integration.py` 236-243, 489-496), so the
  sector limit never acts. `FlowIgnoresTheSectorLimit` says which orders a tag alone would stop: with a name cap no
  larger than the sector cap no BUY, but large SELLs, of held shares too (`TagWouldStopASale`).
- A slice can exceed 5% of ADV, because the number of slices is rounded half-even: `SliceOverItsChunk` is an order that
  does, `SlicesFitTheirChunkIff` the exact condition, `SliceStaysNearChunk` the bound.
- The gate marks a whole sector at the price of the trade. `SectorAtOwnMarksIff` says exactly when an approval also
  holds with every name at its own price, and `ApprovedOverTheSectorCap` is one that does not.
- An absent ADV counts as unlimited, so the first known volume can shrink an order (`FirstVolumeShrinksTheOrder`).

## Model

| member | source | states |
|---|---|---|
| `AtomicFiles.Save` | src/broker/tinkoff_account.py:334-382 | under any pattern of failing or fatal calls, from making the directory to removing an unpublished temporary file, the save leaves the old primary or the new value and a mirror that is old, torn or the old primary; a death after only successful calls has its exact file state |
| `RiskState.TinkoffAccount.constructor` | src/broker/tinkoff_account.py:182-185 | a new process holds exactly what recovery reads from the two stores, whichever damaged files it manages to rename |
| `RiskState.TinkoffAccount.LoadPeakEquity` | src/broker/tinkoff_account.py:187-282 | the primary, else the mirror, else 0; negative values count as 0; an undecodable file is moved aside if the rename succeeds, and the answer does not depend on that |
| `RiskState.TinkoffAccount.LoadDailyPnlBasis` | src/broker/tinkoff_account.py:384-566 | a missing primary is a cold start, a damaged one is replaced by the mirror, and trust needs both markers, a readable day and a positive value |
| `RiskState.TinkoffAccount.SavePeakEquity` | src/broker/tinkoff_account.py:307-382 | the peak store goes through the save protocol with the in-memory peak |
| `RiskState.TinkoffAccount.SaveDailyPnlBasis` | src/broker/tinkoff_account.py:568-663 | the basis store goes through the same protocol, stamped as a valid version-1 record |
| `RiskState.TinkoffAccount.FetchRealPortfolioState` | src/broker/tinkoff_account.py:813-898 | answer and memory after a reading do not depend on whether the file writes succeed; with successful writes the files follow too |
| `RiskStateProofs.InterruptedSaveKeepsPeakIff` | src/broker/tinkoff_account.py:307-382 | a save that did not publish leaves the recoverable peak unchanged, in every outcome, iff the primary was not damaged over a positive good mirror |
| `RiskStateProofs.KilledMirrorForgetsThePeak` | src/broker/tinkoff_account.py:340-356 | a concrete damaged primary and kill after which the peak is 0 |
| `RiskStateProofs.PeakSurvivesOneFault` | src/broker/tinkoff_account.py:187-382 | from a good primary and mirror, one kill anywhere or one undecodable file leaves the new, current or previous peak, never 0 |
| `RiskStateProofs.RecoveredPeakSurvivesKilledSaveIff` | src/broker/tinkoff_account.py:255-282 | after a load no interrupted save can lose the recovered peak iff the load moved a damaged primary aside, or there was no good positive mirror behind one to lose |
| `RiskStateProofs.PeakStepKeepsInvariant` | src/broker/tinkoff_account.py:187-382 | every restart, failed save or death keeps the primary undamaged, and the durable peak is the one just published or the one before |
| `RiskStateProofs.DurablePeakNeverFalls` | src/broker/tinkoff_account.py:187-382 | over any run of new highs, failing saves, deaths and restarts the recoverable peak never falls and never exceeds memory |
| `RiskStateProofs.InterruptedSaveKeepsBasisIff` | src/broker/tinkoff_account.py:568-663 | an interrupted save leaves the recoverable basis unchanged iff the primary was not damaged over a meaningful mirror |
| `RiskStateProofs.DamagedBasisThenKilledSaveStartsCold` | src/broker/tinkoff_account.py:463-502 | the basis loader leaves a damaged primary in place, so a recovery followed by a kill in the next save forgets the basis |
| `RiskStateProofs.DurableAnchorIsLastPublished` | src/broker/tinkoff_account.py:384-663 | over any run of day openings with failing saves, deaths and restarts the recoverable anchor is the last one published, or the initial one; a trusted anchor is never forgotten |
| `RiskStateProofs.RestartsAreInvisible` | src/broker/tinkoff_account.py:384-506 | with successful writes, rebuilding the account from disk between any calls of any run changes no answer and no refusal |
| `RiskStateProofs.PeakIsRunningMaximum` | src/broker/tinkoff_account.py:809-834 | the reported peak is the maximum of the loaded peak and every NAV seen, and each answer meets the gate's own validators |
| `RiskStateProofs.CashIsWhatPositionsLeave` | src/broker/tinkoff_account.py:825-834 | in every answer of a run cash and the positions' value add up to the NAV if the positions are worth no more than it, and cash is 0 otherwise |
| `RiskStateProofs.ThirtyOfAHundredInvested` | src/broker/tinkoff_account.py:825-834 | a NAV of 100 of which 30 is invested leaves 70 in cash |
| `RiskStateProofs.AnchorHoldsAllDay` | src/broker/tinkoff_account.py:863-889 | once a day is opened its first NAV stays the trusted anchor for the rest of the day |
| `RiskStateProofs.DailyPnlIsMeasuredFromTheOpen` | src/broker/tinkoff_account.py:863-891 | over a run with non-decreasing dates `daily_pnl` is the NAV minus the first NAV of that day, and no call of the day is refused for its basis |
| `RiskStateProofs.EventsAnswerAsReadings` | src/broker/tinkoff_account.py:384-898 | a run with restarts anywhere answers reading by reading as one process would |
| `RiskStateProofs.DailyPnlSurvivesRestarts` | src/broker/tinkoff_account.py:384-898 | the same daily P&L, measured from the day's open, for a process restarted at any point of the day |
| `RiskStateProofs.UntrustedBasisRefuses` | src/broker/tinkoff_account.py:872-884 | an untrusted basis never changes and refuses exactly the calls of other days, for ever |
| `RiskStateProofs.StoredBasisDecides` | src/broker/tinkoff_account.py:437-562 | after a restart on a readable record the first call is refused iff the record names another day without both markers and a positive amount; on its own day the P&L is measured from that amount, on any other the day is opened |
| `RiskStateProofs.LegacyBasisIsRefused` | src/broker/tinkoff_account.py:437-445 | a record without the two markers makes the first call of another day refuse |
| `Retention.BackupDirectory.ListBackups` | scripts/backup_database.py:176-192 | whatever order the directory is read in, the listing holds all its files newest first, equal timestamps in some order |
| `Retention.BackupDirectory.DeleteNotIn` | scripts/backup_database.py:272-282 | every listed file that is not kept is gone and every other file stays; exactly those still there are reported, a file that already vanished is passed over |
| `Retention.BackupDirectory.Prune` | scripts/backup_database.py:212-257 | on any listing only listed files outside the rule go; on a true listing the directory afterwards is the rule applied to it |
| `Retention.BackupDirectory.RunBackup` | scripts/backup_database.py:285-321 | the exit code of each outcome: 0 for a sound dump, pg_dump's own or 1, 124 for a timeout, 3 for a refused dump; refused, failed or hung dumps touch nothing; a sound one is written, whatever its timestamp, and a listing of the result pruned, uniquely so without equal timestamps |
| `Retention.BackupDirectory.RunBackups` | scripts/backup_database.py:285-321 | one cycle after another, each new file with its own name and timestamp, leaves the directory listed by the streamed rule |
| `Retention.AddWeekly` | scripts/backup_database.py:242-255 | the loop with its early break, which the page repeats, keeps the newest file of each of the first weeks within budget |
| `Retention.FirstPerWeekMeaning` | scripts/backup_database.py:237-255 | a file survives the weekly window iff it is the newest of a new week and fewer than the budget of weeks are newer |
| `Retention.KeptMeans` | scripts/backup_database.py:221-257 | a file survives a prune iff the daily window is positive and the file is among its newest or, of the others, the newest of its week with fewer than the budget of weeks newer |
| `Retention.KeptIsListing` | scripts/backup_database.py:230-257 | what a prune leaves is again newest first, and is what its paths select from the old listing |
| `Retention.ListingIsUnique` | scripts/backup_database.py:176-192 | a directory without equal timestamps has exactly one newest-first listing |
| `Retention.FirstPerWeekTwice` | scripts/backup_database.py:243-255 | choosing weeks among the chosen, even with one week already seen, is choosing once |
| `Retention.FirstPerWeekAbsorbs` | scripts/backup_database.py:243-255 | one more file, put in its place among the chosen or among all, leads to the same choice |
| `Retention.PruneAbsorbs` | scripts/backup_database.py:212-257 | pruning an already pruned history after one more backup of any timestamp equals pruning the whole history with it |
| `Retention.PruneIsIdempotent` | scripts/backup_database.py:212-257 | a second prune deletes nothing, and at most daily plus weekly files remain |
| `Retention.StreamingEqualsBatch` | scripts/backup_database.py:212-321 | for every retention setting, on any pruned listing and whatever order the timestamps arrive in, pruning after every run leaves exactly what one prune over the whole history would |
| `Retention.BackupsFromScratch` | scripts/backup_database.py:212-321 | the same on files: from an empty directory any run of cycles leaves the files one prune over every backup ever written would |
| `Retention.WeeklyWindowIsCalendarIff` | scripts/backup_database.py:221-223 | the weekly window keeps all that a window of calendar weeks would, and the same files iff every file older than that window has a full budget of newer weeks before it |
| `Retention.GapKeepsAnOldWeek` | scripts/backup_database.py:221-223 | a listing with a gap in which the two readings differ |
| `Retention.ListBackupPayloads` | src/web/queries.py:394-411 | every listed file is returned once, in order, with its label |
| `Retention.LabelMeans` | src/web/queries.py:371-402 | the first files are daily, then the newest of each of the most recent weeks is weekly and the rest extra, for every setting; a negative daily window counts from the end of the listing |
| `Retention.ExtraMeansPruned` | src/web/queries.py:353-357 | with a positive daily window a file is labelled extra iff pruning that listing deletes it |
| `Retention.LabelsAgreeWithPruneIff` | src/web/queries.py:374-402 | labels and pruning agree on a whole listing iff the daily window is positive, the weekly one is not, or the listing is empty |
| `Retention.WeeklyLabelOnADeletedFile` | src/web/queries.py:377-402 | a listing whose only file is labelled weekly and deleted by the next run |
| `Splits.DetectSplits` | src/data/quality/historical.py:123-185 | the pairwise loop over the sorted bars reports exactly the pairs whose close moved by an integer in range with enough confirming fields |
| `Splits.AgreeingFields` | src/data/quality/historical.py:157-168 | the fields collected are exactly those that moved by the close's integer |
| `Splits.NearestIntegerBounds` | src/data/quality/historical.py:188-223 | a positive answer pins the ratio: the sign gives the direction, and the move is within 2% of that integer |
| `Splits.PairHasEventIff` | src/data/quality/historical.py:144-181 | a pair has an event iff its closes are positive and moved by an integer in range, within 2% either way, and enough of open, high and low moved by the same integer; the event has the later bar's date, the ratio of the direction and those fields |
| `Splits.EventsAreTheSplits` | src/data/quality/historical.py:123-185 | an event is reported iff some consecutive pair of the sorted bars is such a split, with its date, ratio and fields |
| `Splits.OneFieldIsNotEnough` | src/data/quality/historical.py:169 | a close and low that halve while open and high stay raise nothing |
| `Splits.ApplySplitAdjustment` | src/data/quality/historical.py:226-267 | the nested loops send every bar through the date-sorted splits |
| `Splits.AdjustBarScales` | src/data/quality/historical.py:253-265 | the one-split-at-a-time fold multiplies the four prices by one factor and keeps the date |
| `Splits.RepairingAgainKeepsPricesIff` | src/data/quality/historical.py:244-245 | a second repair keeps date and prices iff the splits after the bar multiply to 1 |
| `Splits.WholeVolumesScale` | src/data/quality/historical.py:263 | where no step rounds, the volume moves inversely to the prices |
| `Splits.OneSplitRoundsTheVolume` | src/data/quality/historical.py:263 | a split before the bar leaves its volume, a later one leaves the integer nearest to volume times ratio, ties to even |
| `Splits.RepairingAgainIsANoOp` | src/data/quality/historical.py:244-263 | with factor 1 and nothing rounded the second repair changes nothing at all |
| `Splits.RepairingAgainHalvesAgain` | src/data/quality/historical.py:253-265 | one 2:1 split applied twice halves twice |
| `Splits.RoundingKeepsDrifting` | src/data/quality/historical.py:263 | three splits that multiply to 1 turn 2 shares into 3 and then 4: the rounding condition cannot be dropped |
| `Splits.FactorStep` | src/data/quality/historical.py:144-185 | the repair factors of consecutive bars differ exactly by the inverse ratio of the event detected between them |
| `Splits.SameScaleSameEvent` | src/data/quality/historical.py:144-181 | scaling both bars of a pair alike changes nothing the detector sees |
| `Splits.OrdinaryAfter` | src/data/quality/historical.py:203-223 | dividing the detected jump back out leaves a move the detector calls ordinary |
| `Splits.DetectAfterRepairFindsNothing` | src/data/quality/historical.py:123-267 | for distinct dates, any order and any number of forward and reverse splits, detection on the repaired series is empty |
| `SplitsRoundTrip.FieldRead` | src/data/quality/historical.py:188-223 | an injected factor of 2 to 10 on a field that moved within tolerance is read as exactly that signed integer |
| `SplitsRoundTrip.InjectedPairIsDetected` | src/data/quality/historical.py:144-181 | the pair at the injection raises one confirmed event with that date and ratio, naming every agreeing field |
| `SplitsRoundTrip.InjectableByDefault` | src/data/quality/historical.py:107-111 | under the shipped parameters the round trip needs an N from 2 to 10 and two of open, high and low moving with the close |
| `SplitsRoundTrip.InjectDetectRepair` | src/data/quality/historical.py:123-267 | inject, detect, repair: the detector returns exactly the injected split and the repair restores every original price |
| `Adjustment.ApplySplitAdjustment` | src/data/adjustment.py:117-190 | the nested loops divide by the product of later ratios, or raise on a non-positive one |
| `Adjustment.SplitOne` | src/data/adjustment.py:161-189 | the two running factors stay each other's inverse, so prices are divided by what volume is multiplied by |
| `Adjustment.ApplyDividendAdjustment` | src/data/adjustment.py:292-328 | the loop subtracts the sum of later dividends from adj_close, or raises on a negative amount or result |
| `Adjustment.RatioRemove` | src/data/adjustment.py:164-172 | each split strictly after a row contributes its ratio once, wherever it stands in the list |
| `Adjustment.PayoutRemove` | src/data/adjustment.py:301-305 | each dividend strictly after a row contributes its amount once, wherever it stands in the list |
| `Adjustment.SplitStageMeans` | src/data/adjustment.py:117-190 | the split stage refuses iff a split later than some row has a non-positive ratio; otherwise every row is restated, five prices and volume, by the product of the ratios of the later splits |
| `Adjustment.DividendStageMeans` | src/data/adjustment.py:292-328 | the dividend stage refuses iff a later dividend is negative or the later ones sum to more than a row's adjusted close; otherwise the sum comes off that close, which stays non-negative, and nothing else changes |
| `Adjustment.ActionOrderIsIrrelevant` | src/data/adjustment.py:117-374 | both stages, and so their composition, give the same rows or the same refusal for every rearrangement of the actions |
| `Adjustment.AdjustmentComposes` | src/data/adjustment.py:117-328 | adjusting by A and then by B equals adjusting by both, stage by stage, refusals included |
| `Adjustment.SplitsKeepValueAndOrder` | src/data/adjustment.py:99-114 | price times volume is unchanged for all four prices, and open and close stay between low and high |
| `Adjustment.ReapplyingIsANoOpIff` | src/data/adjustment.py:146-149 | over whole lists, a stage run on its own output changes nothing iff, for splits, those after each row multiply to 1 or the row is all zero, and for dividends nothing is paid after any row |
| `Adjustment.ReapplyingSplitsIff` | src/data/adjustment.py:159-190 | for one row: a no-op iff the later splits multiply to 1 or all its prices and its volume are 0 |
| `Adjustment.ReapplyingDividendsIff` | src/data/adjustment.py:285-328 | for one row: a no-op iff the later dividends sum to 0; otherwise it discounts again or is refused |
| `Adjustment.ReapplyingAdjustsAgain` | src/data/adjustment.py:146-149 | a row on which a second split pass halves again and a second dividend pass pays again |
| `Adjustment.FactorIsInverseRatio` | src/data/adjustment.py:164-172 | the factor of the other module's fold is the inverse of the product here |
| `Adjustment.BothImplementationsAgreeOnPrices` | src/data/adjustment.py:161-189 | both split implementations give the same four prices for every row and list of splits |
| `CrossSource.LogReturns` | src/data/quality/cross_source.py:116-207 | the two-state loop emits exactly len-1 entries, each measured from the last valid close before it or a gap |
| `CrossSource.ReturnsMean` | src/data/quality/cross_source.py:170-207 | each return is the log of a valid close over the nearest valid one before it, and a gap iff the close is bad or none precedes it |
| `CrossSource.FiniteReturnsTelescope` | src/data/quality/cross_source.py:170-207 | for every pattern of bad closes the finite returns sum to log(last valid / first valid) |
| `CrossSource.ScalingChangesNoReturn` | src/data/quality/cross_source.py:116-207 | multiplying a source by a positive constant changes none of its returns |
| `CrossSource.GapIffBadClose` | src/data/quality/cross_source.py:171-206 | a return series is free of gaps iff every close is finite and positive |
| `CrossSource.CauchySchwarzStep` | src/data/quality/cross_source.py:264-269 | one pass of the accumulating loop keeps cov² <= varx·vary |
| `CrossSource.CauchySchwarz` | src/data/quality/cross_source.py:259-269 | the accumulators of every pair of series satisfy cov² <= varx·vary |
| `CrossSource.ZeroVarianceIffFlat` | src/data/quality/cross_source.py:270-273 | the variance guard fires iff the series is constant |
| `CrossSource.Correlate` | src/data/quality/cross_source.py:259-274 | a flat side is named correctly, and otherwise the result is the coefficient and lies in [-1, 1] |
| `CrossSource.PearsonWithReason` | src/data/quality/cross_source.py:210-274 | each reason exactly when its condition holds, with the right gap indices and flat side; otherwise Pearson's coefficient of the two series, sign included |
| `CrossSource.CoefficientIsBounded` | src/data/quality/cross_source.py:264-274 | two varying series have a positive root and a coefficient in [-1, 1] |
| `CrossSource.SelfCorrelationIsOne` | src/data/quality/cross_source.py:264-274 | a varying series correlates with itself exactly 1 |
| `CrossSource.CoefficientIsPearson` | src/data/quality/cross_source.py:259-274 | with s(x, y) = n sum(xy) - sum(x) sum(y), the coefficient has the sign of s(x, y) and its square times s(x, x) s(y, y) is the square of s(x, y) |
| `CrossSource.AffineInvariance` | src/data/quality/cross_source.py:259-274 | re-scaling and shifting one series keeps the coefficient, and negates it if the scale is negative |
| `CrossSource.FullCorrelationIff` | src/data/quality/cross_source.py:259-274 | two varying series score 1 iff one is a rising affine image of the other and -1 iff a falling one |
| `CrossSource.MirrorImageScoresMinusOne` | src/data/quality/cross_source.py:274 | returns of 1, -1 against -1, 1 score -1 |
| `CrossSource.AlignmentIsTheSortedIntersection` | src/data/quality/cross_source.py:288-310 | the aligned dates are exactly those both feeds have, once each and ascending, so the drop counts are never negative |
| `CrossSource.ByDateMeans` | src/data/quality/cross_source.py:303-304 | of several pairs with one date the last counts, and no other dates occur |
| `CrossSource.CheckCorrelation` | src/data/quality/cross_source.py:339-436 | the issues raised are those of alignment, coverage, the reason code and the threshold, in that order, and it is known where the gate returns early |
| `CrossSource.CorrelationIssuesMean` | src/data/quality/cross_source.py:339-436 | each issue is raised iff its condition on the two feeds holds: dates dropped, too few aligned, no coefficient, a coefficient below the threshold |
| `CrossSource.RollingDivergence` | src/data/quality/cross_source.py:438-482 | the window loop reports its peak and the date of the first window that reached it iff it exceeds the threshold; a window of 0 days divides by zero |
| `CrossSource.PeakIsTheMaximum` | src/data/quality/cross_source.py:441-464 | that peak is the maximum of 0 and the window means |
| `CrossSource.MeanIsTheAverage` | src/data/quality/cross_source.py:444-461 | a full window of valid closes has the average of |log a - log b| as its mean, any other none |
| `CrossSource.RollingRaisesIff` | src/data/quality/cross_source.py:438-482 | for a positive window and a threshold of at least 0 a divergence is raised iff some window's mean exceeds the threshold |
| `CrossSource.CheckCrossSource` | src/data/quality/cross_source.py:318-484 | the whole gate: the correlation part, and unless it returned early the rolling divergence |
| `CrossSource.NoWindowIsSkipped` | src/data/quality/cross_source.py:446-460 | once the correlation is through every aligned close is valid, so the guard inside the window loop never fires |
| `CrossSource.MultipleOfItselfCorrelates` | src/data/quality/cross_source.py:318-436 | on a source and a positive multiple of itself the correlation part raises nothing iff the threshold is at most 1, there are enough dates, every close is usable and the returns vary |
| `CrossSource.MultipleOfItselfPassesIff` | src/data/quality/cross_source.py:318-484 | the whole gate raises nothing on a source and its multiple by k iff the correlation part does not and there are fewer dates than the window or the log of k, in magnitude, is within the divergence threshold |
| `CrossSource.DoubledFeedIsReported` | src/data/quality/cross_source.py:438-482 | under the shipped parameters a feed that correlates with itself is reported against its double, with the log of 2 and the end of the first window |
| `CrossSource.AlternatingFeedCorrelates` | src/data/quality/cross_source.py:318-436 | five days alternating between 1 and 2 are such a feed |
| `RateLimiter.TokenBucket.AcquireNowait` | src/data/token_bucket.py:127-134 | a token is taken iff one is there after the refill; `GrantedIffNoWindowIsFull` says when that is |
| `RateLimiter.TokenBucket.Acquire` | src/data/token_bucket.py:106-125 | a caller alone on the bucket is granted a token by its second pass, and the loop ends |
| `RateLimiter.StepStaysInRange` | src/data/token_bucket.py:86-143 | tokens stay in [0, capacity] and the refill time follows the clock through every operation |
| `RateLimiter.GrantsArePaidFor` | src/data/token_bucket.py:86-134 | tokens in hand plus what can drip in by b pay for every grant up to b |
| `RateLimiter.RateBoundOverEveryWindow` | src/data/token_bucket.py:86-134 | over any interleaving with a clock that does not run backwards, grants in [a, b] are at most capacity + (b-a)·rate/window |
| `RateLimiter.LevelIsWithinEveryWindow` | src/data/token_bucket.py:86-134 | after any run the level is at most what the tokens at the start and the drip leave of all grants, and at most what capacity and the drip leave of the grants of any window |
| `RateLimiter.GrantedIffNoWindowIsFull` | src/data/token_bucket.py:86-134 | the matching lower bound: after any run a caller is granted iff the tokens at the start and the drip pay for one more and no window ending now is at its bound |
| `RateLimiter.BurstIsGrantedIff` | src/data/token_bucket.py:86-134 | after any pause k callers at once are all granted iff k is at most the capacity and at most the tokens in hand plus the drip |
| `RateLimiter.IdleMinuteRefillsTen` | src/data/token_bucket.py:93 | an empty bucket of 10 at one token a second grants ten callers after an idle minute, and not eleven |
| `RateLimiter.RefillTwice` | src/data/token_bucket.py:86-94 | refilling on the way to a later time changes nothing |
| `RateLimiter.ObserversAreInvisible` | src/data/token_bucket.py:96-143 | dropping every wait_time and tokens_available call from a run changes no grant |
| `RateLimiter.DelayIsExact` | src/data/token_bucket.py:100-104 | a token is there after a pause iff the pause is at least the announced delay, which is never negative |
| `RateLimiter.NoProgressBelowOneToken` | src/data/token_bucket.py:65-78 | below a capacity of one no run ever grants anything, so the floor is what makes progress possible |
| `RateLimiter.SettledLimitsAreValid` | src/data/token_bucket.py:56-78 | construction succeeds iff rate, window and any given capacity are positive; the capacity is then the given one, or the rate, but at least 1, and the drip per second times the window is the rate |
| `Base64.EncodeAlphabet` | scripts/fetch_tinkoff_gost_ca.py:318 | the encoding is whole groups of alphabet characters, empty only for no bytes (section 4 of RFC 4648) |
| `Base64.AlphabetMeans` | scripts/fetch_tinkoff_gost_ca.py:318 | the characters of Table 1 in section 4 of RFC 4648 |
| `Base64.EncodeMeans` | scripts/fetch_tinkoff_gost_ca.py:318 | every four characters spell to base 64 the number three bytes spell to base 256, and the bytes left over make a padded group filled with zero bits |
| `Base64.TestVectors` | scripts/fetch_tinkoff_gost_ca.py:318 | the test vectors of section 10 of RFC 4648 |
| `Base64.DecodeEncode` | scripts/fetch_tinkoff_gost_ca.py:164 | validated decoding of an encoding gives the bytes back, padding included |
| `Base64.DecodeAcceptsIff` | scripts/fetch_tinkoff_gost_ca.py:164 | the decoder accepts exactly whole groups of data characters with at most two characters of padding at the end |
| `PemBundle.Deduplicate` | scripts/fetch_tinkoff_gost_ca.py:324-328 | the dictionary loop keeps the first certificate of each fingerprint, in order |
| `PemBundle.WriteBundle` | scripts/fetch_tinkoff_gost_ca.py:322-336 | the text is the comment header and the blocks of the deduplicated list, and their number is returned |
| `PemBundle.WrapFacts` | scripts/fetch_tinkoff_gost_ca.py:319 | the body lines join to the encoding, all 64 characters long but the last, which is not empty |
| `PemBundle.ParsePemBlocks` | scripts/fetch_tinkoff_gost_ca.py:142-179 | the line loop is the line machine, with a refusal for a non-base64 or empty body |
| `PemBundle.ParseMeans` | scripts/fetch_tinkoff_gost_ca.py:142-179 | on the lines of any text: every END yields the bytes between it and the last BEGIN before it, a stray one nothing; the first END without decodable, non-empty bytes is the refusal; no other line matters |
| `PemBundle.YieldsOnce` | scripts/fetch_tinkoff_gost_ca.py:156-178 | an END yields one answer, so the previous row determines the result |
| `PemBundle.ParseOneBlock` | scripts/fetch_tinkoff_gost_ca.py:156-178 | a written block parses back to its bytes in front of any following lines, and an empty one is refused |
| `PemBundle.ParsePemText` | scripts/fetch_tinkoff_gost_ca.py:142-179 | the text of a list of certificates parses to the list iff none is empty |
| `PemBundle.FingerprintsDeduplicate` | scripts/fetch_tinkoff_gost_ca.py:324-328 | with collision-free fingerprints this is removal of repetitions in first-occurrence order, losing no certificate |
| `PemBundle.FirstOccurrencesMean` | scripts/fetch_tinkoff_gost_ca.py:324-328 | each certificate of the list once, in the order of first occurrence |
| `PemBundle.BundleRoundTrip` | scripts/fetch_tinkoff_gost_ca.py:142-336 | parsing what was written returns the list without duplicates, ignoring the header, iff no certificate is empty |
| `RiskGate.Gate.Evaluate` | src/risk/gate.py:276-312 | every broken limit is reported once, in order, and the order is allowed iff there is none; `GateMeans` says which limits are broken |
| `RiskGate.GateMeans` | src/risk/gate.py:276-533 | exactly the broken limits are reported, each once and in order, as inequalities without division: a BUY is judged by the position it leads to, a SELL by what exceeds the holding, the sector by what is left plus what is sold short |
| `RiskGate.HoldingsAreSums` | src/risk/gate.py:353-356 | the holding, the holding in the sector and the sector are sums over the positions concerned, each counted once |
| `RiskGate.NakedShortIsRefused` | src/risk/gate.py:360-388 | selling short 1000 shares at 100 on an equity of 1000 breaks the position limit alone |
| `RiskGate.Gate.CheckPositionSize` | src/risk/gate.py:316-391 | the position limit is judged on the level after a BUY, or on what a SELL opens short |
| `RiskGate.Gate.CheckSectorExposure` | src/risk/gate.py:393-486 | the sector limit is judged on the whole sector after the trade, marked at the trade price |
| `RiskGate.KillSwitchesAreFloors` | src/risk/gate.py:488-533 | the two switches are linear floors: on the day's P&L against equity, and on equity against the peak |
| `RiskGate.ForgettingThePeakDisarms` | src/risk/gate.py:527-533 | a forgotten peak can clear a drawdown refusal but never cause one, and a reset to equity always clears it |
| `RiskGate.RunApprovedIff` | src/risk/gate.py:276-391 | a run of BUYs with fills added in between is approved step by step iff their total is within every limit and, at price 1, no step exceeds one share |
| `RiskGate.NoRatcheting` | src/risk/gate.py:276-391 | for BUYs of one symbol at one price other than 1, step by step iff one BUY of the total: splitting the order gains nothing |
| `RiskGate.SentinelPriceSplitsIff` | src/risk/gate.py:295-301 | at price 1 splitting gets past the gate iff steps of at most one share add up to more than one share within the limits |
| `RiskGate.TwoHalvesPassTheSentinel` | src/risk/gate.py:295-301 | two BUYs of one share pass where one of two is refused |
| `RiskGate.NeverPushedOverTheCap` | src/risk/gate.py:379-391 | after an approved run of BUYs of one symbol, it and its sector are under their caps with every name marked at the trade price |
| `RiskGate.SectorAtOwnMarksIff` | src/risk/gate.py:431-482 | an approved sector is under the cap with every name at its own mark iff the names trade above the trade price by no more, in total, than the room the gate saw |
| `RiskGate.ApprovalHoldsAtOwnMarks` | src/risk/gate.py:431-482 | an approved sector is under the cap with every name at its own mark whenever no name of it trades above the trade price |
| `RiskGate.ApprovedOverTheSectorCap` | src/risk/gate.py:431-482 | a BUY of a cheap name approved under a 25% cap that leaves the sector at 40% of equity |
| `RiskGate.DroppingTheSectorMattersIff` | src/risk/gate.py:425-429 | without a sector the limit is never reported, and leaving it out changes the verdict iff that limit alone is broken |
| `RiskGate.UntaggedTagMattersIff` | src/risk/gate.py:441-465 | against positions without a sector a tag changes the verdict iff the trade is allowed and its own notional, SELL or BUY, is over the sector cap |
| `RiskGate.UntaggedBuyNeedsNoTag` | src/risk/gate.py:368-391 | for a BUY it changes nothing if a name may take no more than a sector |
| `RiskGate.SellNeverProjectsNegative` | src/risk/gate.py:467-475 | the projected sector value of a SELL is never negative, so the removed clamp is not needed |
| `RiskGate.TrimNeverBreaksPosition` | src/risk/gate.py:360-382 | a SELL of no more than is held never breaks the position limit |
| `OrderFlow.OrderSlicer.Slice` | src/broker/slicer.py:54-130 | the loop, with its min() guards, produces the equal slices of the chosen count |
| `OrderFlow.SmallOrderIsOneSlice` | src/broker/slicer.py:79-90 | an order of at most 5% of ADV is one slice, sent at once |
| `OrderFlow.SliceCountMeans` | src/broker/slicer.py:92-130 | a larger one is cut into equal slices of equal length over half an hour, as many as come closest to 5% of ADV each, ties to even, between 1 and 112500, or as many as it has whole shares if that is fewer |
| `OrderFlow.ChunkAtLeastOneShare` | src/broker/slicer.py:105-113 | after the rate cap and the one-share floor no slice is below min(1, parent) |
| `OrderFlow.SlicingConserves` | src/broker/slicer.py:76-130 | slices are positive and sum exactly to the parent order |
| `OrderFlow.SlicingPaces` | src/broker/slicer.py:96-128 | cumulative_pct rises strictly to 100, and several slices tile 30 minutes with starts at least 16 ms apart |
| `OrderFlow.SliceStaysNearChunk` | src/broker/slicer.py:93-105 | when neither the cap nor the floor changes the count, a slice stays below 1.5 times 5% of ADV |
| `OrderFlow.SlicesFitTheirChunkIff` | src/broker/slicer.py:92-113 | no slice exceeds 5% of ADV iff the number of chunks filled rounds up; never once the rate cap cuts the count; and once the one-share floor does, iff the whole shares of the order, one chunk each, cover it |
| `OrderFlow.SliceOverItsChunk` | src/broker/slicer.py:93-105 | 120 shares against a 50-share chunk become two slices of 60 |
| `OrderFlow.PlaceholderIsOneSlice` | src/broker/integration.py:278-293 | without an ADV provider the order is one slice |
| `OrderFlow.FlowIgnoresTheSectorLimit` | src/broker/integration.py:236-243 | on the portfolios this path builds the sector limit is never reported; a tag alone would stop exactly the allowed orders whose own notional is over the sector cap, no BUY if a name may take no more than a sector, and SELLs of held shares although they open nothing |
| `OrderFlow.TagWouldStopASale` | src/broker/integration.py:487-496 | a sale of a whole holding worth 40% of equity passes, and would be stopped by a 30% cap if the order were tagged |
| `OrderFlow.SubmitApproved` | src/broker/integration.py:284-394 | the quantities of the slices are sent, which sum to the approved quantity, or nothing is; FILLED iff all slices filled, REJECTED iff all were refused or none was sent, SUBMITTED otherwise, and the counts are right |
| `Sizing.DrawdownScalarFalls` | src/broker/sizing.py:341-354 | a deeper drawdown never keeps more, across the clamps and the linear part |
| `Sizing.DrawdownScalarMeans` | src/broker/sizing.py:341-354 | 1 without a drawdown, the floor from the knee on, and in between the straight line through both |
| `Sizing.VolScalarMeans` | src/broker/sizing.py:629-631 | the scalar brings the ATR, but no less than its minimum, to the target, or stops at its maximum |
| `Sizing.BaseTimesLiquidity` | src/broker/sizing.py:699-727 | the liquidity scalar falls with cash, yet base times scalar is a minimum in which cash only helps |
| `Sizing.SizingIsExact` | src/broker/sizing.py:563-667 | the quantity is the most whole lots bought by a closed-form notional in which the ADV term contains no cash, and is skipped iff that is below the minimum |
| `Sizing.LargestFitIsUnique` | src/broker/sizing.py:651-656 | at most one quantity is the largest fit of a notional, so the previous row determines the order |
| `Sizing.SizingMeans` | src/broker/sizing.py:563-667 | the whole formula on the inputs and the two scalars' defining equations: an order with bars and cash has a quantity iff that is the largest fit of min(cash cap, gross · vol · dd · regime · confidence) |
| `Sizing.SkipsMean` | src/broker/sizing.py:595-667 | an order is skipped iff it is empty; for want of bars iff there are none, for want of cash iff there are bars but no cash |
| `Sizing.SizingIsMonotone` | src/broker/sizing.py:563-667 | more cash, less drawdown, less ATR, a kinder regime or more confidence never shrink the order |
| `Sizing.SizingIsBounded` | src/broker/sizing.py:619-667 | the order is a multiple of the lot worth at most min(max_size_pct, risk·max_vol·max_liq) of cash |
| `Sizing.LiquidityRisesWithAdvIff` | src/broker/sizing.py:715-727 | a larger ADV cannot lower the scalar iff the smaller is positive, the larger is not, or the larger reaches the ADV at which the scalar saturates; without cash or price iff the maximum is at most 1 |
| `Sizing.FirstVolumeShrinksTheOrder` | src/broker/sizing.py:715-727 | with the shipped settings the first half share of volume cuts an order from 200 shares to 10 |
| `Sizing.DefaultsAreValid` | src/broker/sizing.py:69-91 | the shipped settings satisfy what the theorems assume of a configuration |
| `Sizing.DecimalSqrt` | src/broker/sizing.py:328-338 | 0 for a non-positive value, otherwise the iterate of the given count from the float guess or, if that is 0, from the value |
| `Sizing.NewtonSteps` | src/broker/sizing.py:328-338 | the iterates start at the guess, stay positive, and each turns the error e of x into e² / (4 x²) |
| `Sizing.StepError` | src/broker/sizing.py:337-338 | one Newton step never ends below the root, and from above it does not rise and at least quarters the error |
| `Sizing.NewtonConverges` | src/broker/sizing.py:328-338 | every iterate after the first has square >= v, iterates never increase, and after k more steps x² - v is at most the first error over 4^k |
| `AuditLog.AuditFile.Write` | src/broker/sizing.py:424-474 | published, the file is its longest newline-terminated prefix, or nothing if it could not be read, and the new line; refused or killed, it is untouched; an orphan remains only if its removal failed or the process died |
| `AuditLog.PrefixKeepsTheRecords` | src/broker/sizing.py:447-456 | the kept prefix is the longest ending in a newline: it holds every record and drops exactly the torn tail |
| `AuditLog.WriteAddsOneRecord` | src/broker/sizing.py:424-464 | for any existing bytes, torn anywhere, a write leaves their records plus exactly the new one |
| `AuditLog.TruncationKeepsSurvivors` | src/broker/sizing.py:439-456 | cutting the bytes anywhere cuts the log to the records that still fit |
| `AuditLog.SurvivorsArePrefix` | src/broker/sizing.py:439-456 | the records that survive a cut are the first ones, in order |
| `AuditLog.FileRefinesLog` | src/broker/sizing.py:380-474 | over any run of writes, writes that could not read the file, interrupted writes and truncations the file holds exactly the records of an abstract log |
| `AuditLog.LogOnlyGrows` | src/broker/sizing.py:413-415 | without truncation or unreadable files no record is ever lost or moved |
| `AuditLog.BlindWriteKeepsRecordsIff` | src/broker/sizing.py:431-438 | a write that could not read the file keeps its records iff there are none |
| `AuditLog.ReplayAfterWriteIff` | scripts/replay_sizing.py:55-94 | after a write the file loads iff its terminated lines do, whatever the torn tail; if it loaded before, the write adds its record and changes nothing else iff the tail, also cut at carriage returns, held no whole object |
| `AuditLog.WriteDropsAReplayedTail` | scripts/replay_sizing.py:70-94 | the bytes of an empty object without a newline are replayed, and gone after the next write |
| `MoexLoader.MoexDataLoader.IterOhlcvShares` | src/data/moex_loader.py:234-278 | whenever the call returns at all it yields the well-formed in-range bars of the pages, or the first error |
| `MoexLoader.InWindowMeans` | src/data/moex_loader.py:270-275 | of any rows exactly the well-formed ones dated in the range are kept, in their order |
| `MoexLoader.PagingEndsIff` | src/data/moex_loader.py:252-278 | the loop ends iff the page size is positive, or the very first request fails or finds nothing |
| `MoexLoader.PagingIsExactIff` | src/data/moex_loader.py:252-278 | the pages joined are the matching rows once each iff the page size is the exchange's or everything fits on a page of either size |
| `MoexLoader.MatchingKeepsTheWindow` | src/data/moex_loader.py:272-275 | the client's date check makes up for an exchange that sends rows outside the range |
| `MoexLoader.RangeIsAFlatQuery` | src/data/moex_loader.py:155-278 | one call over a valid range is the flat filter of the exchange's history, and any other range is refused |
| `FallbackLoader.IterSource` | src/data/fallback_loader.py:271-296 | the chunk loop joins the answers of its sub-ranges, the first error winning |
| `FallbackLoader.ChunksTileTheWindow` | src/data/fallback_loader.py:291-296 | the chunks run from start to end without gap or overlap, none longer than the cap and all but the last as long |
| `FallbackLoader.EachDayIsInOneChunk` | src/data/fallback_loader.py:291-296 | a day is in exactly one chunk iff it is in the window, and otherwise in none |
| `FallbackLoader.WindowSplits` | src/data/fallback_loader.py:293-296 | over a dated history the bars of a window are those of its two parts one after the other |
| `FallbackLoader.ChunkedPagingIsAFlatQuery` | src/data/fallback_loader.py:258-296 | chunks times pages: for every window, however long, exactly the exchange's well-formed bars once each in order; a backwards window is refused |
| `FallbackLoader.FallbackDataLoader.IterOhlcv` | src/data/fallback_loader.py:189-256 | the bars are the first unskipped source's that has any; exactly the sources that failed before it join this ticker's cache; the counters move accordingly |
| `FallbackLoader.WinnerIsFirst` | src/data/fallback_loader.py:215-250 | a source that is known, not skipped and has bars serves the call iff none before it would, and nobody serves only if there is no such source |
| `FallbackLoader.FailedMeans` | src/data/fallback_loader.py:230-255 | a call marks exactly the sources it reached, did not skip, and found raising or empty |
| `FallbackLoader.SkippingMattersIff` | src/data/fallback_loader.py:215-255 | a skip set changes who serves a call iff it holds the source that would have |
| `FallbackLoader.EverFailedMeans` | src/data/fallback_loader.py:242-255 | a source counts as ever failed for a ticker iff some earlier call for it would have found it wanting |
| `FallbackLoader.CacheIsInvisibleIff` | src/data/fallback_loader.py:103-113 | over any run of calls the skip cache changes who serves no call iff no source fails for a ticker and would later have served it |
| `FallbackLoader.CacheChangesNoAnswerIff` | src/data/fallback_loader.py:103-113 | it changes no answer, whatever bars the sources send, iff the same holds |
| `FallbackLoader.RecoveryHiddenByEqualBars` | src/data/fallback_loader.py:215-255 | a run in which another source serves the call and the answer is the same only because the bars are equal |
| `FallbackLoader.EmptyWindowHidesLaterBars` | src/data/fallback_loader.py:251-255 | one empty window hides the bars of a later one: a concrete run in which the cache loses data |

## Left out

- Network and processes: gRPC, HTTP, Postgres, SQLite, `pg_dump`, gzip, Docker, the web server, argument parsing and logging are not modelled; a dump, a page, a quote or a broker reply is an input.
- Rounding of `Decimal` to 28 digits, of `float`, and of `timedelta` to microseconds: exact reals are used, so no statement is about the last digit.
- Well-formed JSON with a non-numeric amount is outside the handled cases and outside the model.
- The forensic copies of damaged files and their pruning: a file that is moved aside is simply absent afterwards.
- RestartsAreInvisible: assumes successful writes, as a failed basis write legitimately differs after a restart; the peak store has its own statement under failing writes (DurablePeakNeverFalls).
- ISO weeks are a field of each backup file, and the dry run is not modelled.
- StreamingEqualsBatch: is about listings. For files with equal timestamps the order, and so which of them a prune keeps, is the file system's choice, and RunBackup says only that some listing is pruned.
- Delisting checks and the remaining quality gates are threshold comparisons and add nothing harder.
- AdjustmentComposes: is about each stage alone; `apply_adjustment` of a split list and then a dividend list does not compose with the reverse order, because dividends are subtracted at the price level the splits left.
- InjectDetectRepair: restores prices; volumes before the split come back multiplied by the ratio and rounded, because the repair rounds each volume to whole shares.
- Ticker, side and source-name fields that are only passed through are dropped from bars, rows and slices; symbols are taken as already upper-cased.
- RateLimiter.TokenBucket.Acquire: is about a caller alone on the bucket; fairness between threads, and `acquire` with a frozen clock, are not modelled. The rate bound itself covers every interleaving of critical sections.
- Fetching the certificate chain, dropping leaf certificates and the ASN.1 check of a certificate; SHA-256 is a parameter assumed free of collisions on the list at hand. `base64.b64decode` also accepts some surplus padding that this decoder refuses, which no written bundle contains.
- ATR estimation (`compute_atr_simple`, `compute_atr_ewma`) and the regime table are inputs of sizing, assumed non-negative and at most 1 where the code's types say so.
- The gate's `meta` dictionary and violation texts; the branches for non-positive equity and peak, which the portfolio's own validator rules out before the gate is reached.
- Refusals of `submit_market` before the gate (universe, quote) and the portfolio conversion.
- IterOhlcvShares: covers shares; the bonds endpoint has the same loop over other columns. A call that never returns, with a page size of 0 and a first page that is not empty, has no contract (PagingEndsIff); negative sizes send a negative offset and are not modelled.
- IterOhlcv: covers the bar path; the universe and corporate-action paths repeat the chain with the same counters.
- DoubledFeedIsReported: takes log(2) > 0.01 as a hypothesis, because `log` is any function with the product law.
- PagingIsExactIff: takes the exchange's answer to a request as its matching rows from the given offset; that MOEX keeps to this is not something the repository can show.
- Daemon loops and the circuit breaker of `src/main.py`, macro classification, settings, status strings, SQL builders and metrics are branch-level facts.
