# Wealthboard: exact arithmetic, ledgers and protocols

A Dafny model of the parts of Wealthboard whose correctness is not visible from any one
function body, with proofs of what they promise.

| file | models |
|---|---|
| `Rational.dfy`, `Calendar.dfy`, `Compounding.dfy`, `GoalProjection.dfy` | goal projection over exact rationals, the two rounding routines, the search for the required monthly pace, completion months and dates, chart points |
| `Ledger.dfy`, `LedgerReplay.dfy` | transaction effects in int64, and the replays of one effective-dated ledger: chart, stored balance, conversion, import preview |
| `FlowWindows.dfy` | the memoised valuations, a flow window, and the monthly flow report |
| `Sums.dfy`, `PositionSnapshot.dfy`, `Attribution.dfy` | the value of a position account and the attribution of its change |
| `StaleRanges.dfy` | the periods in which an instrument's price was too old |
| `OAuthTables.dfy`, `OAuthService.dfy`, `OAuthSafety.dfy`, `OAuthRuns.dfy`, `OAuthLifetimes.dfy`, `OAuthOwnership.dfy`, `OAuthPruning.dfy` | the authorization server's requests, grants, codes and tokens |
| `FixedWindow.dfy` | the in-memory request limiter |
| `LoginLimiter.dfy`, `LoginAnswers.dfy` | the login limiter as interleaved transactions that wait for locks and rows, and what it answers |
| `Decimals.dfy`, `Money.dfy` | formatting and parsing of exact amounts |
| `DerivedIds.dfy`, `HistoryImport.dfy`, `ImportValidation.dfy`, `ImportMerging.dfy` | identities of imported rows, and importing an account's history |
| `GoalLinks.dfy` | the two pointers between goals and accounts |
| `Wrappers.dfy`, `Sequences.dfy` | shared types and facts about sequences |

Code that changes state is a class or a method with the source's loops and row updates,
proved equal to a function on values; the theorems are about those functions and about
whole runs of them. A transaction is one atomic step, except in `LoginLimiter.dfy`, where
locks, deletions, reads and the commit are separate steps of interleaved processes. Times and day
numbers are integers, `big.Int` is `int`, `big.Rat` is a numerator over a positive
denominator whose worth is a `real`, int64 arithmetic is checked or wraps where the source
does, identifiers and secrets are numbers (a secret stands for its hash), and freshly drawn
identifiers are parameters.

## What the proofs found

- A sale is attributed with the wrong sign. `decimalProductMinor` takes the magnitude of the
  quantity, so a fallen quantity is a positive quantity movement and the residual that the
  report calls currency movement is minus twice it. For products of whole minor units the
  residual is zero exactly when the quantity did not fall
  (`Attribution.SaleIsCountedTwiceAsCurrency`, `Attribution.ClosingIsCountedTwice`); rounding
  moves it by at most two units (`Attribution.SaleIsCountedTwiceWithinRounding`). The sum of the
  three movements is right all the same.
- An estimated completion date can lie after the target date of a scenario that reaches its
  target, because adding months to a day past the 28th can run over. For all amounts the two
  agree exactly when the date of the last whole month has not run past the target date, or
  that month has no contribution and there is no return; past the 1200 months that are
  searched, when nothing changes after them
  (`GoalProjection.CompletionDatesAgreeExactlyWhen`). Every year has dates that run over, such as
  31 January to 1 March (`GoalProjection.HorizonDateOverflows`). The amounts range over all
  integers.
- The required pace reaches its target, for returns up to the accepted 100%, unless the balance
  is negative, there is a single month, and its return on the debt is more than half a minor
  unit (`GoalProjection.RequiredPaceReachesExactlyWhen`, with an input that misses in
  `RequiredPaceMissesWhenOverdrawn`).
- The lower-return scenario projects more on a debt: for 12000 owed at 2% after one month
  (`GoalProjection.LowerReturnProjectsMoreWhenOverdrawn`). It never does, whatever the
  contribution and the target date, exactly when the balance is not negative or there is no
  return to lower, and target dates of four-digit years are enough to show it
  (`GoalProjection.LowerReturnNeverProjectsMoreExactlyWhen`).
- The net changes of the months add up to the change of the range less 2^64 for every month
  that starts from the least int64, whose negation wraps (`FlowWindows.MonthsAddUp`).
- All months of a flow report being complete implies that the whole range is, but not the
  other way round; what is missing is exactly net worth at the month boundaries
  (`FlowWindows.CompleteMonths`).
- Two valuations of one stamp that disagree make the balance depend on the order in which the
  database returns them (`LedgerReplay.TiedValuationsDisagree`).
- Pruning shows exactly when a transaction misses a revocation: a used refresh token whose row
  has been pruned is presented again, or one whose row has been pruned is revoked, by its own
  client, while its grant is not revoked (`OAuthPruning.StepAgrees`, `PruningShowsExactlyWhen`).
  The reuse is not recognised and the revocation is answered as done, and the grant lives on
  (`OAuthPruning.PrunedReuseGoesUnnoticed`, `PrunedRevocationIsIgnored`). Until then every outcome
  and every access token's answer is that of a server that never prunes
  (`OAuthPruning.PruningIsInvisible`).
- The fixed-window limiter admits at most twice its limit less one in any interval as long as
  its window, and that bound is reached (`FixedWindow.AtMostTwiceTheLimit`, `BoundIsReached`).
- The login limiter sorts its keys, but it locks 64-bit hashes of them, and it deletes rows
  that its locks do not cover. While stored attempts are no older than one time and clocks not
  past another, its transactions cannot deadlock exactly when all keys have one lock, or keys
  that share a lock are adjacent in the key order and the period is no longer than the
  retention (`LoginLimiter.DeadlockFreeExactlyWhen`). So two keys whose hashes collide around a
  third are one way for it to (`LoginLimiter.CollisionDeadlocks`), and an expired attempt is
  another, even with a lock for each key: a success deletes it and waits for the lock of its
  second key, whose holder waits for the attempt (`LoginLimiter.ExpiryDeadlocks`).
- Over every interleaving the takes of a key that are admitted in a window are no more than its
  maximum while nothing clears the key (`LoginAnswers.AdmitsAtMostTheMaximum`), as long as no
  clock reads more than the retention past the window: a take of any other key then deletes
  attempts that still count (`LoginAnswers.ClocksApartForget`).
- A stale range that ends today includes today unless a price is dated today, and nothing in
  the range says which (`StaleRanges.EndTodayIsAmbiguous`). Reading it as including today is
  right about every day exactly unless a price dated today ends a stale period
  (`StaleRanges.PlainReadingIsRightExactlyWhen`).
- A preview announces the balance the commit stores exactly when the rows that only one way of
  stamping puts after the latest valuation make up nothing
  (`LedgerReplay.PreviewMatchesCommitExactlyWhen`).

## Model

| member | source | states |
|---|---|---|
| `Rational.RoundedRatBigInt` | internal/service/chart_analytics.go:1431-1438 | truncating, then stepping away from zero when twice the remainder reaches the denominator, gives the nearest integer, halves away from zero |
| `Rational.RoundedRatInt64` | internal/service/investment_mutations.go:1220-1240 | the other rounding routine gives the same integer and fails exactly when it is outside int64 |
| `Calendar.MonthStartClosedForm` | internal/service/chart_analytics.go:1474-1483 | counting month lengths agrees with the closed form of the Gregorian calendar, so the months of the model are the real ones |
| `Calendar.HorizonIsPast` | internal/service/chart_analytics.go:1474-1483 | the whole months between two dates are the most that fit: one more lands after the end |
| `Calendar.HorizonWithinEnd` | internal/service/chart_analytics.go:1474-1483 | and that many do not pass the end when the day of the month cannot overflow |
| `Calendar.AddMonthsKeepsTheDay` | internal/service/chart_analytics.go:1474-1483 | so many months later is the same day of the month, in a month that has it |
| `Compounding.MonotoneInPayments` | internal/service/chart_analytics.go:1415-1429 | paying no less from no less money never projects less, rounding included |
| `Compounding.MonotoneInRate` | internal/service/chart_analytics.go:1415-1429 | on non-negative money a higher return never projects less |
| `Compounding.ProjectedCovers` | internal/service/chart_analytics.go:1415-1429 | on non-negative money a projection covers the principal and every contribution |
| `Compounding.ReachedExactlyWhenCompletedInTime` | internal/service/chart_analytics.go:1415-1429 | a projection reaches the target at a horizon exactly when the first month that reaches it is within the horizon |
| `GoalProjection.ProjectGoalValue` | internal/service/chart_analytics.go:1415-1429 | the compounding loop returns the rounded projection and the contributions paid in the active months |
| `GoalProjection.RequiredMonthlyContribution` | internal/service/chart_analytics.go:1380-1398 | the binary search ends with a contribution below which none reaches the target, and which reaches it if the whole gap does |
| `GoalProjection.RequiredPaceReaches` | internal/service/chart_analytics.go:1380-1398 | from a non-negative balance the contributions that reach the target are exactly those from the result upwards, for every return |
| `GoalProjection.RequiredPaceReachesExactlyWhen` | internal/service/chart_analytics.go:1380-1398 | for returns up to 100% and any balance the result reaches the target exactly when the balance is not negative, or there are two months or more, or the month's return on the debt is at most half a unit; and then exactly the contributions from it upwards do |
| `GoalProjection.RequiredPaceMissesWhenOverdrawn` | internal/service/chart_analytics.go:1385-1397 | a balance, return and target for which the result falls short after one month |
| `GoalProjection.RequiredPaceIsLeastOverPlans` | internal/service/chart_analytics.go:1380-1398 | any plan that reaches the target, whatever its window, pays at least the required pace |
| `GoalProjection.GoalScenarioCompletion` | internal/service/chart_analytics.go:1452-1472 | the completion loop finds the first of months 0 to 1200 whose recomputed projection reaches the target, or none |
| `GoalProjection.CalculateGoalScenario` | internal/service/chart_analytics.go:1400-1413 | a scenario is the projection, contributions, growth, completion and verdict of one course |
| `GoalProjection.PlanPaysItsWindow` | internal/service/chart_analytics.go:1415-1429 | a scenario contributes once for each month of its horizon whose date is on or after the plan's first day and on or before its last |
| `GoalProjection.PlanWithoutGaps` | internal/service/chart_analytics.go:1421-1427 | a plan that has begun by the first month and has not ended by the n-th, both end days included, has paid n contributions |
| `GoalProjection.PlanThatHasEnded` | internal/service/chart_analytics.go:1421-1427 | once a plan has ended the contributions stay as they were and the balance changes by its return only |
| `GoalProjection.PlanThatHasNotBegun` | internal/service/chart_analytics.go:1421-1427 | and before it has begun nothing is paid |
| `GoalProjection.ReachesTargetExactlyWhenCompletedInTime` | internal/service/chart_analytics.go:1400-1413 | a scenario reaches its target exactly when its completion month is no later than its horizon |
| `GoalProjection.CompletionDateAgrees` | internal/service/chart_analytics.go:1400-1413 | read as dates the two agree when the horizon's date does not pass the target date, or the last month is idle: no contribution and no return |
| `GoalProjection.CompletionDateDisagrees` | internal/service/chart_analytics.go:1452-1472 | otherwise there are amounts that reach the target with a completion date after it |
| `GoalProjection.CompletionDatesAgreeExactlyWhen` | internal/service/chart_analytics.go:1400-1472 | so for every plan, return and target date they agree for all integer amounts exactly then; for horizons beyond the 1200 months that are searched, exactly when no later month has a contribution and there is no return |
| `GoalProjection.HorizonDateOverflows` | internal/service/chart_analytics.go:1474-1483 | in every year, from 31 January to 1 March is one month whose date is one or two days past 1 March |
| `GoalProjection.GrowthNeverNegative` | internal/service/chart_analytics.go:1400-1413 | projected value is principal plus contributions plus a growth that is never negative |
| `GoalProjection.LowerReturnNeverProjectsMore` | internal/service/chart_analytics.go:1350-1378 | on non-negative money the lower return never projects more or reaches what the saved plan does not |
| `GoalProjection.LowerReturnProjectsMoreWhenOverdrawn` | internal/service/chart_analytics.go:1350-1378 | over one month a debt of 12000 is projected as 12020 at 2% and as 12000 at the lower return, whichever month's first day it starts on |
| `GoalProjection.LowerReturnIsTwoPointsLess` | internal/service/chart_analytics.go:1366-1369 | seen in the projections of a debt of 120000 over one month, the lower return is two points less than any return, or none |
| `GoalProjection.LowerReturnNeverProjectsMoreExactlyWhen` | internal/service/chart_analytics.go:1366-1378 | the lower return, two points less or none, projects no more for every contribution and target date exactly when the balance is not negative or the return is zero; for starts before the year 4999 this takes no target date past the year 9999 |
| `GoalProjection.GoalScenariosWithAssumptions` | internal/service/chart_analytics.go:1350-1378 | the three scenarios, their order from a non-negative balance, exactly when the required pace reaches the target, and that it is no more than a saved plan that does |
| `GoalProjection.GoalProjectionPoint` | internal/service/chart_analytics.go:1300-1321 | a chart point is the same projection, shown as zero when it leaves int64 |
| `GoalProjection.SamplesSpanTheHorizon` | internal/service/chart_analytics.go:1273-1298 | the chart has at most 26 points, strictly increasing, from today to the horizon |
| `GoalProjection.SamplesAreStridesApart` | internal/service/chart_analytics.go:1273-1298 | neighbouring points are one stride apart, and at the horizon no more |
| `GoalProjection.GoalProjection` | internal/service/chart_analytics.go:1273-1298 | the chart is exactly those points, and empty when the target date is not in the future |
| `GoalProjection.ChartEndsAtScenario` | internal/service/chart_analytics.go:1273-1298 | its last point is the scenario's projection at the target |
| `Ledger.CheckedAdd` | internal/service/overview.go:143-148 | the overflow guard succeeds exactly when the exact sum is an int64, and then gives it |
| `Ledger.EffectsAgree` | internal/service/ledger.go:796-811 | the table and the switch, two definitions, agree: the checked effect is the exact signed magnitude of the unbounded one, and fails exactly where that does not fit or the type has none |
| `LedgerReplay.ReplayMeaning` | internal/service/ledger.go:730-794 | a successful replay is the latest valuation plus the exact effects of the transactions stamped after it |
| `LedgerReplay.ReplayIsInLessOut` | internal/service/ledger.go:27-32 | a replayed balance is the latest valuation and what came in after it less what went out: opening balances, deposits, interest, dividends, gains, purchases and increases of a debt come in, withdrawals, losses, fees, sales and payments of a debt go out |
| `LedgerReplay.ValuationReplacesWhatCameBefore` | internal/service/ledger.go:730-794 | a valuation replaces a transaction exactly when it is not stamped before it, by date and then by creation, in whichever order the two rows are read |
| `LedgerReplay.ReplaysAgree` | internal/service/account_conversion.go:515-552 | every order of tied rows gives the same balance when valuations tied for the latest stamp agree |
| `LedgerReplay.TiedValuationsDisagree` | internal/service/account_conversion.go:515-552 | and only then: otherwise two tied rows can be swapped so that the balance changes |
| `LedgerReplay.BoundedLedgerSucceeds` | internal/service/account_history_import.go:389-404 | no replay fails while all types are supported and the turnover fits int64 |
| `LedgerReplay.ChartAccountValue` | internal/service/chart_analytics.go:549-592 | the chart's collect, sort and fold is the replay of the account's events up to the day |
| `LedgerReplay.AccountEventsHold` | internal/service/chart_analytics.go:558-568 | the events collected for a day are the rows of the account dated on or before it, each as often as it is stored |
| `LedgerReplay.ReplayRows` | internal/service/account_conversion.go:515-552 | the loop over query rows is the replay of those rows |
| `LedgerReplay.ReplaysOfOneLedgerAgree` | internal/service/chart_analytics.go:549-592 | the chart and any two query results over the same rows and day give the same balance |
| `LedgerReplay.ProjectAccountHistory` | internal/service/account_history_import.go:351-406 | the projection is the replay of the stored rows with the ready rows appended, stamped a nanosecond apart |
| `LedgerReplay.PreviewMatchesCommit` | internal/service/account_history_import.go:351-406 | the balance a preview announces is the one the commit stores, although the rows are stamped differently, when both stamp them after the stored valuations of their dates |
| `LedgerReplay.PreviewMatchesCommitExactlyWhen` | internal/service/account_history_import.go:351-406 | for any stamps the two balances differ by the effects of the rows that only one of them puts after the latest valuation, and are the same exactly when these make up nothing |
| `FlowWindows.PointCache.At` | internal/service/insights_reads.go:454-475 | a hit and a miss answer as direct recomputation does, and failures are not remembered |
| `FlowWindows.InsightsFlowRecords` | internal/service/insights_reads.go:748-818 | the records are, in row order, one per classified flow of the window with its account, class, date, amount and conversion; it fails exactly when a flow in the window does, and is complete exactly when all convert |
| `FlowWindows.FlowsFollowTheirEffects` | internal/service/insights_reads.go:711-732 | a flow goes the way of its ledger effect: contributions and income raise what the owner is worth by their amount, withdrawals and fees lower it, on assets and on debts |
| `FlowWindows.FlowsAreExactly` | internal/service/insights_reads.go:711-732 | which types are flows, and which of them are income and fees |
| `FlowWindows.RecordsHaveSources` | internal/service/insights_reads.go:748-818 | every record is dated in the window and is the magnitude of a stored transaction of its class or of the fee of a position event |
| `FlowWindows.TransactionsAreRecorded` | internal/service/insights_reads.go:776-798 | and every classified transaction of an account in net worth, dated in the window, has its record |
| `FlowWindows.FeesAreRecorded` | internal/service/insights_reads.go:799-816 | so has the fee of every position event of an asset account |
| `FlowWindows.FailsExactlyWhen` | internal/service/insights_reads.go:776-816 | the flows of a window can be read exactly when every one, and every fee, has a magnitude and a conversion that does not fail |
| `FlowWindows.IsCompleteExactlyWhen` | internal/service/insights_reads.go:763-816 | and are complete exactly when all of them find a rate |
| `FlowWindows.ComputeFlowWindow` | internal/service/insights_reads.go:829-871 | a window is reported exactly when its valuations and sums exist; in its fields, start + contributions + income + growth - withdrawals - fees == end |
| `FlowWindows.ClassesShareTheRecords` | internal/service/insights_reads.go:841-862 | each converted amount is in the total of exactly one class, its own |
| `FlowWindows.TilesCover` | internal/service/insights_reads.go:873-899 | the month windows tile the range from its first day to its last without gap or overlap |
| `FlowWindows.TilesAreMonths` | internal/service/insights_reads.go:873-899 | each is one calendar month cut to the range |
| `FlowWindows.FlowMonths` | internal/service/insights_reads.go:873-899 | the loop reports exactly those windows, off one cache, and succeeds exactly when each can be reported; the same law holds of the fields of every month |
| `FlowWindows.PointsBridge` | internal/service/insights_reads.go:826-871 | what the months report meets that law, month by month |
| `FlowWindows.MonthsAddUp` | internal/service/insights_reads.go:873-899 | every column of the months adds up to the same part of the whole range; growth telescopes, and net changes do, short of 2^64 for every month that starts from the least int64 |
| `FlowWindows.NetChangesAddUpExactlyWhen` | internal/service/insights_reads.go:873-899 | the net changes of the months are the change of the range exactly when no month starts from the least int64 |
| `FlowWindows.CompleteMonths` | internal/service/insights_reads.go:873-899 | all months are complete exactly when the range is and so is net worth at every boundary inside it |
| `FlowWindows.BuildFlowsReport` | internal/service/insights_reads.go:901-922 | the law of a window holds of the report and of every month of it; every column, net changes included, adds up to its window, which is complete when all months are; it is built exactly when the range and every month can be reported |
| `StaleRanges.UniqueChartDates` | internal/service/chart_analytics.go:1236-1249 | sorts and removes duplicates: ascending, and the same dates |
| `StaleRanges.PriceStaleRanges` | internal/service/insights_reads.go:571-593 | for a non-negative threshold the ranges are in order and apart, and a day with a price on or before it lies in one exactly when the latest such price is stale; without prices there are none |
| `StaleRanges.RangesAreTheStaleDays` | internal/service/insights_reads.go:565-593 | from the first price to today a day lies in a range exactly when its latest price is stale by the one-day rule |
| `StaleRanges.RangesDisjoint` | internal/service/insights_reads.go:571-593 | the ranges are in order and do not touch |
| `StaleRanges.EndTodayIsAmbiguous` | internal/service/insights_reads.go:571-593 | for every threshold, a history with a price dated today and one without it give the same range, and today is stale only in the second |
| `StaleRanges.PlainReadingIsRightExactlyWhen` | internal/service/insights_reads.go:571-593 | reading a range that ends today as including today is right about every day from the first price exactly unless a price dated today ends a stale period |
| `PositionSnapshot.BuildChartPositionSnapshot` | internal/service/chart_analytics.go:602-665 | a snapshot holds exactly the non-zero quantities of the events up to its day, each valued once, and its total is cash plus their worth; it is taken whenever all quantities can be valued and the money that moves fits int64 |
| `PositionSnapshot.EffectsTelescope` | internal/service/chart_analytics.go:604-616 | the cash effects up to two days differ by those between them |
| `PositionSnapshot.EventsUpToHold` | internal/service/chart_analytics.go:617-627 | the events that quantities are replayed from are those of the account dated on or before the day, in table order and each as often as it is stored |
| `PositionSnapshot.HoldingsArePaidFor` | internal/service/chart_analytics.go:617-627 | the cash of a snapshot is the cash effects of those very events |
| `PositionSnapshot.SnapshotIsCompleteExactlyWhen` | internal/service/chart_analytics.go:632-664 | a snapshot is complete exactly when everything held has a price, and a rate on the day; what has none counts for nothing |
| `PositionSnapshot.OneMoreEvent` | internal/service/chart_analytics.go:602-665 | an event after the day, or of another account, changes no snapshot; one on or before the day reaches both cash and quantities |
| `PositionSnapshot.OneMoreTransaction` | internal/service/chart_analytics.go:604-616 | a transaction changes the cash by its effect from its own day on, and nothing else |
| `PositionSnapshot.SharesAtAPrice` | internal/service/investment_mutations.go:1196-1202 | shares at a price in minor units count as their product, whether held or owed |
| `PositionSnapshot.HoldingIsWorth` | internal/service/chart_analytics.go:636-663 | a holding is worth its shares at the price, converted at the rate of the snapshot's day |
| `Attribution.ClassifyCash` | internal/service/chart_analytics.go:1084-1107 | each cash bucket is the wrapped sum of the ledger effects of its types in the window |
| `Attribution.BucketsCoverTheEffects` | internal/service/chart_analytics.go:1084-1107 | the buckets and what is unclassified make up all effects |
| `Attribution.BucketsAgreeWithFlows` | internal/service/chart_analytics.go:1093-1106 | a position account's bridge sorts transactions as the flow report does those of an asset, with transfers as external cash and adjustments apart |
| `Attribution.SumMovements` | internal/service/chart_analytics.go:1113-1177 | the three movements are the wrapped sums of the parts of every instrument, complete exactly when none is incomplete |
| `Attribution.ChartMovementAttribution` | internal/service/chart_analytics.go:1075-1190 | a complete report's movements sum to the end values less the start values, and its unattributed rest is the sum of the unclassified effects, up to int64 wrapping; it is given whenever both snapshots can be taken and every movement converted |
| `Attribution.NothingUnclassified` | internal/service/chart_analytics.go:1093-1106 | which is nothing when every type in the window is classified |
| `Attribution.OpeningIsAllQuantity` | internal/service/chart_analytics.go:1132-1176 | a position opened in the window is quantity movement only |
| `Attribution.HoldingIsAllCurrency` | internal/service/chart_analytics.go:1132-1176 | a position held at an unchanged price only moves with the exchange rate |
| `Attribution.CurrencyIsTheRateChange` | internal/service/chart_analytics.go:1132-1176 | through exchange rates, quantity is valued at the opening price and rate, price on the closing quantity at the opening rate, and currency is the change of the rate on the closing value, and minus twice a fall in quantity |
| `Attribution.ClosingIsCountedTwice` | internal/service/chart_analytics.go:1132-1176 | a position closed in the window is a positive quantity movement and minus twice that as currency |
| `Attribution.OpenedOrClosedBetween` | internal/service/chart_analytics.go:1113-1129 | so it is in a report for an instrument that only one of its snapshots holds |
| `Attribution.MovesOnlyWhatIsPriced` | internal/service/chart_analytics.go:1129-1172 | a movement is given only where everything held on either side has its price, and is missing only for want of a price or a rate |
| `Attribution.SaleIsCountedTwiceAsCurrency` | internal/service/investment_mutations.go:1196-1202 | in one currency, for whole products, the residual is zero exactly when the quantity did not fall, and otherwise twice the fall |
| `Attribution.SaleIsCountedTwiceWithinRounding` | internal/service/investment_mutations.go:1196-1240 | for any products the residual is within two minor units of that |
| `OAuthTables.NormalizeScope` | internal/oauth/service.go:302-317 | read is always kept, write only when asked for, and an unknown scope refuses the request |
| `OAuthOwnership.ScopesAreNormalized` | internal/oauth/service.go:302-317 | a scope is refused exactly when it holds a word that is not offered, always reads, and writes exactly when it asks to |
| `OAuthService.Service.StartAuthorization` | internal/oauth/service.go:252-297 | prunes expired requests and stores the new one with its normalised scope |
| `OAuthOwnership.StartsExactlyWhen` | internal/oauth/service.go:252-297 | a request is stored, as it was made, exactly when it passes the checks and asks for scopes that are offered |
| `OAuthService.Service.TakeRequest` | internal/oauth/service.go:368-381 | removes and returns a request that has not expired |
| `OAuthService.Service.Approve` | internal/oauth/service.go:387-425 | takes the request, replaces the earlier grant, and stores grant and code; a refused choice changes nothing |
| `OAuthOwnership.ApprovesExactlyWhen` | internal/oauth/service.go:320-328 | a pending request can be approved at either level of data, with changes only at the detailed level and where they were asked for |
| `OAuthService.Service.Deny` | internal/oauth/service.go:428-442 | takes the request and stores nothing |
| `OAuthService.Service.ExchangeCode` | internal/oauth/service.go:520-580 | in the source's order of checks: refuses, revokes on replay, or marks the code and issues tokens |
| `OAuthOwnership.ExchangesExactlyWhen` | internal/oauth/service.go:520-580 | in every state a code is exchanged exactly by the client it was issued to, with no redirect address or the stored one, with its verifier, once, in time, for an active user whose grant is not revoked |
| `OAuthOwnership.CodesOfOthersAreRefused` | internal/oauth/service.go:547-549 | to another client a code, used or not, is answered as an invalid grant, and trying changes nothing |
| `OAuthOwnership.WrongExchangesAreRefused` | internal/oauth/service.go:560-571 | nor does its own client spend an unused code by getting the redirect address or the verifier wrong |
| `OAuthOwnership.ExchangedByTheAsker` | internal/oauth/service.go:252-580 | in every run whoever exchanges a code started the request that was approved for it: the same client, with the challenge its verifier meets and the redirect address it names, if any |
| `OAuthService.Service.RefreshTokens` | internal/oauth/service.go:582-648 | in the source's order of checks: refuses, revokes on reuse, or rotates |
| `OAuthOwnership.RotatesExactlyWhen` | internal/oauth/service.go:582-648 | in every state a refresh token is rotated exactly by its own client, once, in time, and for no scope beyond its grant's |
| `OAuthOwnership.RefreshTokensOfOthersAreRefused` | internal/oauth/service.go:611-615 | to another client a refresh token, used or not, is worth nothing, and trying changes nothing |
| `OAuthOwnership.WiderScopesAreRefused` | internal/oauth/service.go:632-638 | asking for more than was granted is refused and spends nothing |
| `OAuthService.Service.IssueTokens` | internal/oauth/service.go:650-661 | prunes the grant's long expired tokens and inserts the new pair |
| `OAuthService.Service.RevokeGrant` | internal/oauth/service.go:663-671 | revokes a grant and its tokens, keeping earlier revocation times |
| `OAuthService.Service.Revoke` | internal/oauth/service.go:675-707 | section 2.1 of RFC 7009: a refresh token ends the grant, an access token only itself, others are ignored |
| `OAuthService.Service.RevokeConnectedApp` | internal/oauth/service.go:836-854 | revokes an unrevoked grant of the user, or answers that there is none |
| `OAuthOwnership.VerifiedAsAskedFor` | internal/oauth/service.go:722-754 | in every run an access token verifies only for the resource that was asked for by the client whose request was approved, and for the user who approved it |
| `OAuthOwnership.TokensEndWithTheirGrant` | internal/oauth/service.go:663-707 | a transaction that replays a secret of a grant or withdraws it, other than by approving another, revokes all its tokens at that time, and no other token but one its client names |
| `OAuthOwnership.TokensAreSpentAndPruned` | internal/oauth/service.go:637-661 | only its rotation marks a token as used, and only tokens issued for its grant make it go, a day after it has expired |
| `OAuthOwnership.ActiveUntilDisabled` | internal/oauth/service.go:535-562 | the users that count as active are those activated and not disabled since |
| `OAuthOwnership.OthersRevokeNothing` | internal/oauth/service.go:675-707 | only its own client revokes a token, and only its own user a connected application, once |
| `OAuthOwnership.RefusalsChangeNothing` | internal/oauth/service.go:387-648 | a refused transaction leaves all tables as they were, unless it replays a secret or draws an identifier twice |
| `OAuthService.Service.VerifyAccessToken` | internal/oauth/service.go:722-754 | verifies exactly the stored, live access tokens of unrevoked grants of active users for the resource |
| `OAuthSafety.StepConsistent` | internal/oauth/service.go:387-671 | every transaction keeps: one code per grant, no tokens before it is used, at most one unused refresh token, one unrevoked grant per user and client |
| `OAuthRuns.ReachableConsistent` | internal/oauth/service.go:387-671 | so they hold in every reachable state |
| `OAuthRuns.ReplayEndsTheGrant` | internal/oauth/service.go:550-559 | a replayed code or refresh token revokes the grant, and in every later state no access token of it verifies and nothing is issued for it (sections 4.1.2 of RFC 6749 and 4.14.2 of RFC 9700) |
| `OAuthRuns.RevokedExactlyWhen` | internal/oauth/service.go:616-629 | a transaction revokes a grant exactly when it replays one of its secrets or withdraws it |
| `OAuthRuns.WriteAccessIsTraced` | internal/oauth/service.go:320-328 | every write scope in a token response or a verified access traces back to a request that asked for it and a later approval of it that allowed changes at detailed level |
| `OAuthRuns.IssuedWithTheGrantsScope` | internal/oauth/service.go:632-648 | what is issued is the scope that was approved, so no refresh widens a grant |
| `OAuthRuns.RunKeepsGrant` | internal/oauth/service.go:387-671 | no run changes a grant's parties, scope or level, or undoes its revocation or moves its time |
| `OAuthRuns.ApprovedOnce` | internal/oauth/service.go:387-425 | a grant is approved once |
| `OAuthRuns.DecidedOnce` | internal/oauth/service.go:367-381 | a request is approved or denied at most once in any run |
| `OAuthLifetimes.StartedRequestCanBeDecided` | internal/oauth/service.go:289-294 | after any run a request can be decided exactly for ten minutes and while it has been neither decided nor removed with its client |
| `OAuthLifetimes.ApprovedCodeCanBeExchanged` | internal/oauth/service.go:412-418 | after any run a code is worth the approved scope, to its client and with its verifier, exactly for five minutes, while neither it is exchanged nor its grant ended, and to an active user |
| `OAuthLifetimes.IssuedAccessVerifies` | internal/oauth/service.go:654-660 | after any run an access token verifies with its grant's user, scope and level exactly for an hour, while neither it is revoked nor its grant ended, and for an active user |
| `OAuthLifetimes.IssuedRefreshRotates` | internal/oauth/service.go:654-660 | after any run a refresh token can be rotated exactly for thirty days, while neither it is rotated nor its grant ended, and for an active user |
| `OAuthPruning.PruningNeverShows` | internal/oauth/service.go:650-653 | deleting a grant's long expired tokens changes no answer about an access token, at the time or at any later one |
| `OAuthPruning.StepAgrees` | internal/oauth/service.go:650-707 | beside a server that never prunes, a transaction has the same outcome, and leaves the same grants exactly when it misses no revocation |
| `OAuthPruning.PruningShowsExactlyWhen` | internal/oauth/service.go:650-707 | over every run the two hold the same grants throughout exactly when no transaction presents a deleted, used refresh token again or revokes with a deleted one, by its own client and for an unrevoked grant |
| `OAuthPruning.PruningIsInvisible` | internal/oauth/service.go:650-661 | until a transaction does, every outcome and every access token's answer is that of a server that never prunes |
| `OAuthPruning.PrunedReuseGoesUnnoticed` | internal/oauth/service.go:616-629 | once pruned, a reused refresh token changes nothing and its grant's access token still verifies, where the kept row would have ended the grant |
| `OAuthPruning.PrunedRevocationIsIgnored` | internal/oauth/service.go:675-707 | once pruned, revoking with a refresh token is answered as done and ends nothing, where the kept row would have ended the grant |
| `FixedWindow.Window.Allow` | internal/ratelimit/ratelimit.go:34-55 | the answer and the new buckets of one call |
| `FixedWindow.PruningIsInvisible` | internal/ratelimit/ratelimit.go:38-44 | over every trace with a clock that does not go back, pruning changes no answer or wait, whatever the threshold |
| `FixedWindow.PruningTakesWhatHasPassed` | internal/ratelimit/ratelimit.go:38-44 | pruning takes exactly the buckets that no later call counts in, and only above the threshold |
| `FixedWindow.OtherKeysDoNotMatter` | internal/ratelimit/ratelimit.go:34-55 | over every trace the answers to the calls of a key are those there would be if no other key had been used |
| `FixedWindow.EachWindowAdmitsTheLimit` | internal/ratelimit/ratelimit.go:46-54 | of the calls of a window the first ones up to the limit are admitted, without a wait, and all others denied, with the rest of the window to wait |
| `FixedWindow.FirstWindowAdmitsTheLimit` | internal/ratelimit/ratelimit.go:45-54 | so it is within a window of the zero time, which is where an absent bucket starts |
| `FixedWindow.AtMostTwiceTheLimit` | internal/ratelimit/ratelimit.go:34-55 | at most twice the limit of calls per key are admitted in any half-open interval as long as the window, and one fewer away from the zero time |
| `FixedWindow.BoundIsReached` | internal/ratelimit/ratelimit.go:34-55 | a trace that is admitted that many, for every positive limit and every window longer than one tick |
| `FixedWindow.DenialLastsExactlyTheWait` | internal/ratelimit/ratelimit.go:46-51 | after a denial every call before the wait is over is denied and the first one after it is allowed |
| `LoginLimiter.LoginRateLimiter.TakeAlone` | internal/auth/rate_limit.go:77-146 | admits exactly when the counted attempts of every key are below the maximum; of rows that are left, the counts of its keys are one more after an admitted take and the same after a refused one |
| `LoginLimiter.TakeIsRecorded` | internal/auth/rate_limit.go:126-139 | an admitted take adds one to the count of each of its keys, and a refused one, or another key's, nothing |
| `LoginLimiter.CountsAreOfTheKey` | internal/auth/rate_limit.go:107-125 | a count is of the attempts of the key in the window, failed ones only unless all are counted |
| `LoginLimiter.LoginRateLimiter.RecordSuccessAlone` | internal/auth/rate_limit.go:148-170 | deletes the attempts of its keys and no others, each as often as it is stored |
| `LoginLimiter.StepValid` | internal/auth/rate_limit.go:77-170 | every step of every interleaved transaction keeps the locks exclusive, the deleted rows with a holder of locks, and the counts that others rely on |
| `LoginLimiter.TransactionAlone` | internal/auth/rate_limit.go:77-170 | a transaction that nobody interleaves with runs to its end and leaves what its method leaves |
| `LoginLimiter.LimitsHoldInEveryRun` | internal/auth/rate_limit.go:77-170 | no interleaving records more than the maximum of uncleared attempts of a key in any window, whatever the clocks show |
| `LoginAnswers.StepCounts` | internal/auth/rate_limit.go:77-170 | over any interleaving an attempt of a key appears exactly when a take of it is admitted, while nothing clears it or lets it expire |
| `LoginAnswers.AdmitsAtMostTheMaximum` | internal/auth/rate_limit.go:77-146 | so after any run, in any further one that does not clear a key and whose clocks do not expire the window, the takes admitted with a clock in a window are with the attempts stored before no more than the maximum |
| `LoginAnswers.FullKeysAreRefused` | internal/auth/rate_limit.go:107-125 | a take that counts a key with its maximum in the window is refused, however it is interleaved |
| `LoginAnswers.ClocksApartForget` | internal/auth/rate_limit.go:103-105 | with clocks more than the retention apart, a key that is refused is admitted after a take of another key |
| `LoginLimiter.NeverStuck` | internal/auth/rate_limit.go:84-164 | in a safe period, whatever the transactions wait for, some unfinished one can always step |
| `LoginLimiter.DeadlockFreeExactlyWhen` | internal/auth/rate_limit.go:95-164 | waiting for locks and for deleted rows, the transactions cannot deadlock over a period exactly when all keys have one lock, or keys that share a lock are adjacent in the key order and the period is no longer than the retention; for positive maxima |
| `LoginLimiter.SortedKeysIncrease` | internal/auth/rate_limit.go:84-88 | different keys, sorted, are the same keys in increasing order |
| `LoginLimiter.UnsortedDeadlocks` | internal/auth/rate_limit.go:88 | without the sorting two transactions over the same two keys can deadlock |
| `LoginLimiter.CollisionDeadlocks` | db/postgres/queries/login_attempts.sql:1-2 | two transactions that deadlock when lock identifiers collide around a third key |
| `LoginLimiter.ExpiryDeadlocks` | internal/auth/rate_limit.go:103-164 | with different locks for two keys and an expired attempt of the first, a success over both and a login over the second deadlock on the lock and the attempt |
| `LoginLimiter.EveryoneCanFinish` | internal/auth/rate_limit.go:77-170 | in a safe period there is, from every valid state, a schedule that finishes every transaction |
| `Money.ParseUndoesFormat` | internal/domain/money.go:32-70 | parsing a formatted amount gives the amount, for every int64 and number of decimal places |
| `Money.FormatInjective` | internal/domain/money.go:32-50 | different amounts are written differently |
| `Money.ReadingsAgree` | internal/domain/money.go:55-70 | concatenating digits, scaling and adding, and setting the sign aside all read the worth of the text |
| `Money.ParsersAgree` | internal/service/goal_mutations.go:543-577 | without commas the goal parser is the exact parser cut to the goal range, errors included, and the investment parser is the exact parser |
| `Money.CommasDivide` | internal/service/investment_mutations.go:1169-1194 | with commas the exact parser refuses and the others read the text without them |
| `DerivedIds.DerivedExternalIds.Next` | internal/service/derived_external_id.go:23-30 | counts an identity and numbers its occurrence |
| `DerivedIds.IdentitiesAreDistinct` | internal/service/derived_external_id.go:10-30 | identities are the same only when date, type, amount and occurrence are |
| `HistoryImport.ClassifyAccountHistory` | internal/service/account_history_import.go:230-299 | the three loops classify each row by validity, repetition in the file and what is stored |
| `ImportValidation.ReadyExactlyWhenFaultless` | internal/service/account_history_import.go:301-340 | a row is ready exactly when it has none of six faults, and otherwise the first of them is reported |
| `ImportValidation.ReadyRowsSayTheSame` | internal/service/account_history_import.go:333-339 | a ready row is imported as it was written, with its parsed amount, and empty texts left out |
| `ImportValidation.ValidDateExactlyWhen` | internal/service/account_history_import.go:320-324 | a text is a date exactly when it is how a day of the calendar, with a year of four digits, is written |
| `ImportValidation.DatesCompareAsDays` | internal/service/account_history_import.go:325-328 | comparing two dates as texts compares their days, and a day has one date |
| `ImportValidation.ExistingIsWhatWouldBeStored` | internal/service/account_history_import.go:291-295 | a ready row is already imported exactly when importing it would store what is stored, currency, date and texts included |
| `ImportValidation.ImportedTypesHaveEffects` | internal/service/account_history_import.go:16-21 | the types that can be imported are those with an effect on a balance, but opening balances and transfers |
| `HistoryImport.ClassifiedAreInsertable` | internal/service/account_history_import.go:252-258 | ready rows have identifiers that are neither stored nor repeated, so no insertion is refused |
| `HistoryImport.Transactions.Commit` | internal/service/account_history_import.go:136-199 | all ready rows or none: a conflict or an unreplayable balance changes nothing |
| `HistoryImport.ImportedIsTheGrowth` | internal/service/account_history_import.go:166-196 | the number of rows announced as imported is the number by which the table grows |
| `HistoryImport.StoresOnlyWhatReplays` | internal/service/account_history_import.go:160-194 | what is stored has a balance that can be replayed, and a file is refused only for a conflict or because it could not be |
| `HistoryImport.SecondCommitImportsNothing` | internal/service/account_history_import.go:136-199 | committing a file a second time succeeds, imports nothing and leaves the table as it was |
| `ImportMerging.CommitMergesOccurrences` | internal/service/account_history_import.go:230-299 | a committed file merges the n-th row of an identity with the n-th stored one: it is held when it was or the file has it, a held one stays as it was and a new one is stored as the file has it, whatever description and notes the others have |
| `ImportMerging.ConflictsExactlyWhen` | internal/service/account_history_import.go:230-299 | the n-th row of an identity is a conflict exactly when the n-th stored one is a different transaction |
| `ImportMerging.CommitMergesCopies` | internal/service/account_history_import.go:230-299 | a file with n valid rows of an identity leaves as many as before or n, whichever is more, a row stored under its former identifier counting as the first |
| `ImportMerging.OverlappingImportsMerge` | internal/service/derived_external_id.go:10-14 | files with k and then m of them leave exactly max(k, m) or as many as before, whichever is more, whatever else they hold and whichever identifier the first is stored under |
| `ImportMerging.IdenticalRowsMerge` | internal/service/derived_external_id.go:10-14 | from an empty table, files of k and then m identical valid rows are both accepted and leave exactly max(k, m) stored |
| `ImportMerging.FormerNameIsFirstOrNone` | internal/service/derived_external_id.go:16-21 | a former identifier is the first derived one where amounts have no decimals, and never a derived one elsewhere |
| `ImportMerging.CorrectionsDoNotRenumber` | internal/service/account_history_import.go:239-251 | correcting a row without touching its date, type and amount renumbers no other row |
| `GoalLinks.Store.Create` | internal/service/goal_mutations.go:253-306 | creates a goal, links its account and completes its key, or changes nothing |
| `GoalLinks.Store.Update` | internal/service/goal_mutations.go:308-346 | relinks a goal, unlinking its previous account, or changes nothing |
| `GoalLinks.Store.Delete` | internal/service/goal_mutations.go:353-372 | unlinks the goal's account and removes the goal |
| `GoalLinks.Store.ValidateLinkedAccount` | internal/service/goal_mutations.go:433-462 | which accounts a goal may be linked to |
| `GoalLinks.AcceptedExactlyWhen` | internal/service/goal_mutations.go:433-462 | while the pointers are inverse, a goal may be linked exactly to an active asset account of the user that serves no other goal |
| `GoalLinks.GoesThroughExactlyWhen` | internal/service/goal_mutations.go:253-372 | which transactions go through; the others change nothing |
| `GoalLinks.LinksMoveAsAsked` | internal/service/goal_mutations.go:281-372 | a transaction moves the links it is asked to move and no other, on the side of the goal and on that of the account |
| `GoalLinks.GoalsAreKept` | internal/service/goal_mutations.go:253-372 | goals appear and go with their creation and deletion alone, and keep their owner |
| `GoalLinks.AccountsAreKept` | internal/service/account_conversion.go:173-241 | accounts keep all but their goal, and are archived by a conversion of them or on request |
| `GoalLinks.ConversionsAreRecorded` | internal/service/account_conversion.go:200-241 | a replacement keeps owner, category and goal and holds positions; which account replaced which, and which key created which goal, is recorded |
| `GoalLinks.Store.Convert` | internal/service/account_conversion.go:173-241 | inserts the replacement, archives the source and relinks the goal |
| `GoalLinks.RunsKeepLinksInverse` | internal/service/goal_mutations.go:253-372 | every run of goal, conversion and account transactions keeps the two pointers inverse |
| `GoalLinks.LinksAreOneToOne` | internal/service/goal_mutations.go:433-462 | so no account serves two goals and no goal is linked to two accounts |
| `GoalLinks.AcceptedAccountIsFree` | internal/service/goal_mutations.go:452-460 | the check of one pointer settles the other |
| `GoalLinks.ConversionMovesTheLink` | internal/service/account_conversion.go:221-229 | a conversion hands the source's goal, and no other, to the replacement |
| `GoalLinks.UpdatingBackRestores` | internal/service/goal_mutations.go:323-341 | updating a goal back to its account restores every link |
| `GoalLinks.KeyCreatesOnce` | internal/service/goal_mutations.go:259-276 | repeating a creation with its key, whatever happened in between, creates nothing and answers with the first goal |

## Left out

- PositionSnapshot.BuildChartPositionSnapshot: when more money moves than fits int64 it may or may not fail, because the order of the checked additions is that of an iteration over a map; the contract leaves that open.
- Attribution.ChartMovementAttribution: leaves the same open, through its snapshots.
- Quantities, prices and conversions are parameters of the snapshot (`Market`): the replay of position events, the choice of the latest usable price and the choice of the rate are not modelled, nor is the 100-digit text of a quantity.
- OAuthPruning.PruningNeverShows: one deletion and a later question with no transaction in between; what happens in between is OAuthPruning.PruningIsInvisible.
- Attribution.SaleIsCountedTwiceAsCurrency: products of whole minor units only; Attribution.SaleIsCountedTwiceWithinRounding bounds the rest.
- GoalProjection.RequiredPaceReachesExactlyWhen: returns above 100%, which the validation of a goal refuses.
- FlowWindows.InsightsFlowRecords: the type and instrument of a record are not modelled; conversion to the base currency and the fee of a position event are parameters; per-account aggregation of a net worth point is the parameter of the cache.
- LedgerReplay.ProjectAccountHistory: the stored rows are given; the query that loads them is not modelled.
- OAuthTables.NormalizeScope: works on the fields of the parameter; splitting at white space is not modelled.
- OAuthService.Service.StartAuthorization: the checks of client, redirect address, state length, response type, challenge and resource are one parameter.
- Client authentication and the dispatch of the token endpoint, PKCE hashing (a parameter), token prefixes, the time of last use, tool-call logs and the list of connected apps.
- Client registration, except that its pruning of unused clients removes their pending requests.
- PostgreSQL snapshots, isolation anomalies and serialization failures: a transaction is atomic, and in the login limiter a statement sees what is committed when it runs.
- LoginLimiter.DeadlockFreeExactlyWhen: a deletion takes all its rows in one step, and one that has waited for a row goes on where a serialization failure would end its transaction; aborted transactions are not modelled.
- LoginLimiter.LimitsHoldInEveryRun: a key is always used with one maximum, as its prefix fixes it, and a transaction's keys are distinct.
- Saturation of a Go duration past 292 years in the fixed-window limiter, and its mutex.
- HistoryImport.Transactions.Commit: replaying the balance is a parameter that accepts or refuses a table; parsing of CSV and JSON, trimming of identifiers and byte lengths of texts are not modelled.
- Money.ParseUndoesFormat: the text of a whole number that the formatter is given, and trimming and case of a currency, are not modelled.
- ImportMerging.CommitMergesOccurrences: files in which a row claims a derived identifier as its own are outside the statement.
- The investment-history import, which numbers its rows with the same counter.
- GoalLinks.Store.Create: contribution plans, goal details and the currency check (a parameter) are not modelled.
- GoalLinks.KeyCreatesOnce: replacing a user's data, which deletes goals, accounts and keys, is not among the transactions in between.
- GoalProjection.CompletionDatesAgreeExactlyWhen: amounts are all integers; over long horizons and high returns those it finds to disagree can be beyond the 9007199254740991 that is accepted.
- GoalLinks.Store.Update: every goal has the contribution plan it was created with; updating that row, and the failure when it is missing, are not modelled.
- GoalLinks.Store.Convert: the checks of date, name, cash, holdings and difference are a parameter; the replay of a conversion by its key, its events, prices and estate directives are not modelled.
- Monthly equivalents of a plan's frequency, and progress percentages.
- Income reports, net worth statistics, account comparison, attention items, allocations and dashboard history.
- HTTP handlers, the MCP tools, configuration, sessions, password and OIDC sign-in.
