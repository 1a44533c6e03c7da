# Betting analytics of the corner-betting tracker, in Dafny

This project models the analytics engine of a small Streamlit page, `app.py`.
The page records wagers on corner markets at the 60th minute and judges from
their history whether the betting method is profitable. The model lifts the
page's analytics out of the UI code into standalone functions and methods over
a sequence of wager records:

- **Profit model** (`Wagers.Profit`). A "Win" earns `(odd - 1) * stake` and a
  "Loss" costs the stake. Every other outcome string is worth 0: "Void" and
  anything unrecognised alike.
- **Aggregate metrics** (`Metrics`): total profit, total stake, guarded ROI,
  win rate, expected value (mean profit), mean odds and the break-even rate.
  The win rate is the mean of the `resultado == "Win"` column, so its
  denominator counts Void entries.
- **Drawdown** (`DrawdownTracker`). The bankroll is the running sum of profits
  (`cumsum`). The peak is its running maximum (`cummax`), which starts at the
  first bankroll value and not at 0. The drawdown is the least value of
  bankroll minus peak. The spec functions `Peak` and `Drawdown` follow that
  definition. The method `MaxDrawdown` is the single forward pass with
  bankroll, peak and worst-so-far scalars, and it is proved equal to `Drawdown`.
- **Segmented analysis** (`Segmentation`), i.e. `analise_segmentada`. The
  wagers are grouped by the distinct values of one column (`unique()`, in
  order of first appearance). Groups with fewer than 20 entries are skipped.
  Each remaining group gives a row `[value, n, roi, winrate]`.
  `SegmentedAnalysis` is the imperative loop that appends the rows, and it is
  proved equal to the recursive `Segments`.
- **Significance and verdict** (`Significance`): the z-score, which is guarded
  when the standard error is 0, and the three-way verdict from the p-value and
  the EV.
- **The two tabs** (`Analysis`). The overview appears once there is a record.
  The deep analysis runs only when there are at least `MIN_AMOSTRA = 100`
  records. It returns the statistics, the drawdown and the four segment tables
  the page shows (by bet type, line, game context and confidence).

All quantities are exact `real`s. Float rounding plays no part in what is stated.

The model makes these choices about cases the page leaves open:

- An unrecognised outcome string is not rejected. It simply earns 0.
- Win rate, EV and mean odds are never computed on an empty set: the page
  guards them with `df.empty` and the sample gate. They therefore carry a
  non-empty precondition instead of degrading to 0.
- The thresholds (20 per segment, 100 for the deep analysis, 0.05 for the
  p-value) are constants in the code and constants here.

## Model

| member | source | states |
|---|---|---|
| Wagers.Profit | app.py:37-42 | a non-"Win"/"Loss" outcome earns 0. On non-negative stake and odds the loss is never more than the stake. With positive stake and odds the profit is exactly -stake iff the outcome is "Loss". With odds above 1 it is positive iff the outcome is "Win" |
| Wagers.ProfitIsPayoutMinusStake | app.py:37-42 | profit equals the bookmaker's payout (odds x stake on a win, 0 on a loss, a refund otherwise) minus the stake |
| Wagers.Hit | app.py:142 | the win indicator is 0 or 1, and 1 exactly for "Win" |
| Metrics.TotalProfit | app.py:137-139 | total profit is the total the bookmaker paid back minus the total staked |
| Metrics.ProfitsArePayoutsMinusStakes | app.py:137-139 | summed over any records, the per-wager profits add up to total payout minus total stake |
| Metrics.TotalStake | app.py:140 | when every stake is positive, total stake is positive exactly when there is a record |
| Metrics.Roi | app.py:139-141 | with positive total stake ROI times total stake is total profit; otherwise ROI is 0 |
| Metrics.WinRate | app.py:142 | on a non-empty set the win rate lies in [0, 1] |
| Metrics.MeanOdd | app.py:166 | mean odds times the number of records is the sum of the odds, and the mean is at least 1 when every record's odds are |
| Metrics.Breakeven | app.py:167 | with positive mean odds break-even is positive and break-even x mean odds = 1; otherwise it is 0; with mean odds at least 1 it is at most 1, a probability |
| Metrics.ExpectedValue | app.py:168 | EV times the number of records is the total profit, so EV is positive exactly when the total profit is |
| Metrics.BreakevenZeroesExpectation | app.py:167 | at the break-even rate a bet at the mean odds has zero expected profit per unit stake; above it the expectation is positive |
| Metrics.BoundedTotal | app.py:142 | a column with entries in [lo, hi] sums to between n*lo and n*hi (what keeps the win rate in [0, 1]) |
| Metrics.TotalProjectPermutation | app.py:139-140 | the sum of a column is the same for any permutation of the rows |
| Metrics.AggregatesIgnoreOrder | app.py:139-142 | ROI, win rate and EV do not change when the records are permuted |
| Metrics.RoiAtLeastMinusOne | app.py:137-141 | on well-formed records (stake > 0, odds >= 1) total profit is at least -total stake, so ROI >= -1 |
| Metrics.ProfitCoversStake | app.py:137-140 | on well-formed records total profit is at least -total stake, and total stake is positive iff there is a record |
| Metrics.EvAndRoiAgreeInSign | app.py:139-168 | with positive total stake, EV is positive (or zero) exactly when ROI is |
| Metrics.VoidDilutesWinRate | app.py:142 | appending a Void never raises the win rate, lowers it when there was a win, and leaves total profit unchanged |
| Metrics.ThreeWagerExample | app.py:137-142 | [Win, Loss, Win] at odds 2 and stake 1 give profits [1, -1, 1], ROI 1/3 and win rate 2/3 |
| DrawdownTracker.BankrollIsRunningSum | app.py:149 | the bankroll curve has one point per wager; it starts at the first profit and each later point is the previous one plus that wager's profit |
| DrawdownTracker.BankrollEndsAtTotal | app.py:149 | the last bankroll value is the total profit |
| DrawdownTracker.Peak | app.py:177 | the running peak is at least the current bankroll |
| DrawdownTracker.PeakIsLargestBankroll | app.py:176-177 | the peak is the largest bankroll value seen and is attained by one of them |
| DrawdownTracker.Drawdown | app.py:178 | the drawdown is never positive |
| DrawdownTracker.DrawdownIsWorstGap | app.py:176-178 | the drawdown is the least bankroll-minus-peak over all prefixes and is attained |
| DrawdownTracker.MaxDrawdown | app.py:176-178 | the one-pass bankroll/peak/worst loop computes exactly the drawdown |
| DrawdownTracker.DrawdownZeroIffNeverDecreases | app.py:176-178 | the drawdown is 0 iff the bankroll never decreases from one wager to the next |
| DrawdownTracker.FirstLossIsNoDrawdown | app.py:177 | a single wager, even a loss, gives drawdown 0, because the peak starts at the first bankroll |
| DrawdownTracker.FourWagerExample | app.py:176-178 | profits [5, -3, -4, 2] give bankroll [5, 2, -2, 0] and drawdown -7 |
| DrawdownTracker.DrawdownDependsOnOrder | app.py:176-178 | the same multiset of profits gives drawdown 0 as [-1, 1] and -1 as [1, -1] |
| Segmentation.Unique | app.py:48 | the distinct values are duplicate-free, are exactly the values of the column, and are no more than the records |
| Segmentation.UniqueInFirstSeenOrder | app.py:48 | the distinct values come in order of first appearance |
| Segmentation.Select | app.py:49 | the group of a value is never longer than the table; its exact contents are stated by `SelectKeepsExactlyMatching` |
| Segmentation.SelectKeepsExactlyMatching | app.py:49 | the group of a value holds exactly the records carrying that value, each as many times as the table holds it, and nothing else |
| Segmentation.GroupIgnoresOrder | app.py:49-58 | permuting the records leaves each group's contents, size, ROI and win rate unchanged |
| Segmentation.RowFor | app.py:49-60 | a value yields at most one row, and yields one exactly when its group has at least 20 entries |
| Segmentation.RowsFor | app.py:48-60 | the candidate values yield at most one row each |
| Segmentation.Segments | app.py:45-64 | the table has no more rows than there are records; its contents are stated by the lemmas below |
| Segmentation.SegmentedAnalysis | app.py:45-64 | the loop over the distinct values that skips small groups and appends rows builds exactly the table `Segments` |
| Segmentation.RowsForLargeGroups | app.py:48-53 | a candidate value has a row iff its group has at least 20 entries |
| Segmentation.RowsMeasureTheirGroup | app.py:49-60 | each row's n is the size of its value's group, n >= 20, and its roi and winrate are ROI and win rate of exactly that group |
| Segmentation.RowsKeepOrder | app.py:48-60 | rows keep the distinctness and first-appearance order of the values they come from |
| Segmentation.SegmentsAreLargeDistinctAndOrdered | app.py:48-60 | every row has n >= 20, each value appears at most once, and rows follow the first appearance of their value |
| Segmentation.SegmentsCoverLargeGroups | app.py:48-53 | a value of the column has a row iff its group reaches 20, so the table is empty iff no group does |
| Segmentation.GroupsPartition | app.py:48-50 | the groups of the distinct values together hold every record exactly once |
| Segmentation.SegmentsCountAtMostAll | app.py:48-53 | the row counts sum to at most the number of records, with equality iff every value's group reaches 20 |
| Significance.SquaredStandardError | app.py:171 | the squared standard error is non-negative and positive iff 0 < win rate < 1 |
| Significance.ZScore | app.py:172 | with positive se, z x se = win rate - break-even; otherwise z = 0 |
| Significance.ZScoreSign | app.py:171-172 | for se a non-negative square root of the squared standard error: se > 0 iff 0 < win rate < 1; z = 0 at win rates 0 and 1; otherwise z has the sign of win rate - break-even |
| Significance.Classify | app.py:196-201 | "validated" iff p < 0.05 and EV > 0, "EV positive" iff EV > 0 and p >= 0.05, "negative" iff EV <= 0 |
| Significance.ClassifyIsMonotone | app.py:196-201 | a lower p-value or a higher EV never worsens the verdict |
| Analysis.OverviewOf | app.py:133-149 | no overview for an empty store; otherwise it has the record count, the ROI, the win rate (in [0, 1]), and the bankroll curve of the profits, with one point per record and ending at the total profit |
| Analysis.DeepAnalysis | app.py:155-217 | no report below 100 records. Otherwise it reports win rate, mean odds, break-even, EV, z and p = 1 - Phi(z), a drawdown <= 0, the verdict, and the four segment tables. A verdict other than "negative" means ROI > 0 whenever something was staked |

## Left out

- The Streamlit UI is not modelled: the page set-up, the tabs, the entry form, the buttons, the metric, chart and table rendering, and the messages. It is presentation only. The deep analysis returns a report, and the verdict is a value instead of a coloured message.
- CSV persistence is not modelled: loading with its bare `except` fallback to an empty frame, and saving each new entry. It is file I/O. The model takes the loaded records as its input.
- `sqrt` and the standard normal distribution function `norm.cdf` are floating-point numerics from foreign libraries. `DeepAnalysis` receives them as parameters. The facts about the z-score are stated for any non-negative square root of the squared standard error. The model says nothing about the range of the p-value, since that depends on the distribution function.
- Significance.ZScoreSign: stated for a non-negative `se` whose square is the squared standard error. It is not stated for an arbitrary `sqrt` argument, because nothing is known about the foreign function.
- NaN behaviour of pandas on degenerate frames is replaced by preconditions: the mean of an empty column, the minimum of an empty series, NaN keys in `unique()`. `WinRate`, `ExpectedValue`, `MeanOdd`, `Drawdown` and `MaxDrawdown` require a non-empty input, which the page guarantees through `df.empty` and the 100-record gate.
- Float rounding and the `:.2f`/`:.4f` display formatting are not modelled. Arithmetic is exact `real`.
- The date, competition and match fields of a record are left out: no analytic reads them. `analise_segmentada` accepts any column name, but the model groups by the four columns the page passes to it.
