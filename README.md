# Private-credit cash-flow pipeline, modelled in Dafny

This project models the data pipeline of a private-credit fund reporting tool.

The deal ledger is one table of dated cash flows (`contribution`, `distribution`,
`PIK`, fees) keyed by entity, facility and deal. It goes through these stages:

- **Ledger cleaning.** `entity_id` values have the letter `o` replaced by the digit `0`.
  Amounts get the sign convention: contributions are negative and everything else is positive.
- **Cash-flow adjustment.** PIK rows are dropped. Outflows are scaled down by the
  OID and origination fees, given in basis points.
- **Curve merge.** Every flow is joined to the base-rate curve at the previous month-end.
- **Curve, leverage and generic cleaning.** Curve names and fund names are normalised.
  Text, date and number columns are coerced. Rows without dates are dropped.
- **Metrics.** Paid-in capital, distributions and MOIC are computed per group.
  XIRR is computed per entity.
- **Fund leverage.** The ledger becomes positions. Positions are grouped by fund and draw.
  The month-ends of each position's life are expanded and joined to the rate curve.
  This yields monthly interest and undrawn-fee cash flows, which are stacked back into the ledger.
- **Hierarchy report.** The deal, facility and fund metric tables are stacked into one report.
  Fund-level net IRR and net MOIC are then attached.

## How the pandas data is modelled

A table is a `Frames.Frame`: an ordered list of column names plus rows.

- A row is a `map<string, Value>`.
- A value is one of:
  - null (NaN or NaT);
  - a number (`real`);
  - a signed infinity;
  - a string;
  - a calendar date (`Calendar.Date`).
- `Frames.Cell` reads a cell. A missing key reads as null, as a column that `reindex` or `concat` adds would.

The pandas behaviours the pipeline relies on are written out:

- `groupby` drops null keys.
- `sum` skips NaN.
- `first` takes the first non-null value.
- `merge` matches a null key to a null key, keeps the left order, and suffixes clashing right columns.
- `MonthEnd(-1)` rolls back to the previous month-end. `MonthEnd(0)` rolls forward.
- `fillna` behaves as the source uses it.
- A missing column raises `KeyError`. This is modelled as the `Frames.Result` case `KeyError(column)`.
  The one `ValueError` the pipeline can reach is the case `ValueError(column)`.

The stages that mutate a table in place are methods on the class `Frames.Table`, with
`modifies` clauses:

- the `entity_id` fix;
- adding `asof_mend`;
- the leverage fund-name clean.

The stages that build new tables are functions. The stages that loop are methods proved equal to a
specification function:

- `clean_data_format`'s column loops;
- `metrics`' per-entity XIRR loop;
- the fee stacking.

## Model

| member | source | states |
|---|---|---|
| Calendar.DaysInMonth | src/fund_metrics.py:154-158 | a month has 28 to 31 days, and February has 29 exactly in leap years |
| Calendar.MonthEndOrder | src/fund_metrics.py:158 | two month-ends are ordered exactly as their month numbers are, and are equal exactly when those numbers are |
| Calendar.RollBackMonthEnd | src/merge.py:137 | `MonthEnd(-1)` gives the latest month-end strictly before the date |
| Calendar.RollForwardMonthEnd | src/fund_metrics.py:154-155 | `MonthEnd(0)` gives the earliest month-end on or after the date, and leaves a month-end unchanged |
| Calendar.MonthEndDateRange | src/fund_metrics.py:158 | `date_range(freq='ME')` is strictly increasing, lies inside the window, and contains every month-end in the window |
| Calendar.MonthEndRangeIncreasing | src/fund_metrics.py:158 | consecutive month numbers give strictly increasing month-ends |
| Calendar.MonthEndRangeWithin | src/fund_metrics.py:158 | the month-ends generated from start to end all lie inside the window |
| Calendar.MonthEndRangeComplete | src/fund_metrics.py:158 | every month-end inside the window is generated |
| Calendar.PaymentDate | src/fund_metrics.py:178 | the payment date is the 15th of the month after the month-end |
| Calendar.PaymentDateOfMonth | src/fund_metrics.py:178 | in December the payment date moves to 15 January of the next year; otherwise it is the 15th of the next month in the same year |
| Calendar.PaymentDateExample | src/fund_metrics.py:178 | the month-end 2023-02-28 is paid on 2023-03-15 |
| Frames.FirstMissing | src/irr_calc/utils.py:152-154 | reports a required column that is absent, and reports none exactly when all are present |
| Frames.Filter | src/irr_calc/cash_flow_adjust.py:68 | a boolean-mask selection keeps exactly the rows the mask accepts, in order |
| Frames.FilterConcat | src/irr_calc/cash_flow_adjust.py:68 | a mask applied to stacked tables is the stack of the masked tables |
| Frames.ToNumeric | src/level_merge.py:56-57 | `to_numeric(errors='coerce')` yields a number, an infinity or null, and leaves numbers unchanged |
| Frames.ToDatetime | src/irr_calc/utils.py:61-66 | `to_datetime(errors='coerce')` yields a date or null, and leaves dates unchanged |
| Text.TrimStart | src/clean_curve.py:41 | the result is a suffix of the input, everything dropped is whitespace, and it does not start with whitespace |
| Text.TrimEnd | src/clean_curve.py:41 | the result is a prefix of the input, everything dropped is whitespace, and it does not end with whitespace |
| Text.Lower | src/clean_leverage.py:31 | `str.lower()` keeps the length, leaves no upper-case ASCII letter, and keeps every other character |
| Text.Strip | src/clean_curve.py:41 | `str.strip()` is no longer than its input and neither starts nor ends with whitespace |
| Text.StripIsSlice | src/clean_curve.py:41 | `str.strip()` is a slice `s[a..b]` of its input with only whitespace before `a` and after `b` |
| Text.StripIdempotent | src/clean_curve.py:41 | stripping a stripped string changes nothing |
| Text.StripLowerCommute | src/clean_leverage.py:27-35 | lower-casing and stripping can be applied in either order |
| Text.CollapseSeparators | src/irr_calc/utils.py:71-80 | after replacing every `[\s_]+` run by one underscore, no whitespace and no doubled underscore remains, and no upper-case letter is introduced |
| Text.CollapseIsMarkThenSqueeze | src/irr_calc/utils.py:71-80 | the `[\s_]+` collapse equals an independent reference: write every separator as `_`, then drop each `_` that follows a `_` |
| Text.CollapseKeepsAndCounts | src/irr_calc/utils.py:71-80 | the collapse keeps every character outside `[\s_]` in order, and its underscores number exactly the maximal separator runs of the input |
| Text.CollapseFixed | src/irr_calc/utils.py:71-80 | a string without whitespace or doubled underscores is unchanged by the collapse |
| Text.FundNameIsNormalizedText | src/clean_leverage.py:27-35 | the fund-name rule (lower, strip, collapse) equals the generic text rule (strip, lower, collapse) |
| Text.NormalizeText | src/irr_calc/utils.py:71-80 | the text-column rule: strip, lower-case, collapse; `NormalizeTextShape` and `NormalizeTextIdempotent` state its properties |
| Text.NormalizeFundName | src/clean_leverage.py:27-35 | the fund-name rule: lower-case, strip, collapse; `FundNameIsNormalizedText` shows it equals `NormalizeText` |
| Text.NormalizeTextShape | src/irr_calc/utils.py:71-80 | normalised text has no whitespace, no doubled underscore and no upper case |
| Text.NormalizeTextIdempotent | src/irr_calc/utils.py:71-80 | normalising normalised text changes nothing |
| Text.ReplaceAllAbsent | src/clean_curve.py:40 | a pattern with a character the string lacks leaves the string unchanged |
| Text.ReplaceAllSelf | src/clean_curve.py:40 | replacing a pattern by itself is the identity |
| Text.LexLessTotal | src/fund_metrics.py:93 | Python's string order is total, which the sort by fund name relies on |
| Text.LexLessTransitive | src/fund_metrics.py:93 | string order is transitive |
| Text.LexLessIrreflexive | src/fund_metrics.py:93 | no string is less than itself |
| Joins.Matches | src/merge.py:140-146 | the right rows matched by a left row are exactly those whose key equals the left row's key, nulls included |
| Joins.KeptColumns | src/merge.py:140-146 | a key column named the same on both sides appears once, and every other right column is carried |
| Joins.JoinRow | src/merge.py:140-146 | a joined row keeps every left cell that no right column overwrites, and an unmatched row gets null in every right column |
| Joins.JoinRowMatched | src/merge.py:140-146 | a matched row carries the matched right row's value in each right column, under its suffixed name |
| Joins.LeftJoin | src/merge.py:140-146 | a left join never loses a left row; its columns are the left columns followed by the kept right columns |
| Joins.MatchesAtMostOne | src/merge.py:149 | with unique right keys, a left row matches at most one right row |
| Joins.JoinRowsUnique | src/merge.py:140-146 | with unique right keys, the join has exactly one row per left row, in order, each joined with its single match or with nothing |
| Joins.JoinRowsKeepEveryRow | src/level_merge.py:97-103 | every left row appears in the join, extended by right columns |
| CleanCashFlow.FixEntityIdSpec | src/clean_cash_flow.py:23 | the fixed id has the same length, contains no `o`, and differs only where an `o` became `0` |
| CleanCashFlow.FixEntityIdIdempotent | src/clean_cash_flow.py:9-25 | fixing a fixed id changes nothing |
| CleanCashFlow.FixEntityId | src/clean_cash_flow.py:23 | a string id stays a string of the same length with no `o` left; any other cell becomes null, as the `.str` accessor makes it |
| CleanCashFlow.CleanEntityId | src/clean_cash_flow.py:9-25 | raises `KeyError` exactly when there is no `entity_id` column, leaving the table as it was; otherwise the table keeps its columns and row count, every row gets its `entity_id` fixed in place, and the same table is returned |
| CleanCashFlow.SignedAmountSpec | src/clean_cash_flow.py:59-63 | the new amount keeps its magnitude, follows the sign convention, and equals the old amount exactly when the old one already followed it |
| CleanCashFlow.SignConvert | src/clean_cash_flow.py:48-78 | columns and row count are kept, a table missing a needed column is returned unchanged, and only `amount` cells change |
| CleanCashFlow.SignConvertAmounts | src/clean_cash_flow.py:59-63 | each new amount keeps the old magnitude and has the sign its cash-flow type requires |
| CleanCashFlow.SignConvertFixedPoints | src/clean_cash_flow.py:59-63 | the conversion leaves a table unchanged exactly when every row already follows the convention |
| CleanCashFlow.SignConvertIdempotent | src/clean_cash_flow.py:28-78 | converting twice is the same as converting once |
| CleanCashFlow.CashFlowClean | src/clean_cash_flow.py:80-98 | raises `KeyError` exactly when there is no `entity_id` column, leaving the table as it was; otherwise the entity ids are fixed in place, and the returned table is the sign conversion of the fixed table |
| CashFlowAdjust.NonPikCount | src/irr_calc/cash_flow_adjust.py:68 | the rows kept plus the PIK rows dropped are all the rows |
| CashFlowAdjust.AdjustPik | src/irr_calc/cash_flow_adjust.py:45-73 | without `cashflow_type` the table is unchanged; otherwise exactly the non-PIK rows remain, in order |
| CashFlowAdjust.AdjustPikInOrder | src/irr_calc/cash_flow_adjust.py:68 | dropping PIK rows from stacked tables is the stack of the two filtered tables |
| CashFlowAdjust.AdjustPikIdempotent | src/irr_calc/cash_flow_adjust.py:45-73 | dropping PIK rows twice is the same as once |
| CashFlowAdjust.FillZero | src/irr_calc/cash_flow_adjust.py:31 | a missing fee becomes 0, and a present fee is kept |
| CashFlowAdjust.FloatAdd | src/irr_calc/cash_flow_adjust.py:35-37 | float addition of two fee cells: finite values add, an infinity absorbs a finite value, and NaN arises exactly from a NaN operand or opposite infinities |
| CashFlowAdjust.FloatTimes | src/irr_calc/cash_flow_adjust.py:35-37 | float multiplication: finite values multiply, and the product is infinite exactly when one factor is infinite and the other is infinite or a non-zero number |
| CashFlowAdjust.FeeFactorValue | src/irr_calc/cash_flow_adjust.py:35-37 | the factor `1 - (OID + origination) * 0.0001`: finite fees give `1 - (OID + origination)/10000`, an infinite total gives the opposite infinity, and opposite infinite fees give NaN |
| CashFlowAdjust.ScaleOutflow | src/irr_calc/cash_flow_adjust.py:35-37 | only amounts below zero (finite or -inf) are scaled, and every other amount is kept; a finite outflow times an infinite factor is the infinity of the opposite sign, and a NaN factor gives NaN |
| CashFlowAdjust.AdjustFees | src/irr_calc/cash_flow_adjust.py:8-43 | without all three columns the table is unchanged; otherwise missing fees become 0, each amount below zero is multiplied by its row's fee factor in float arithmetic (finite fees: by 1 - (OID + origination)/10000; infinite fees are accepted), other amounts are kept, and no other cell changes |
| CashFlowAdjust.FeeFactorShrinksOutflow | src/irr_calc/cash_flow_adjust.py:35-37 | non-negative fees below 100% shrink an outflow's magnitude while keeping it an outflow, and zero fees leave it unchanged |
| CashFlowAdjust.AdjustCashFlow | src/irr_calc/cash_flow_adjust.py:75-102 | the result is `AdjustFees` of `AdjustPik` of the input, so it holds exactly the non-PIK rows in order, each with its fee cells filled and its outflow scaled; the filtered table still meets the fee step's input demands |
| IrrUtils.CleanCell | src/irr_calc/utils.py:61-95 | a date column holds dates or null; a text column holds `NormalizeText` of the cell's `astype(str)` text, so no whitespace, doubled underscore or upper case; a numeric column holds numbers, with null as 0 and numbers unchanged |
| IrrUtils.CleanTextCellIdempotent | src/irr_calc/utils.py:69-85 | cleaning a cleaned text cell changes nothing |
| IrrUtils.CleanColumn | src/irr_calc/utils.py:61-95 | cleaning a column touches only that column's cells, and an absent column leaves the table unchanged |
| IrrUtils.CleanColumnsListed | src/irr_calc/utils.py:61-95 | every present listed column is cleaned by its rule |
| IrrUtils.DropMissingDates | src/irr_calc/utils.py:110 | raises `KeyError` exactly when a date column is absent; otherwise it keeps exactly the rows with every date present |
| IrrUtils.CleanDataFormatSpec | src/irr_calc/utils.py:29-127 | `clean_data_format` as a function: the date, text and numeric column rules in turn, then the drop of undated rows; `CleanDataFormatGuarantees` states what it yields |
| IrrUtils.CleanDataFormat | src/irr_calc/utils.py:29-127 | the loops over date, text and numeric columns compute the specification of `clean_data_format` |
| IrrUtils.CleanDataFormatGuarantees | src/irr_calc/utils.py:29-127 | a cleaned table keeps its columns; a present numeric column holds numbers (finite or infinite); a present text column that is not also listed as numeric holds strings without whitespace or doubled underscores; a date column that is listed neither as text nor as numeric holds a date in every kept row (the rules run in the order date, text, numeric, so a column in two lists ends with the later rule) |
| IrrUtils.DropMissingDatesKeepsDated | src/irr_calc/utils.py:110 | a table whose rows all have their dates loses nothing |
| IrrUtils.RenamedColumns | src/irr_calc/utils.py:149 | renaming `payment_date` to `asof` changes only that name |
| IrrUtils.RenamedRow | src/irr_calc/utils.py:149 | a renamed row carries its payment date under `asof` and is otherwise unchanged |
| IrrUtils.StackFundFeesIntoMaster | src/irr_calc/utils.py:129-167 | the result has the master's columns; the master rows come first, unchanged; then one row per fee, aligned to the master's columns |
| IrrUtils.AddMasterColumns | src/irr_calc/utils.py:149-157 | after the rename and the added missing columns, each fee row holds in each master column the renamed fee cell, or null when the fee table lacks that column |
| IrrUtils.StackedFeeRow | src/irr_calc/utils.py:149-160 | a stacked fee row has its payment date as `asof`, its type, fund and amount, and null in every other master column |
| CurveMerge.PreviousMonthEnd | src/merge.py:137 | `asof_mend` is null exactly when `asof` is; otherwise it is the latest month-end strictly before `asof` |
| CurveMerge.PreviousMonthEndOfMonthEnd | src/merge.py:137 | a flow dated on a month-end is joined to the previous month's rate, not its own |
| CurveMerge.CurveJoin | src/merge.py:140-146 | the left merge on (`cost_of_funds_curve`, `asof_mend`) = (`curve`, `asof`) never has fewer rows than the ledger |
| CurveMerge.CurveJoinHasColumn | src/merge.py:140-154 | `rate` and `entity_id` are in the joined table exactly when the ledger or the curve table has them |
| CurveMerge.JoinAndLogErrors | src/merge.py:140-157 | after the write, `merge_curve` raises `KeyError` exactly when a join key column is missing, when neither table has `rate`, or when some row has no rate and neither table has `entity_id`; the named column is missing from a table that should hold it; otherwise it returns the curve join |
| CurveMerge.MergeCurve | src/merge.py:98-157 | raises `KeyError` when the ledger has no `asof`, leaving it as it was; otherwise `asof_mend` is added in place to the ledger, which keeps its rows and other cells, and the outcome is that of the join and the log on the updated ledger |
| CurveMerge.CurveJoinKeepsLedger | src/merge.py:140-146 | every ledger cell survives the join unchanged |
| CurveMerge.CurveJoinUniqueKeys | src/merge.py:140-149 | with unique curve keys, the join has exactly one row per ledger row |
| CurveMerge.CurveJoinMatchedRate | src/merge.py:140-149 | a ledger row whose key is on the curve gets that curve point's rate |
| CleanCurve.CurveNameIsLowerStrip | src/clean_curve.py:35-42 | the dictionary replacement never changes a name: its `eurib0r` pattern holds a `0` that the previous step removed, and `sofr` maps to itself |
| CleanCurve.CurveNameShape | src/clean_curve.py:35-42 | a cleaned curve name has no `0` and no upper-case letter |
| CleanCurve.CurveNameIdempotent | src/clean_curve.py:35-42 | cleaning a clean curve name changes nothing |
| CleanCurve.CurveNameFixesMisspellings | src/clean_curve.py:38-41 | `eurib0r` becomes `euribor` and `s0fr` becomes `sofr` |
| CleanCurve.CurveName | src/clean_curve.py:35-42 | the name rule: `astype(str)`, lower-case, `0` to `o`, the dictionary replacement, strip; its properties are the lemmas below |
| CleanCurve.CleanCurveDf | src/clean_curve.py:6-55 | raises `KeyError` exactly when there is no `curve` column; otherwise rows and columns are kept, only the `curve` column changes, and every curve cell becomes the string `CurveName` of its `astype(str)` text, which has no digit `0` |
| CleanCurve.CleanCurveDfIdempotent | src/clean_curve.py:6-55 | cleaning a cleaned curve table changes nothing |
| CleanLeverage.CleanFundCell | src/clean_leverage.py:27-35 | a cleaned fund name has no whitespace and no doubled underscore |
| CleanLeverage.CleanFundCellIdempotent | src/clean_leverage.py:27-35 | cleaning a clean fund name changes nothing |
| CleanLeverage.CleanLeverageDf | src/clean_leverage.py:7-47 | raises `KeyError` exactly when there is no `fund` column, leaving the table as it was; otherwise the `fund` column is cleaned in place, nothing else changes, and the same table is returned; an extra output, standing for the count logged at src/clean_leverage.py:38-39, is the number of rows that changed |
| CleanLeverage.CleanLeverageAgainChangesNothing | src/clean_leverage.py:24-38 | running the clean a second time changes no row, so the logged count is zero |
| Metrics.PicCalc | src/metrics.py:9-61 | `_pic_calc` is the outflow side of `SideCalc`; its totals are magnitudes (`PaidInIsMagnitude`) |
| Metrics.DisCalc | src/metrics.py:63-115 | `_dis_calc` is the inflow side of `SideCalc` |
| Metrics.Part | src/metrics.py:44-46 | paid-in counts negative amounts as their magnitude; distributions count positive amounts; both are positive |
| Metrics.GroupSum | src/metrics.py:54-58 | a group total is non-negative, and positive when the group has a counted flow |
| Metrics.GroupKeys | src/metrics.py:54-58 | the group keys are distinct, and are exactly the null-free keys of counted rows |
| Metrics.SideCalc | src/metrics.py:9-115 | no groups when a level or amount column is missing; otherwise one group per distinct occurring key, with a positive total equal to the group sum |
| Metrics.PaidInIsMagnitude | src/metrics.py:9-61 | each paid-in total is the positive sum of the group's outflow magnitudes |
| Metrics.TotalOr0 | src/metrics.py:215 | a key missing on one side reads as 0, and the total is positive exactly when the key is present |
| Metrics.Divide | src/metrics.py:218 | MOIC is distributions over paid-in, +inf with no paid-in, and NaN for 0/0 |
| Metrics.OuterJoinTotals | src/metrics.py:212-215 | the outer merge of the two sides with zero fill; its keys, values and distinctness are the three lemmas below |
| Metrics.OuterJoinDistinct | src/metrics.py:212 | the outer join of paid-in and distributions has one row per key |
| Metrics.OuterJoinKeys | src/metrics.py:212 | its keys are exactly the keys on either side |
| Metrics.OuterJoinValues | src/metrics.py:212-215 | each row carries both sides' totals, with 0 for a missing side |
| Metrics.MoicOfJoinedTotals | src/metrics.py:212-218 | totals are non-negative; MOIC is distributions over paid-in when paid-in is positive, and +inf otherwise |
| Metrics.Entities | src/metrics.py:223 | the entity list is distinct, non-null, and holds exactly the values present in the entity column |
| Metrics.SortByAsof | src/metrics.py:225 | `sort_values('asof')` as a stable insertion sort with NaT last; `SortByAsofSpec` proves it sorted and a permutation |
| Metrics.SortByAsofSpec | src/metrics.py:225 | sorting by `asof` yields a sorted permutation of the entity's flows |
| Metrics.AsofOrderTotal | src/metrics.py:225 | any two rows are comparable by `asof` |
| Metrics.AsofOrderTransitive | src/metrics.py:225 | the `asof` order is transitive |
| Metrics.Seed | src/metrics.py:167 | the Newton seed is -0.1 exactly when the flows sum to a negative number, and 0.1 otherwise |
| Metrics.SumFlows | src/metrics.py:167 | the sum is defined exactly when no flow is NaN |
| Metrics.Xirr | src/metrics.py:147-178 | no IRR with mismatched lengths or without both an inflow and an outflow; otherwise the solver's root from the seed |
| Metrics.EntityRows | src/metrics.py:224 | an entity's rows are exactly the ledger rows with its id |
| Metrics.XirrOfTable | src/metrics.py:223-232 | the IRR looked up for an entity is the IRR computed from its own sorted flows |
| Metrics.XirrLoop | src/metrics.py:223-230 | the loop yields one XIRR row per entity, from its rows sorted by `asof`, and raises `KeyError` exactly when there is an entity and no `asof` column |
| Metrics.MetricsSpec | src/metrics.py:183-241 | the specification of `metrics`: the joined totals, then the per-entity XIRR table joined on the first level column; `MetricsErrors`, `MetricsGroupRow` and `MetricsEntityXirr` state what it yields |
| Metrics.Metrics | src/metrics.py:183-241 | the per-entity loop and the joins compute the specification of `metrics` |
| Metrics.TotalsAreGroupSums | src/metrics.py:207-215 | each output key occurs in the ledger, and its paid-in and distributions are its group sums |
| Metrics.SideTotal | src/metrics.py:207-215 | a side's total for a key is the group sum, and the key is listed exactly when it occurs |
| Metrics.GroupTotalsRow | src/metrics.py:207-215 | every group that paid in or distributed anything has a joined row carrying its two sums |
| Metrics.MetricsErrors | src/metrics.py:183-241 | `metrics` raises `KeyError` exactly when a level column, `amount` or `asof` is missing, or the first level column holds no value at all (so the IRR table has no key column) |
| Metrics.JoinXirr | src/metrics.py:232-234 | the final outer merge of the totals with the XIRR table on the first key; `JoinXirrMatched`, `JoinXirrExtra` and `ExtraRowIndex` state its rows |
| Metrics.JoinXirrMatched | src/metrics.py:234 | each total row is kept and gets the IRR of its first key |
| Metrics.JoinXirrExtra | src/metrics.py:234 | each entity with an IRR but no totals gets one row, with null totals (placed after the total rows; the order is the model's) |
| Metrics.ExtraRowIndex | src/metrics.py:234 | every such entity has a row carrying its IRR |
| Metrics.MetricsGroupRow | src/metrics.py:183-241 | every group with a counted flow has a row with its paid-in, distributions, MOIC and its entity's IRR |
| Metrics.MetricsEntityXirr | src/metrics.py:223-241 | every entity present in the ledger has a row with its IRR |
| FundMetrics.Positions | src/fund_metrics.py:26-53 | every contribution gives at least one position |
| FundMetrics.CleanDataFund | src/fund_metrics.py:6-60 | raises `KeyError` exactly when a ledger column it reads is missing, and names that column |
| FundMetrics.PositionsConcat | src/fund_metrics.py:53 | positions of stacked contributions are the stacked positions |
| FundMetrics.FinancePortionNotPositive | src/fund_metrics.py:48 | a contribution (non-positive amount) at a non-negative advance rate has a non-positive finance portion |
| FundMetrics.FirstSome | src/fund_metrics.py:83-93 | `first` is the first non-null value, and null only when all are null |
| FundMetrics.FirstValue | src/fund_metrics.py:83-93 | the curve column's `first` is its first non-null value |
| FundMetrics.FundKeys | src/fund_metrics.py:83 | the group keys are distinct and are exactly the keys of positions with all key fields present |
| FundMetrics.SortByKeySpec | src/fund_metrics.py:93 | sorting by (fund, draw date, exit date) yields a sorted permutation |
| FundMetrics.KeyLessTotal | src/fund_metrics.py:93 | any two distinct group keys are ordered |
| FundMetrics.KeyLessTransitive | src/fund_metrics.py:93 | the key order is transitive |
| FundMetrics.WithUndrawn | src/fund_metrics.py:96-105 | the group columns are kept, and the undrawn amount is the credit line plus the (signed) finance portion on a fund's first draw, and the finance portion alone on every later draw |
| FundMetrics.FundGroupsSpec | src/fund_metrics.py:83-93 | the fund table is sorted, has one row per occurring key, and each row aggregates exactly its group |
| FundMetrics.ReturnFundInfo | src/fund_metrics.py:63-116 | `return_fund_info`: group, sort, then the undrawn column; `ReturnFundInfoRows` states its rows |
| FundMetrics.EmptyFundTable | src/fund_metrics.py:83-93 | the fund table is empty exactly when no position has a fund, a draw date and an exit date |
| FundMetrics.ReturnFundInfoRows | src/fund_metrics.py:63-116 | the fund info is sorted, keyed by the occurring keys, and carries each group's aggregates |
| FundMetrics.SortedFirstDraw | src/fund_metrics.py:96 | each fund has one first draw, at the earliest draw date of the fund |
| FundMetrics.FirstDrawIsEarliest | src/fund_metrics.py:96-105 | in the fund info, a fund's first draw precedes its other draws |
| FundMetrics.FirstDrawOf | src/fund_metrics.py:96 | every row has its fund's first draw at or before it |
| FundMetrics.OpenPositionsVanish | src/fund_metrics.py:83-93 | a fund whose positions have no exit date has no row, because groupby drops null keys |
| FundMetrics.CurvePoints | src/fund_metrics.py:162-169 | the date column is `asof` renamed, or an existing `month_end` when there is no `asof`; with neither, `KeyError('month_end')`; with both, `ValueError` (the rename leaves two `month_end` columns, which `to_datetime` cannot assemble); otherwise `KeyError` exactly when `curve` or `rate` is missing, else one point per curve row with its curve, parsed date and rate |
| FundMetrics.RatesFor | src/fund_metrics.py:164-169 | the left merge gives at least one rate, null when no point matches |
| FundMetrics.RatesForUnique | src/fund_metrics.py:164-169 | with unique (curve, month-end) points, each month gets exactly one rate |
| FundMetrics.MonthsOf | src/fund_metrics.py:154-159 | a position's months are increasing month-ends and include every month-end between draw and exit |
| FundMetrics.ExplodeJoin | src/fund_metrics.py:158-169 | every (position, month, rate) combination is produced, and nothing else |
| FundMetrics.KeepInWindow | src/fund_metrics.py:176 | exactly the rows whose month lies in the position's window are kept |
| FundMetrics.ExpandAndJoinCurve | src/fund_metrics.py:121-201 | raises `ValueError` exactly when the fund table is empty (the row-wise `apply` at line 158 then yields a frame, which cannot be stored as one column); otherwise fails as `CurvePoints` does: `ValueError` when the curve table has both `asof` and `month_end`, `KeyError` exactly when it has neither or lacks `curve` or `rate`; otherwise yields the window rows of the exploded, joined fund table |
| FundMetrics.CurveRowsInWindow | src/fund_metrics.py:172-188 | every curve row is a month-end within its position's window, paid on the 15th of the next month, with the position's rates |
| FundMetrics.CurveRowsCoverWindow | src/fund_metrics.py:154-176 | every month-end in a position's window has a curve row |
| FundMetrics.PositionMonthsOnce | src/fund_metrics.py:154-176 | with unique curve points, each month of a position appears once and in order |
| FundMetrics.Monthly | src/fund_metrics.py:228 | a monthly accrual is one twelfth of the annual amount |
| FundMetrics.CalcMonthlyFee | src/fund_metrics.py:203-248 | twice as many fee rows as curve rows: first all interest rows, then all undrawn-fee rows, each with its row's date, fund and amount |
| FundMetrics.FeeTypesBalanced | src/fund_metrics.py:225-235 | the interest rows are exactly the first half of the fee table |
| FundMetrics.FeeSigns | src/fund_metrics.py:228-233 | a borrowed amount at a non-negative rate gives non-positive interest; a non-negative undrawn amount gives a non-positive fee |
| FundMetrics.FeesFrame | src/fund_metrics.py:225-235 | the fee table has the columns payment date, type, fund and amount, one row per fee |
| FundMetrics.RunFundLevelPipeline | src/fund_metrics.py:250-306 | the four steps chained, the first error stopping the run; `PipelineErrors` and `PipelineFees` state its outcome |
| FundMetrics.PipelineErrors | src/fund_metrics.py:250-306 | the pipeline raises `KeyError` exactly when the ledger lacks a column it reads, or some position is keyed and the curve table lacks a column it reads (no `asof` nor `month_end`, or no `curve` or `rate`); it raises `ValueError` exactly when the ledger is complete and either no position is keyed or the curve table has both `asof` and `month_end` |
| FundMetrics.PipelineFees | src/fund_metrics.py:250-306 | every fee row belongs to a fund with a position that has both a draw and an exit date |
| FundMetrics.CurveRowFunds | src/fund_metrics.py:121-201 | every curve row belongs to such a fund |
| FundMetrics.FeeFunds | src/fund_metrics.py:225-235 | every fee row carries the fund of a curve row |
| FundMetrics.FeesOfDrawnRows | src/fund_metrics.py:225-235 | fees computed from curve rows of drawn funds all belong to drawn funds |
| LevelMerge.MissingLabel | src/level_merge.py:48-50 | reports a missing id or name column of one of the three level tables, and reports none exactly when all are present |
| LevelMerge.MergeDealLevel | src/level_merge.py:6-74 | raises `KeyError` exactly when a label column is missing; otherwise it has the report's fixed columns |
| LevelMerge.MergeDealLevelRows | src/level_merge.py:48-65 | one row per input row, the three level tables stacked in order; each row carries its source row's id and name under the common names, its level label, the coerced paid-in, distributed, gross IRR and gross MOIC, and null net values |
| LevelMerge.FundRowsLast | src/level_merge.py:53 | a stacked row is a fund row exactly when it comes after the deal and facility rows |
| LevelMerge.FinalRow | src/level_merge.py:110-112 | the output row has exactly the output columns, and no cell is null |
| LevelMerge.AssignFundNetMetrics | src/level_merge.py:76-119 | raises `KeyError` exactly when the net table lacks fund/xirr/MOIC or the report lacks id/level |
| LevelMerge.AssignFundNetMetricsColumns | src/level_merge.py:97-110 | the output columns are the report's columns plus `net_irr` and `net_moic`, without the helper columns |
| LevelMerge.AssignFundNetMetricsFilled | src/level_merge.py:112 | no output cell is null |
| LevelMerge.AssignFundNetMetricsRows | src/level_merge.py:97-112 | with unique fund keys, one output row per report row, in order; fund rows get the fund's net IRR and MOIC and the other cells are kept |
| LevelMerge.MergeDealLevelStacked | src/level_merge.py:48-62 | the stacked report has one row per input row, no net values yet, and fund rows exactly after the deal and facility rows |
| LevelMerge.StackedNetMetrics | src/level_merge.py:97-112 | on the stacked report, deal and facility rows show `N/A` as net IRR and net MOIC, and fund rows show their fund's values |

## Left out

- The Newton iteration and `_xnpv` (src/metrics.py:118-145, 168-173) are not modelled. `Metrics.Xirr` takes the root finder as a parameter, and the guards, the seed and the failure-to-None path are modelled.
- Parsing is a parameter. `to_datetime`, `to_numeric` of strings and `astype(str)` are foreign parsers, so date, number and string parsing of arbitrary values are parameters of the model.
- Logging, CSV reads and writes (src/fund_metrics.py:292, 297, 302) and every other file I/O are left out. They do not change the data.
- src/main.py, src/clean.py, src/cli_utils.py, src/irr_calc/cli_utils.py, src/charts.py, src/irr_calc/charts.py and streamlit_app.py are not part of this model. They are drivers, argument parsing and plotting.
- src/irr_calc/merge.py duplicates src/merge.py. It is not modelled separately.
- `merge_db` in src/merge.py is not part of this model. It only concatenates and reads files.
- src/utils.py is not part of this model.
- Metrics.OuterJoinTotals: pandas `groupby` and outer `merge` sort their output by key. The model keeps first-appearance order, so the claims are about which rows exist and what they hold, not about their order.
- Metrics.JoinXirr: the final outer merge on the first key (src/metrics.py:234) also sorts by key. The model keeps the total rows in their order and puts the IRR-only entities after them; the claims are about which rows exist and what they hold, not about their order.
- CashFlowAdjust.AdjustFees: its requires excludes bps or amount cells that are not float cells (strings, dates). On those the source's comparison or multiplication raises `TypeError`, which the model does not represent. Infinite and NaN cells are accepted and carried through IEEE float rules.
- Metrics.SortByAsof: `sort_values('asof')` uses an unstable quicksort by default, so pandas leaves the order of rows with equal dates unspecified. The model fixes one order, a stable insertion sort, and `Metrics.SortByAsofSpec` promises only what every valid order shares: sorted, and a permutation.
- FundMetrics.SortByKeySpec: the model sorts on the whole (fund, draw date, exit date) key, on which the grouped rows are distinct. The source sorts on (fund, draw date) only, where ties occur when one draw date has several exit dates. Among such ties the model puts the earlier exit date first. The source's multi-key sort is stable and keeps the group-by's order, which is also by exit date. The two orders agree, but the model does not prove that equivalence.
- CurveMerge.PreviousMonthEnd: subtracting `MonthEnd(1)` from an `asof` column that does not hold dates raises `TypeError`. This is not modelled. Ledger dates are assumed already dates or null, which the requires states.
- CurveMerge.MergeCurve: its requires excludes the same `TypeError`, on an `asof` column that holds values other than dates and NaT. Every `KeyError` of src/merge.py:137-154 is modelled.
- Duplicate column labels are not modelled. A frame's columns are names, and a row is a map from name to value. The one place the pipeline can create them, the curve rename in src/fund_metrics.py:162, is modelled by the `ValueError` that follows it.
- Floating point is modelled as exact `real` arithmetic. NaN is null. Infinities are kept by the sign convention and produced by MOIC over zero paid-in. The aggregation steps do not carry them, as the next two lines say.
- Metrics.Part: an infinite amount counts as nothing. The source's masks at src/metrics.py:44 and :101 count it, so a group with one would total ±inf, and `xirr`'s sign tests at src/metrics.py:163 would see it. The same happens in `Metrics.CashFlows`, `Metrics.HasInflow` and `Metrics.HasOutflow`, which read amounts through `AsOption`. The model's claims hold for ledgers whose amounts are finite or NaN.
- FundMetrics.Positions: an infinite amount, commitment, spread, fee or advance rate becomes a missing value, and so do string cells in those columns. A fund cell that is not a string gives a position that `FundMetrics.Keyed` rejects, so the group-by drops it. pandas would instead keep ±inf in the sums and group on any hashable fund value. The claims hold for ledgers whose numeric cells are finite or NaN and whose fund cells are strings or missing.
- The docstring of `_pic_calc` (src/metrics.py:9-27) describes contributions as the positive side. The code negates negative amounts (src/metrics.py:44-46), and the model follows the code.
- The docstring of `merge_deal_level` (src/level_merge.py:17-25) does not list `facility_name` and `deal_name`. The code reads them (src/level_merge.py:48-49), and the model follows the code.
- LevelMerge.StackedNetMetrics: the whole report, from the three level tables to net metrics, is stated as two chained lemmas, `LevelMerge.MergeDealLevelStacked` and `LevelMerge.StackedNetMetrics`, linked by the predicate `Stacked`. It is not stated as one lemma.
- LevelMerge.AssignFundNetMetricsRows: the row-by-row claim assumes unique fund keys in the net table. With duplicate fund keys, the merge repeats rows; `Joins.JoinRowsKeepEveryRow` covers that case only by row survival.
- The count of curve-name changes computed in src/clean_curve.py:49 is only logged, so it is not modelled.
- CleanLeverage.CleanLeverageDf: the source returns only the table (src/clean_leverage.py:47) and writes the change count to its log (src/clean_leverage.py:38-39). The model returns the count as an extra output that stands for that log line.
- Text.Lower: only the ASCII letters `A`-`Z` are lower-cased. Python's `str.lower()` folds every Unicode cased character, so names with non-ASCII capitals are not modelled. This affects the fund, curve and text-column normalisation that is built on `Text.Lower`.
- CleanCashFlow.CleanEntityId: a `.str` accessor on a column that holds no strings at all raises `AttributeError`, for example on an all-NaN or all-numeric column. Frames carry no column types, so this is not modelled: every non-string cell becomes null, as in a column of mixed objects.
- CleanCashFlow.CashFlowClean: it has the same `AttributeError` gap as `CleanCashFlow.CleanEntityId`. Its requires also excludes an `amount` column that holds values other than numbers, on which `.abs()` raises `TypeError`.
- CleanCurve.CleanCurveDf: no `AttributeError` gap, because the source calls `astype(str)` before `.str`. Every curve cell is rendered through the `show` parameter.
- The column-name strip of `clean_data_format` (src/irr_calc/utils.py:58) is not modelled. Column names are taken as already stripped.
