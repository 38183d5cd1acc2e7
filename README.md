# Fashion sales dashboard: analytics core in Dafny

This project models the analytics pipeline of the fashion sales dashboard
(`dashboard/dashboard.py` and its earlier version `dashboard/dashboard_1.py`).
It models the parts that turn a flat table of order lines into the figures the
dashboard shows, and proves what those figures mean:

- the sidebar filter (date range, state/gender/age-group selections, product
  search, minimum order total);
- average order value and the repeat-purchase rate;
- the daily order series and the headline totals;
- the product ranking and the top three states;
- distinct customers per gender, age group and state;
- the RFM base table (recency, frequency, monetary per customer);
- monthly cohort retention;
- monthly average order value and delivery times;
- RFM quintile scoring with the segment rollups by count and by revenue;
- the earlier dashboard's helpers and its date filter, which stops at the
  last day's midnight.

The modules are:

- **Collections** (`collections.dfy`) holds the grouping vocabulary: sums per key, distinct keys, sorting by a total in descending order, and rankings.
- **Calendar** (`calendar.dfy`) holds proleptic Gregorian dates, timestamps with nanoseconds, day and month numbering, and whole elapsed days.
- **Records** (`records.dfy`) holds the order line, and the dated view of a table used by every date-bucketed aggregation.
- **Filters** (`filters.dfy`) holds the filter block. It is an imperative mask refined predicate by predicate, followed by the order-total step, and it is proved equal to a specification function.
- **Aggregates** (`aggregates.dfy`) holds the helper functions and the KPIs.
- **Cohorts** (`cohort.dfy`) holds cohort retention.
- **Segments** (`segments.dfy`) holds RFM scoring and the segment rollups.
- **EarlyDashboard** (`early.dfy`) holds the earlier script.

Money is in integer cents; means, rates and retention shares are `real`. A
date that did not parse is an absent `Option`.

## Model

| member | source | states |
|---|---|---|
| Filters.ApplyFilters | dashboard/dashboard.py:176-200 | the filter pass (mask, selection, then the order-total step) returns exactly the specification table `Filtered(all, cfg)` |
| Filters.MaskRows | dashboard/dashboard.py:180-191 | the mask has one entry per row, true exactly when the row passes the date range and every active selection and search |
| Filters.SelectMasked | dashboard/dashboard.py:194 | selecting by the mask yields the passing rows in table order |
| Filters.OrderTotals | dashboard/dashboard.py:198 | the map's keys are exactly the table's order ids, each mapped to the sum of its lines' prices |
| Filters.KeepQualifying | dashboard/dashboard.py:199-200 | keeps exactly the lines whose order total reaches the threshold, in order |
| Filters.FilteredIsSubset | dashboard/dashboard.py:176-200 | the filtered table is a sub-multiset of the input, and every line in it passes every active predicate |
| Filters.InDateRangeMeansWholeDays | dashboard/dashboard.py:176-180 | the date bounds admit a line exactly when its day lies from the start day to the end day, and on the end day only up to 23:59:59 |
| Filters.InactiveFiltersKeepDateRange | dashboard/dashboard.py:180-194 | with no selection, search or threshold, a line is kept exactly when it is in the input and dated within the range |
| Filters.StateSelectionOnlyRemovesOutside | dashboard/dashboard.py:184-185 | a non-empty state selection keeps exactly the otherwise-kept lines whose state is selected |
| Filters.GenderSelectionOnlyRemovesOutside | dashboard/dashboard.py:186-187 | a non-empty gender selection keeps exactly the otherwise-kept lines whose gender is selected |
| Filters.AgeGroupSelectionOnlyRemovesOutside | dashboard/dashboard.py:188-189 | a non-empty age-group selection keeps exactly the otherwise-kept lines whose age group is selected |
| Filters.ProductSearchOnlyRemovesNonMatching | dashboard/dashboard.py:190-191 | a product search keeps exactly the otherwise-kept lines whose name contains it ignoring case; a missing name never matches |
| Filters.MinOrderTotalKeepsWholeQualifyingOrders | dashboard/dashboard.py:197-200 | the threshold step runs only for a positive threshold on a non-empty table; a line survives exactly when its order's total over the pre-threshold table reaches the threshold, so whole orders are kept or dropped |
| Filters.FilteredIsDated | dashboard/dashboard.py:180 | every filtered line has an order date |
| Aggregates.AovIsRevenuePerOrder | dashboard/dashboard.py:30-34 | AOV is 0 for an empty table, otherwise revenue divided by the number of distinct orders (the mean of per-order sums) |
| Aggregates.Ratio | dashboard/dashboard.py:43-44 | a guarded share: 0 for a zero denominator, otherwise the quotient (times the denominator it gives back the numerator); within [0,1] for a part of a whole, 0 exactly for no part and 1 exactly for the whole |
| Aggregates.RepeatPurchaseRate | dashboard/dashboard.py:38-44 | the repeat-purchase rate lies in [0,1] |
| Aggregates.RepeatCountIsRepeaters | dashboard/dashboard.py:41-42 | counting, over distinct customer ids, those with more than one distinct order gives the size of the set of such customers |
| Aggregates.RepeatRateIsShare | dashboard/dashboard.py:38-44 | the rate is the number of distinct customers with more than one distinct order divided by the number of distinct customers (0 for an empty table) |
| Aggregates.RepeatRateZeroIffSingleOrders | dashboard/dashboard.py:38-44 | the rate is 0 exactly when every customer has exactly one distinct order |
| Aggregates.RepeatRateOneIffAllReturn | dashboard/dashboard.py:38-44 | the rate is 1 exactly when the table is non-empty and every customer has more than one distinct order |
| Aggregates.DailySeriesShape | dashboard/dashboard.py:56-68 | the daily series is empty exactly when no line is dated; otherwise its days are consecutive, cover every dated line, and a day counts zero orders exactly when no dated line falls on it |
| Aggregates.DayRowsEntries | dashboard/dashboard.py:59-62 | each day's order count is the number of distinct orders that day, and its revenue the sum of that day's prices |
| Aggregates.TotalRevenueIsDatedRevenue | dashboard/dashboard.py:213 | the headline revenue is the revenue of the dated lines, which is the whole revenue when every line is dated |
| Aggregates.TotalOrdersCountsDistinctOrders | dashboard/dashboard.py:212 | when no order's lines fall on two days, the headline order count is the number of distinct dated orders (all orders when every line is dated) |
| Aggregates.RankByFacts | dashboard/dashboard.py:70-74 | a ranking has one row per present value of the column, sorted by total in descending order, with distinct keys, each total that value's sum |
| Aggregates.RankByKeys | dashboard/dashboard.py:73 | a ranking's keys are values the column takes, never a missing value |
| Aggregates.RankBySum | dashboard/dashboard.py:73 | a ranking's totals add up to the total over the lines where the column is present |
| Aggregates.RankByCovers | dashboard/dashboard.py:73 | every present value of the column has a row in the ranking |
| Aggregates.ProductRankingFacts | dashboard/dashboard.py:70-74 | units sold per named product: every named product once, in descending order of units, with its unit total; the totals add up to the units of named products |
| Aggregates.TopStatesFacts | dashboard/dashboard.py:514 | the top states are min(3, number of states) rows in descending order of revenue |
| Aggregates.TopStatesEntries | dashboard/dashboard.py:514 | the states shown are distinct, each with its revenue over the table |
| Aggregates.TopStatesAreLargest | dashboard/dashboard.py:514 | no state left out earns more than any state shown |
| Aggregates.CustomersWithBounds | dashboard/dashboard.py:79 | a category that occurs has between 1 and all of the table's customers |
| Aggregates.CustomersBy | dashboard/dashboard_1.py:30-52 | one entry per category that occurs, mapped to the number of distinct customer ids on lines with that value, which is between 1 and the number of distinct customers |
| Aggregates.ByGender | dashboard/dashboard.py:76-81 | a gender is listed exactly when some line has it, mapped to the number of distinct customer ids on lines with that gender (between 1 and the number of distinct customers) |
| Aggregates.ByAgeGroup | dashboard/dashboard.py:83-88 | a age group is listed exactly when some line has it, mapped to the number of distinct customer ids on lines with that age group (between 1 and the number of distinct customers) |
| Aggregates.ByState | dashboard/dashboard.py:90-95 | a state is listed exactly when some line has it, mapped to the number of distinct customer ids on lines with that state (between 1 and the number of distinct customers) |
| Aggregates.Recency | dashboard/dashboard.py:106-107 | a customer has a recency exactly when they have a dated line; it is the latest order day minus their own latest order day |
| Aggregates.RfmTableCustomers | dashboard/dashboard.py:97-110 | the RFM table has one row per distinct customer, customers strictly ascending, and every customer of the table appears |
| Aggregates.RfmRowFacts | dashboard/dashboard.py:97-110 | each RFM row's frequency is the number of the customer's distinct orders (so at least 1), its monetary value the customer's price sum, and its recency zero or more, present when every line is dated |
| Aggregates.RfmMonetaryAddsUp | dashboard/dashboard.py:101-104 | the monetary column adds up to the table's revenue |
| Aggregates.SomeCustomerIsRecent | dashboard/dashboard.py:106-107 | for a non-empty, fully dated table some customer has recency 0 |
| Aggregates.MonthlyAovMonths | dashboard/dashboard.py:377-380 | the monthly AOV series has an entry exactly for each month with a dated line |
| Aggregates.MonthlyAovValue | dashboard/dashboard.py:378-380 | a month's AOV is that month's revenue over its distinct orders |
| Aggregates.DeliveryDaysFacts | dashboard/dashboard.py:411 | each delivery time is the whole days from order to delivery, rounded down, and is non-negative exactly when delivery is not before the order |
| Aggregates.DeliveryDaysCover | dashboard/dashboard.py:411 | every line with both dates contributes a delivery time |
| Aggregates.EarlyDeliveryIsMinusOneDay | dashboard/dashboard.py:411 | a delivery one hour before the order on the same day counts as -1 days |
| Cohorts.CohortMonths | dashboard/dashboard.py:308-309 | the cohort months strictly ascend, one per distinct cohort that occurs |
| Cohorts.PeriodNumbers | dashboard/dashboard.py:318-319 | the period numbers strictly ascend, one per distinct period that occurs |
| Cohorts.CohortMonthsMembers | dashboard/dashboard.py:308-313 | a month is a cohort exactly when it is the first-order month of some dated line's customer |
| Cohorts.PeriodNumbersMembers | dashboard/dashboard.py:318-319 | a number is a period exactly when some dated line lies that many months after its customer's cohort month |
| Cohorts.PeriodNonNegative | dashboard/dashboard.py:318-319 | no line's period number is negative |
| Cohorts.FirstLineInPeriodZero | dashboard/dashboard.py:308-319 | a customer's earliest line (no line of the customer is earlier) lies in period 0 |
| Cohorts.MembersActiveAtZero | dashboard/dashboard.py:324-334 | the customers active in a cohort's period 0 are exactly its members |
| Cohorts.PeriodsStartAtZero | dashboard/dashboard.py:328-334 | the first period column is period 0 |
| Cohorts.CohortHasMembers | dashboard/dashboard.py:324 | every cohort that occurs has at least one member |
| Cohorts.ActiveAreMembers | dashboard/dashboard.py:324 | no more customers are active in a period than the cohort has |
| Cohorts.CohortViewCases | dashboard/dashboard.py:300-360 | the panel shows no data exactly for an empty table, and its notice exactly when no line is dated |
| Cohorts.HeatmapShape | dashboard/dashboard.py:328-347 | heatmap rows are cohort months and columns period numbers, both ascending and non-empty, columns from 0 |
| Cohorts.HeatmapDimensions | dashboard/dashboard.py:347 | one retention row per cohort, one cell per period |
| Cohorts.RetentionCells | dashboard/dashboard.py:334-347 | each cell is the share of the cohort's customers active that period; it lies in [0,1] and is 1 in period 0 |
| Segments.RankFirst | dashboard/dashboard.py:440 | one rank per value |
| Segments.RankFirstPermutation | dashboard/dashboard.py:440 | the ranks are the numbers 1 to n, each exactly once |
| Segments.RankFirstOrder | dashboard/dashboard.py:440 | a smaller value, or an equal value earlier in the column, gets the smaller rank |
| Segments.ScoreTable | dashboard/dashboard.py:428-447 | one scored row per customer, in table order; each score lies in 1..5; the code is three digits '1'..'5' that read back as the recency, frequency and monetary scores |
| Segments.RecencyScoreAntitone | dashboard/dashboard.py:432-435 | a more recent customer never scores lower on recency; everybody scores 3 when the recency cut fails |
| Segments.FrequencyScoreByRank | dashboard/dashboard.py:439-440 | the frequency score follows the purchase count's rank (ties by position) |
| Segments.FrequencyScoreMonotone | dashboard/dashboard.py:439-444 | more purchases never score lower on frequency, and of equal counts the earlier row never scores higher; everybody scores 3 when either cut fails |
| Segments.MonetaryScoreMonotone | dashboard/dashboard.py:441-444 | more spending never scores lower on monetary value; everybody scores 3 when either cut fails |
| Segments.DatedTableHasRecency | dashboard/dashboard.py:432 | a fully dated table gives every customer a recency, so it can be scored |
| Segments.SegmentCountsFacts | dashboard/dashboard.py:456 | one row per code that occurs, most common first, each with its customer count of at least 1; the counts add up to the number of customers |
| Segments.SegmentCountsCover | dashboard/dashboard.py:456 | every customer's code has a row in the count table |
| Segments.SegmentRevenueFacts | dashboard/dashboard.py:464-471 | one row per distinct code that occurs, no code twice, largest first, each with its customers' revenue; the rows add up to the table's whole revenue |
| Segments.SegmentPanelCases | dashboard/dashboard.py:428-480 | the panel has nothing to show exactly for an empty table, and never reaches its notice about missing variation |
| EarlyDashboard.EarlyFiltered | dashboard/dashboard_1.py:92-95 | a line is kept exactly when it is in the input and dated from the start day's midnight to the end day's midnight |
| EarlyDashboard.EarlyRangeWholeDays | dashboard/dashboard_1.py:92-95 | the early range is the days from start to end, but only midnight itself on the end day |
| EarlyDashboard.EarlyRangeLosesLastDay | dashboard/dashboard_1.py:92-95 | the early filter keeps a subset of the later dashboard's date range, losing exactly the lines after midnight on the end day |
| EarlyDashboard.EarlyFilteredIsDated | dashboard/dashboard_1.py:92-95 | every line the early filter keeps is dated |
| EarlyDashboard.UnguardedCategoriesAgree | dashboard/dashboard_1.py:30-52 | the unguarded category helpers equal the guarded ones, empty table included |
| EarlyDashboard.EarlyDailyTotals | dashboard/dashboard_1.py:13-24 | the daily revenues add up to the filtered revenue; when no order spans two days the headline order count is the number of distinct orders |
| EarlyDashboard.EarlyRfmRow | dashboard/dashboard_1.py:54-67 | each RFM row of the filtered table: frequency the number of the customer's distinct orders, monetary the customer's revenue, recency present and non-negative |
| EarlyDashboard.EarlyRfmFacts | dashboard/dashboard_1.py:54-67 | one RFM row per customer, frequency the number of the customer's distinct orders (at least 1), monetary the customer's revenue, recency present and non-negative, and some customer at recency 0 |

## Left out

- User interface: page setup, sidebar widgets, layout, metrics, info messages, charts and the heatmap drawing. The widget values become parameters (`FilterConfig`, the start and end dates).
- Currency formatting (`format_aud`, `format_currency`), figure export and the CSV/Excel export. These are presentation and byte I/O.
- Data loading, caching and the column back-fill loop. The input is an already parsed table in which an unparsable date is absent.
- The in-place sort of the loaded table in the earlier script. It is loading plumbing and does not change any modelled result.
- Float rounding: prices are integer cents, and the minimum order value is whole currency units times 100.
- The bin edges of quintile cutting (`pd.qcut` with duplicate edges dropped). Each cut is a `Binning` parameter: either an error, or labels from 0 to 4 that are ordered as the values are. The inversion, the `+1`, the shared fallback to 3 for frequency and monetary, and the code construction are exact.
- Segments.ScoreTable: requires every customer to have a recency, and every cut to yield a label for every value. A customer without a dated line gives a missing label, and the conversion to integers then fails outside the fallback. A column with a single distinct value (one customer, for instance) has one edge left after merging, so every label is missing. These failures are not modelled. Every table the later dashboard filters is fully dated (`FilteredIsDated`, `DatedTableHasRecency`).
- Tie order of the descending sorts. The source's sort leaves equal totals in an unspecified order; the model uses one fixed insertion order and proves only sortedness, the multiset and the key facts.
- The product ranking's fallback column for a missing `quantity_x` (dashboard/dashboard.py:71-72). Every modelled line has a quantity.
- The top-N product slider, the ten-segment bar-chart cut and the first-rows display of the segment revenue table. These only choose how many rows of a proven ranking to draw.
- CLTV proxy, the top-customers list, the latest monthly AOV value and the delivery median display.
- Case-insensitive product search folds only ASCII letters. Unicode case folding and regular-expression search patterns are not modelled: the search is a plain substring test.
- Cohort lines without an order date are excluded. Such lines cannot occur after the later dashboard's date filter.
- Aggregates.TotalOrdersCountsDistinctOrders: holds only when no order's lines fall on two calendar days. An order that straddles midnight is counted once per day, as the daily resample does.
- Daily series: the daily resample fills every day between the first and the last order with zero rows, and the model follows that. An empty table gives an empty series.
- Cohort panel: it reports missing data only when the filtered table is empty or no cohort cell exists. A table with a single cohort and period still gets a one-cell heatmap, and the model follows that.
