# Bike-rental dashboard: the filter-and-aggregate pipeline

A Dafny model of the data pipeline behind the Streamlit bike-rental
dashboard in `app.py`. It loads two cleaned tables: one row per day
(`dteday`, `musim` for season, `weathersit` for the weather code, and the
counts `Total Penyewa`, `non aktif`, `aktif`) and one row per hour (`dteday`,
`Jam` for hour of day, and the same three counts). Three sidebar inputs are
collected: a date range, a multiselect of seasons and a user-type radio.
Only the season selection is applied:

- `day_filtered` keeps the day rows whose season is selected;
- `hour_filtered` keeps the hour rows whose date is among those days.

From the two filtered tables the page computes three headline metrics:
- the total of `Total Penyewa`;
- its mean per day;
- the mean of `Jam`.

It also computes five chart tables:
- **daily rentals**: sums per date;
- **rent by hour**: sums per hour, sorted by total in descending order and
  melted into long form;
- **morning/evening trend**: hours 6-9 tagged `Pagi`, then hours 18-21
  tagged `Malam`;
- **weather impact**: means per weather code, with the code replaced by its
  label;
- **season analysis**: means per season.

## How the model is organised

- `tables.dfy` (`Tables`) holds the row types and the three count columns.
  It also holds the reference functions the grouped tables are specified
  against:
  - `SumWhere`: the column sums over the rows with a given key;
  - `CountWhere`: the number of such rows;
  - `KeySet`: the keys that occur;
  - `SumRows`: the column sums of a whole table.
- `ordering.dfy` (`Ordering`) holds the orders pandas sorts group keys by.
  Integers are sorted numerically. Strings are compared as Python does,
  character by character, and both are proved strict total orders.
- `grouping.dfy` (`Grouping`) models `groupby(key)[[three columns]].sum()`
  and `.mean()` with pandas' default `sort=True`, written once for any key
  type and order:
  - `GroupSums` gives one row per distinct key, keys strictly ascending, each
    holding exactly `SumWhere` for its key;
  - `GroupMeans` divides by `CountWhere`. Means are exact reals, stated by
    `IsMean(m, c, n)`, that is `m * n == c` column by column.
- `filters.dfy` (`Filters`) covers the season filter, the date semi-join and
  the sidebar inputs.
- `metrics.dfy` (`Metrics`) covers the three headline numbers. The mean of an
  empty column is `None`, where `np.mean` returns NaN.
- `aggregations.dfy` (`Aggregations`) covers the five cached aggregation
  functions.
- `dashboard.dfy` (`Dashboard`) is the page as a whole. `Render` maps the
  two tables and the sidebar inputs to every number and table shown. Its
  lemmas relate the outputs to each other and to the inputs.

Filters keep rows with their multiplicity and in input order. This is stated
by `multiset(r)[x] == if keep(x) then multiset(input)[x] else 0`, and by a
lemma showing the filter distributes over `+`.

## Model

| member | source | states |
|---|---|---|
| Filters.SeasonFilter | app.py:97 | a day row is in `day_filtered` exactly as often as in `day` when its season is selected, and never otherwise |
| Filters.SeasonFilterConcat | app.py:97 | the season filter acts on each part of a table separately, so the input order is kept |
| Filters.SeasonFilterAll | app.py:97 | selecting every season that occurs returns the day table unchanged |
| Filters.SeasonFilterNone | app.py:97 | selecting no season leaves no day row |
| Filters.DateColumn | app.py:99 | `day_filtered['dteday']` has one entry per filtered day and contains exactly the filtered days' dates |
| Filters.HourSemiJoin | app.py:99 | an hour row is in `hour_filtered` exactly as often as in `hour` when its date is among the given dates, and never otherwise |
| Filters.HourSemiJoinConcat | app.py:99 | the semi-join keeps the input order of the hour rows |
| Filters.HourSemiJoinNone | app.py:99 | with no dates, no hour row is kept |
| Filters.ApplyFilters | app.py:97-99 | the filtered day rows are the day rows of a selected season, and the filtered hour rows are the hour rows whose date is that of some filtered day, with multiplicities |
| Filters.FiltersIgnoreDateRangeAndUserType | app.py:68-84 | the date range and the user type collected in the sidebar do not change either filtered table |
| Filters.FilteredConsistent | app.py:97-99 | every filtered day comes from `day` and has a selected season; every filtered hour comes from `hour` and has the date of a filtered day |
| Filters.EmptySelection | app.py:97-99 | an empty season selection gives empty day and hour tables |
| Filters.AllSeasonsSelected | app.py:74-78 | with every season selected (the multiselect's default), `day_filtered` is the whole day table and `hour_filtered` is the hour rows of all its dates |
| Metrics.TotalPenyewa | app.py:109 | the headline total; with no negative counts it is at least every single day's rentals. Its partners are `Dashboard.Render` (the daily table adds up to it), `Dashboard.SeasonMeansAddUp` and `Dashboard.WeatherMeansAddUp` (the weighted means add up to it), `Aggregations.DailyRentals`' grand-total ensures, and `Metrics.TotalPenyewaConcat` |
| Metrics.TotalPenyewaConcat | app.py:109 | the total of a table split in two is the sum of the parts' totals |
| Metrics.MeanPenyewa | app.py:117 | the mean per day is defined exactly when there is a filtered day, and times the number of days it is the total of `Total Penyewa` |
| Metrics.MeanJam | app.py:125 | the mean hour is defined exactly when there is a filtered hour row, and times their number it is the sum of `Jam` |
| Metrics.SumJamBounds | app.py:125 | when every hour lies in [lo, hi], the sum of `Jam` lies between n*lo and n*hi |
| Metrics.MeanJamBounds | app.py:125 | the mean hour lies between the least and the greatest possible hour (0 and 23 for hours of the day) |
| Tables.ProjectKeySet | app.py:137 | the key column selected for a group-by holds exactly the key values of the table's rows |
| Tables.ProjectSum | app.py:137 | selecting the key and the three count columns keeps the column totals |
| Tables.SumWhereBalanced | app.py:137 | sums of rows with `Total Penyewa` = `non aktif` + `aktif` keep that identity |
| Ordering.StrLessIsStrictTotal | app.py:260 | Python's string comparison, which orders the season groups, is irreflexive, transitive and total |
| Grouping.Insert | app.py:137 | adding one row to a grouped table keeps the keys strictly ascending, adds the row's key, and adds its counts to its key's sums |
| Grouping.GroupSums | app.py:137 | `groupby(key).sum()`: keys strictly ascending (one row per key), exactly the input's keys, per-key sums and grand totals equal to the input's |
| Grouping.GroupSumsExact | app.py:137 | every grouped row holds the column sums of exactly the input rows with its key |
| Grouping.GroupSumsBalanced | app.py:166 | when every input row has `Total Penyewa` = `non aktif` + `aktif`, so has every grouped row |
| Grouping.AscendingUnique | app.py:137 | a table with strictly ascending keys is determined by its keys and per-key sums |
| Grouping.SumWherePermutation | app.py:166 | reordering the input rows does not change any per-key sum |
| Grouping.GroupSumsPermutation | app.py:166 | reordering the input rows does not change the grouped table at all |
| Grouping.MeanOf | app.py:226 | the three column means of a non-empty group, as exact quotients |
| Grouping.AverageGroups | app.py:226 | each averaged row keeps its group's key, and its means times the number of input rows with that key are the group's sums |
| Grouping.GroupMeans | app.py:226 | `groupby(key).mean()`: one row per grouped-sum row with the same key in the same order, each column the per-key sum divided by the per-key count |
| Grouping.GroupMeansKeys | app.py:260 | the grouped means have strictly ascending keys, only keys that occur in the input, and a row for every key that occurs |
| Grouping.AverageGroupsWeighted | app.py:226 | each group's mean total times its row count, added up over the groups, gives the groups' total |
| Grouping.GroupMeansWeighted | app.py:260 | mean times group size, added over all groups, gives back the input's `Total Penyewa` total |
| Aggregations.DailyRentals | app.py:136-138 | one row per distinct date, dates ascending, each with the sums over the days of that date; the grand totals are those of the input |
| Aggregations.InsertByTotal | app.py:166 | inserting a row into a table sorted by descending total keeps it sorted, adds exactly that row and its key, and keeps keys distinct |
| Aggregations.SortByTotalDesc | app.py:166 | `sort_values('Total Penyewa', ascending=False)`: totals non-increasing, the same rows (a permutation), the same keys |
| Aggregations.HourlyRentals | app.py:166-167 | the frame before melting: one row per distinct hour, hours exactly those of the input, each with the sums over its hour rows, totals non-increasing |
| Aggregations.Melt | app.py:168 | the long form has three rows per frame row: first the `Total Penyewa` block, then `non aktif`, then `aktif`, each in frame order |
| Aggregations.MeltAt | app.py:168 | every long-form position comes from one frame row and one column |
| Aggregations.MeltHasPair | app.py:168 | the long form has a row for an hour and a column exactly when the hour is in the frame |
| Aggregations.MeltPairUnique | app.py:168 | in a frame without repeated hours, no (hour, column) pair appears twice in the long form |
| Aggregations.MeltOnePerPair | app.py:168 | exactly one long-form row per (hour, column) pair of the frame |
| Aggregations.RentByHour | app.py:165-169 | `get_rent_by_hour` returns three rows per distinct hour |
| Aggregations.RentByHourValues | app.py:165-169 | every `Total Rentals` value is the named column's sum over the hour rows of its hour, an hour that occurs in the input |
| Aggregations.RentByHourOrdered | app.py:166-168 | the first block of the long form, one row per distinct hour, is made up of `Total Penyewa` rows throughout, in non-increasing order of total |
| Aggregations.RentByHourOnePerPair | app.py:165-169 | exactly one row per pair of an hour that occurs and a column name; none for any other hour |
| Aggregations.Window | app.py:173-176 | the rows with lo <= `Jam` <= hi, each as often as in the input, unchanged and tagged with `Waktu` |
| Aggregations.WindowConcat | app.py:173-174 | a window keeps the input order |
| Aggregations.WindowTagged | app.py:173-176 | every row of a window lies inside it and carries its tag |
| Aggregations.PagiFirst | app.py:177 | after the concatenation every `Pagi` row comes before every `Malam` row |
| Aggregations.RentByHourTrend | app.py:172-178 | an hour row appears tagged `Pagi` exactly when 6 <= `Jam` <= 9 and tagged `Malam` exactly when 18 <= `Jam` <= 21, with its multiplicity; `Pagi` rows first |
| Aggregations.TrendWindows | app.py:172-178 | every trend row lies in one of the two windows and its tag names that window |
| Aggregations.TrendKeeps | app.py:173-176 | an input row inside a window appears with that window's tag |
| Aggregations.TrendDrops | app.py:173-174 | a row outside both windows does not appear |
| Aggregations.TrendBoundaries | app.py:173-176 | hour 6 is tagged `Pagi`, hour 21 is tagged `Malam`, hour 10 is absent |
| Aggregations.WeatherLabel | app.py:227-232 | codes 1 to 4 get a label; every other code gets a missing value |
| Aggregations.WeatherLabelInjective | app.py:227-232 | no two codes share a label |
| Aggregations.WeatherImpact | app.py:225-233 | when every weather code is between 1 and 4, no label in the weather table is missing |
| Aggregations.WeatherCodesKnown | app.py:227-232 | the relabelled rows all have labels when every day's code is in the dictionary |
| Aggregations.WeatherRowCode | app.py:226 | each grouped weather row's code is that of some day, and its means are that code's sums over its day count |
| Aggregations.Relabel | app.py:227-232 | the `weathersit` column replacement: same number of rows, means unchanged, a label exactly for codes 1 to 4, and rows of distinct known codes keep distinct labels |
| Aggregations.WeatherCodesExact | app.py:226 | the codes of the grouped weather rows are strictly ascending and are exactly the codes the days have |
| Aggregations.WeatherRowCodes | app.py:225-233 | the codes behind the weather table, row by row: strictly ascending, exactly the days' codes, each row with its code's label and its code's means |
| Aggregations.WeatherCodesCovered | app.py:225-233 | every weather code among the days has a row carrying its label, and no two rows carry the same label |
| Aggregations.WeatherRowSource | app.py:225-233 | each weather row carries the label of a code some filtered day has, and the means over the days with that code |
| Aggregations.SeasonAnalysis | app.py:259-261 | one row per season present, seasons in Python string order, each column that season's mean |
| Aggregations.SeasonKeys | app.py:260 | the season rows are strictly ordered and their seasons are exactly those of the input days |
| Dashboard.Render | app.py:109-263 | the daily table adds up to the headline total; no unselected season reaches the season table; every trend row and every hourly bar comes from an input hour row of a day of a selected season |
| Dashboard.FilteredHourSource | app.py:99 | a filtered hour row is an input hour row of a day of a selected season |
| Dashboard.SeasonsSelected | app.py:259-261 | unselected seasons never appear in the season analysis |
| Dashboard.TrendFromSelectedDays | app.py:172-178 | every trend row is an input hour row of a day of a selected season |
| Dashboard.MeltedRowSource | app.py:165-169 | the hour of each long-form row is that of an input hour row of a day of a selected season |
| Dashboard.HoursFromSelectedDays | app.py:165-169 | every hourly bar is for an hour of an input hour row of a day of a selected season |
| Dashboard.SeasonMeansAddUp | app.py:109 | the season means weighted by their day counts add up to the headline total |
| Dashboard.WeatherMeansAddUp | app.py:226 | the weather means weighted by their day counts add up to the headline total |
| Dashboard.NothingSelected | app.py:97-99 | with no season selected the total is 0, both means are undefined and all five tables are empty |
| Dashboard.EmptyTables | app.py:136-261 | every aggregation of empty tables is empty |
| Dashboard.SummerOnly | app.py:97 | days (summer, 100) and (winter, 50) with only summer selected give one filtered day and a season table holding only summer with mean 100 |

## Left out

- Page setup, CSS, header, footer, sidebar widgets and `st.metric` formatting
  (app.py:13-50, 60-94, 105-130, 284-290). They only present results.
- All Plotly chart construction (app.py:142-158, 184-219, 237-253, 265-281).
  The model stops at the tables handed to the charts.
- `pd.read_csv` and `pd.to_datetime` (app.py:53-57). This is file I/O and
  date parsing. Dates are integers here that keep calendar order (day
  numbers, for instance). The semi-join on dates uses only their equality,
  and the daily group-by sorts by them, so the daily table comes out in date
  order as the line chart draws it.
- `@st.cache_data` (app.py:135, 164, 171, 224, 258). It memoises the
  functions and does not change their results.
- Columns outside the model. The trend table copies every column of the hour
  rows. The model's rows carry only the date, the season, the weather code,
  the hour and the three counts.
- pandas row labels. The model has no index column: filters and `concat`
  keep the original labels and `reset_index` renumbers them, and none of this
  is modelled.
- Metrics.MeanPenyewa: it is an exact real instead of a float64, and the mean
  of an empty column is `None` where `np.mean` gives NaN (with a warning).
- Metrics.MeanJam: same as MeanPenyewa.
- Grouping.GroupMeans: the means are exact reals, not float64 quotients.
- Tables.Counts: the counts are unbounded integers, so int64 overflow of a sum
  is not modelled.
- Aggregations.SortByTotalDesc: the order of rows with equal totals is
  unspecified. pandas' default `sort_values` is not stable, and its tie order
  is left open. The model's sort keeps ties in input order, but no contract
  depends on that.
- Aggregations.WeatherLabel: a code outside the dictionary becomes a missing
  value, which is what `Series.map` with a dict does. The code does not pass an
  unknown code through unchanged, and neither does the model.
- The date range and user type are never applied (app.py:68-84). This is
  easily read as a defect: the widgets suggest filters that do nothing. The
  model follows the code, and `Filters.FiltersIgnoreDateRangeAndUserType`
  states it.
