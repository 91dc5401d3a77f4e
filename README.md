# Stacked bar chart of vaccinations by manufacturer: the data pipeline of drawChart

The program draws, for one location at a time, a stacked bar chart of the
daily number of vaccine doses given per manufacturer, one bar per month. The
rows of the underlying table carry a cumulative count (`total_vaccinations`)
per location, day and vaccine. `drawChart` turns the rows of the selected
location into the chart's data in four steps:

1. **Stack keys**: the distinct vaccine names, in order of first appearance.
2. **Differencing**: for every vaccine, its rows sorted by date; the first
   gets its cumulative total as its daily increment (`current_value`), every
   later one the rise over the row before it, with a fall clamped to 0. The
   increment is written into the row objects themselves.
3. **Binning and totals**: the rows are split into month bins by a list of
   thresholds. Every bin gets one total per stack key: the sum of the
   increments of its rows of that vaccine, or 0 when it has none.
4. **Diverging stack**: one series per key, one interval per bin. In a bin, a
   positive value sits on top of the positive values of the keys before it.
   A negative value hangs below the negative values before it. A zero value
   is the empty interval at 0.

The model follows these steps module by module:

- `Records`: the row datatype.
- `StackKeys`: the keys.
- `DateSort`: the stable date sort of one vaccine's rows, modelled as an
  insertion sort on row indices.
- `Differencing`: the increments. `Differenced` is a declarative definition:
  a row's predecessor is the latest earlier row of its vaccine in stable date
  order. `DeriveCurrentValues` does the source's in-place loop on an
  `array<Record>` and is proved to produce exactly `Differenced`.
- `Binning`: the month bins.
- `Aggregation`: the nested loop that fills each bin's totals.
- `Stacking`: the diverging layout.
- `Chart`: the whole pipeline, plus the properties of the chart as a whole.

Dates are day numbers. The thresholds are a parameter, since they are
computed elsewhere from the whole table. Counts are natural numbers.

Two points of the code that the model follows closely:

- Rows of one vaccine on the same day keep their data order, because the
  JavaScript array sort is stable (`Records.Before`).
- Under the diverging offset a negative value's interval runs downwards, so
  `Stacking.Diverge` states that an interval spans the size of its value.
  Increments are never negative, so in the chart every interval spans the
  value itself (`Chart.ChartTotalsNonNegative`).

## Model

| member | source | states |
|---|---|---|
| StackKeys.Keys | main.js:97 | the keys are pairwise distinct, and a name is a key exactly when some row has that vaccine |
| StackKeys.KeysInFirstAppearanceOrder | main.js:97 | keys appear in the order of the first row of each vaccine (insertion order of the Set) |
| StackKeys.FirstIndex | main.js:97 | the index of the first row of a vaccine: it has that vaccine and no earlier row does |
| DateSort.Sort | main.js:102 | sorting row indices is a permutation of them |
| DateSort.SortSorted | main.js:102 | sorting distinct row indices leaves them in stable date order (date ascending, ties in data order) |
| DateSort.SortedGroup | main.js:100-102 | every index of a vaccine's sorted rows is a row of that vaccine |
| DateSort.SortedGroupFacts | main.js:100-102 | a vaccine's sorted rows are in stable date order and include every row of that vaccine |
| Differencing.LatestBefore | main.js:100-108 | a scan returning the latest row of the same vaccine that comes before row j in date order, or None when there is none |
| Differencing.Predecessor | main.js:104-108 | a row has no predecessor exactly when it is the earliest of its vaccine, and any predecessor is the latest earlier row of that vaccine |
| Differencing.PredecessorUnique | main.js:108 | a row has at most one predecessor |
| Differencing.CurrentValue | main.js:104-110 | an increment is never negative and never more than the row's cumulative total |
| Differencing.EarliestKeepsTotal | main.js:104-105 | the earliest row of a vaccine gets its cumulative total as increment |
| Differencing.IncrementIsClampedRise | main.js:106-110 | any later row gets max(0, its total minus its predecessor's total), the predecessor having the same vaccine |
| Differencing.CurrentValueSameReadings | main.js:104-110 | a row's increment depends only on the dates, vaccine names and totals of the rows, not on their locations or on increments attached before |
| Differencing.Differenced | main.js:99-113 | differencing keeps every row's location, date, vaccine and total, and leaves every increment non-negative |
| Differencing.DifferencedIdempotent | main.js:99-113 | running the step again on its own output changes nothing, as when drawChart is called again on rows it already processed |
| Differencing.SortedGroupPredecessors | main.js:100-110 | in a vaccine's sorted rows, the first is the earliest and each later one has the one before it (`arr[i - 1]`) as predecessor |
| Differencing.WriteIncrements | main.js:103-112 | writing one vaccine's increments in sorted order gives its rows their differenced value and leaves every other row untouched |
| Differencing.DeriveCurrentValues | main.js:99-113 | after the loop over some keys, the rows of those vaccines carry their differenced value and all other rows are unchanged |
| Differencing.SumInDateOrder | main.js:100-110 | summing a vaccine's increments in data order gives the same as in sorted order |
| Differencing.Telescope | main.js:104-110 | when a vaccine's totals never drop, its increments add up to its latest total, and that total is its largest |
| Binning.BinIndex | main.js:115-118 | a date's bin is the number of thresholds at or below it, so there are one more bins than thresholds |
| Binning.BinMembership | main.js:115-118 | with rising thresholds, a date is in bin k exactly when it is at or after threshold k-1 and before threshold k (half-open) |
| Binning.BinRecords | main.js:115-118 | a bin holds only rows of the data, each in the bin of its date |
| Binning.InItsBin | main.js:115-118 | every row lands in the bin of its date |
| Binning.Binned | main.js:115-118 | there are one more bins than thresholds and each holds only rows of its own bin |
| Binning.BinningKeepsSums | main.js:115-118 | over all bins a vaccine's increments add up to their sum over the rows, so no row is lost or counted twice |
| Records.VaccineSumNonNegative | main.js:123-129 | the sum of non-negative increments is non-negative |
| Aggregation.AggregateBin | main.js:123-130 | a bin's totals hold exactly the stack keys, each equal to the sum of the bin's increments of that vaccine (0 when it has none) |
| Aggregation.AggregateBins | main.js:120-132 | one totals map per bin, in bin order, each as AggregateBin states |
| Stacking.Diverge | main.js:134-138 | one interval per value, spanning the size of the value; positive values never reach below the positive base, negative ones never above the negative base, and a zero value is the empty interval at 0 |
| Stacking.DivergeStacksUp | main.js:134-138 | with no negative value, a positive value's interval runs from the sum of the values before it to that sum plus its own value |
| Stacking.DivergeStacksDown | main.js:134-138 | with no positive value, a negative value's interval runs down from the sum of the values before it by its own size |
| Stacking.Stack | main.js:134-138 | one series per key and one interval per bin, each spanning the size of that bin's value for that key |
| Stacking.StackedOnTop | main.js:134-138 | with no negative totals, each positive bar starts where the bars of the keys before it end |
| Chart.ChartData | main.js:96-138 | the whole pipeline: rows end up with exactly their differenced increments, keys are the stack keys, one totals map per bin holding every key, and the series are the stack of those totals |
| Chart.AllKeysDone | main.js:97-113 | since the keys cover every vaccine, the loop over all keys differences every row |
| Chart.ColumnSumsMatchIncrements | main.js:115-132 | a vaccine's bars add up over all months to the sum of its increments |
| Chart.ChartTelescopes | main.js:99-132 | when a vaccine's totals never drop, its bars add up over all months to its latest cumulative total |
| Chart.ChartTotalsNonNegative | main.js:99-132 | no bin total in the chart is negative |
| Chart.ChartStacksUp | main.js:120-138 | in the chart every positive bar starts at the sum of the bars below it, which is at least 0, and is as tall as its total |
| Chart.CorrectionClampsToZero | main.js:99-113 | rows with totals 100, 150 and 140 on days 1, 2 and 3, given out of date order, get increments 100, 50 and 0 |

## Left out

- Fetching and parsing the CSV, and turning date strings into dates: the rows come in already parsed, with day numbers as dates.
- Building the thresholds from the monthly ticks of a time scale over the whole table: the thresholds are a parameter.
- The month label of each bin (`d.month`): it is formatting for display only.
- The binning library's own edge rules: it drops thresholds outside the date range of the rows it is given, and it closes the last bin at the largest date. The model takes the thresholds as given and bins every row by counting the thresholds at or below its date, so a location whose rows cover fewer months gets bins the library would merge or drop.
- The stacking library's internal algorithm: its result is given by what it places where (`Stacking.Diverge`), with keys in order and no reordering.
- Object aliasing: the source writes `current_value` into row objects shared with the full table and stores the totals as properties of the bin arrays. The model writes into an array of rows and keeps each bin's totals in a separate map, so a vaccine named like an array property is not modelled.
- Selecting a location's rows (the filter in the dropdown callbacks), the text wrapping helper, all drawing, axes, legend, tooltips and the dropdown: they are rendering and UI, not data.
- Invalid data: a non-numeric total (NaN in the source) and an unparsable date are not modelled. An empty total cell reads as 0 (main.js:239), which the model covers as a total of 0.
