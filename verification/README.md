# Famine dataset preparation — a Dafny model

This project models the in-memory core of `famine_processing.py`. That code turns five region-level tables into one quarterly supervised dataset per region:

- food prices;
- processed-food (FEWS) prices;
- conflict events;
- IPC food-insecurity classifications;
- weather readings.

It is modelled in two stages.

**`get_famine_data`** (module `FamineData`, built on `Windows`, `ConflictAggregation` and `WeatherAggregation`):

- resolves the region's window from the food-price table: the earliest and latest (Year, Quarter);
- clips the processed-food, conflict, classification and weather tables to that window with the two-step mask;
- aggregates conflict events into one fatality total per month;
- aggregates weather readings into one mean temperature per month, with forward-fill and a backfill of leading gaps;
- rejects a region with twelve or fewer classifications in the window;
- tightens the window's start to the classification data.

**`calculate_datasets`** (module `Datasets`) walks every quarter from the tightened start through the end of the window. For each quarter it does three things.

It builds the feature vector, in this order:

- one mean price per food item and per processed-food item, scaled by 1e-4;
- the quarter's conflict fatalities per day;
- a temperature taken from the first year, counting forward from the quarter's own, whose quarter has three monthly weather buckets.

It attaches the P2/P3/P4 percentages when exactly one classification row matches the quarter.

It stores the record under the key year*10+quarter.

Shared pieces:

- `Calendar`: quarter and month ordinals, days per quarter, and the nested year/quarter loop.
- `Tables`: the row types, boolean-mask filtering and means.
- `Items`: the sorted distinct item lists.

A not-a-number value is modelled as `None` of an `Option<real>`. This covers the mean of an empty price selection and an unfilled weather month. A Python exception is an explicit outcome:

- `min` of an empty food table gives `NoFoodRows`;
- `min` of an empty weather table gives `NoWeatherRows`;
- the unbounded temperature loop gives `Hangs` / `Diverges`.

## Behaviour as written

The model follows the code in every case below. Each point names the member whose lemma or contract shows it.

- **Conflict end year.** The monthly conflict aggregation runs its years from the start year up to, but not including, the end year (`range(e_y, l_y)`). So no quarter of the window's end year ever has a conflict bucket, and its conflict slot is 0 (`EndYearConflictIsZero`).
- **Start tightening.** The new start year is `max(start year, earliest classification year)`. The new start quarter is `max(old start quarter, earliest classification quarter of the new year)`, so the old quarter survives a change of year (`TightenKeepsOldQuarter`).
- **Gate.** The gate counts the classification rows after they are clipped to the window, not the region's rows before clipping (the `Insufficient` clause of `GetFamineData`'s contract, and `InsufficientRegionSkipped`).
- **Temperature fallback.** The fallback re-queries the monthly weather table, not the raw readings. For a quarter after the end of the weather table's own span, the search never ends (`SearchFailsIffUnbounded`). The model reports this as a divergence of the whole calculation.
- **Failures are not isolated.** A region without food prices or without weather readings in its window raises, rather than being skipped (the `NoFoodRows` and `NoWeatherRows` clauses of `GetFamineData`'s contract).

## Model

| member | source | states |
|---|---|---|
| Calendar.DaysInQuarter | src/data_processing/famine_processing.py:49 | a quarter has 90 to 92 days; exactly 90 for the first quarter of a common year, 92 for the third and fourth |
| Calendar.QuartersFillYear | src/data_processing/famine_processing.py:49 | the four quarters' days add up to the days of the year |
| Calendar.OrdIsLexicographic | src/data_processing/famine_processing.py:123-124 | the quarter ordinal year*4+quarter orders (Year, Quarter) lexicographically and identifies equal pairs |
| Calendar.KeyFollowsOrd | src/data_processing/famine_processing.py:86 | keys year*10+quarter order quarters chronologically and distinct quarters get distinct keys |
| Calendar.LoopQuartersMember | src/data_processing/famine_processing.py:144-147 | the nested year/quarter loop visits a quarter exactly when its year is in range, respecting the first year's start quarter and the last year's end quarter |
| Calendar.LoopQuartersIncreasing | src/data_processing/famine_processing.py:144-147 | the loop visits quarters in strictly increasing chronological order |
| Calendar.SpanMember | src/data_processing/famine_processing.py:44-48 | the inclusive quarter walk visits exactly the quarters whose ordinal lies between start and end |
| Calendar.SpanIndexed | src/data_processing/famine_processing.py:44-48 | the walk has one step per quarter of the window, none when start is after end, with consecutive ordinals |
| Calendar.MonthInItsQuarter | src/data_processing/famine_processing.py:148 | the k-th month of each visited quarter belongs to that quarter and year, in month order |
| Calendar.MonthsIncreasing | src/data_processing/famine_processing.py:148 | the months of increasing quarters are strictly increasing |
| Calendar.MonthsMember | src/data_processing/famine_processing.py:148 | a month is produced exactly when its quarter was visited |
| Tables.Filter | src/data_processing/famine_processing.py:62 | a boolean mask keeps only rows that pass it, keeps every row that passes, and never adds rows |
| Tables.FilterTwice | src/data_processing/famine_processing.py:123-124 | two masks in sequence select what their conjunction selects |
| Tables.FilterSingle | src/data_processing/famine_processing.py:53 | a mask selects exactly one row iff exactly one position passes it |
| Tables.MonthlyQuarterRows | src/data_processing/famine_processing.py:72 | in a table of three rows per visited quarter, a quarter's mask selects its block of three, or nothing for an unvisited quarter |
| Tables.Mean | src/data_processing/famine_processing.py:64 | a mean is undefined exactly when there are no values |
| Tables.MeanWithin | src/data_processing/famine_processing.py:64 | a mean lies between the smallest and largest value averaged |
| Windows.Resolve | src/data_processing/famine_processing.py:115-118 | the window is undefined for an empty table; otherwise both ends are rows of the table and every row lies inside it |
| Windows.ResolveIsTight | src/data_processing/famine_processing.py:115-118 | no window that contains every row starts later or ends earlier |
| Windows.QuartersIn | src/data_processing/famine_processing.py:116 | the quarters listed for a year are exactly those of that year's rows |
| Windows.Clip | src/data_processing/famine_processing.py:123-124 | the two-step clip equals one mask keeping rows whose quarter ordinal lies in the window |
| Windows.ClipIdempotent | src/data_processing/famine_processing.py:139-140 | clipping a clipped table changes nothing |
| Windows.ClipMember | src/data_processing/famine_processing.py:168-169 | a row survives the clip iff it is in the table and its quarter lies in the window |
| Items.Insert | src/data_processing/famine_processing.py:106 | adding a name to a strictly sorted list keeps it strictly sorted with exactly the old names plus the new one |
| Items.SortedDistinct | src/data_processing/famine_processing.py:106 | the item list is strictly sorted and holds exactly the table's item names |
| Items.SortedUnique | src/data_processing/famine_processing.py:128 | strictly sorted lists of the same names are equal, so the slot order does not depend on row order |
| Items.SortedHasNoDuplicates | src/data_processing/famine_processing.py:106 | no item appears twice |
| Items.BelowTransitive | src/data_processing/famine_processing.py:106 | Python's string order is transitive |
| Items.BelowTotal | src/data_processing/famine_processing.py:106 | any two distinct strings are ordered one way or the other |
| ConflictAggregation.MonthFatalities | src/data_processing/famine_processing.py:149-156 | a month without events totals 0 |
| ConflictAggregation.MonthFatalitiesAdditive | src/data_processing/famine_processing.py:156 | splitting the event table splits every month's total |
| ConflictAggregation.MonthFatalitiesOfOne | src/data_processing/famine_processing.py:149-156 | a single event adds its fatalities to its own (Year, Month) and 0 to every other; with additivity, a month's total is the sum of its events' fatalities |
| ConflictAggregation.AggregateConflict | src/data_processing/famine_processing.py:143-160 | three buckets per visited quarter, each holding its month's total and its own quarter, in strictly increasing month order, and a bucket for exactly the months from the start quarter through the year before the end year |
| ConflictAggregation.NoBucketInEndYear | src/data_processing/famine_processing.py:144 | no bucket ever falls in the window's end year |
| ConflictAggregation.QuarterBucketsLayout | src/data_processing/famine_processing.py:72 | a visited quarter's mask on the monthly table selects its three buckets; an unvisited quarter's selects none |
| ConflictAggregation.QuarterTotal | src/data_processing/famine_processing.py:72-74 | a quarter's monthly-table total is the sum of its three months' events if visited and 0 otherwise |
| WeatherAggregation.MonthMean | src/data_processing/famine_processing.py:191-192 | a month's mean is undefined exactly when the month has no readings |
| WeatherAggregation.MonthMeanWithin | src/data_processing/famine_processing.py:191-192 | a defined monthly mean lies between any lower and upper bound of that month's readings |
| WeatherAggregation.GapFill | src/data_processing/famine_processing.py:182-212 | each month gets its own mean, else the latest earlier observed mean, else the first observed mean |
| WeatherAggregation.CarryForwardAt | src/data_processing/famine_processing.py:193-210 | the single pass emits, for each month, the latest observation up to and including it |
| WeatherAggregation.UniformFill | src/data_processing/famine_processing.py:186-212 | when some month is observed and all observed months share a value, every month gets that value |
| WeatherAggregation.GapFillDefined | src/data_processing/famine_processing.py:193-212 | every month is defined iff some month is observed; with no observation every month stays undefined |
| WeatherAggregation.AggregateWeather | src/data_processing/famine_processing.py:177-215 | one bucket per month of every quarter of the weather span, in strictly increasing month order, each with its own quarter |
| WeatherAggregation.BucketTemperature | src/data_processing/famine_processing.py:186-212 | a bucket's temperature is its month's mean, else the latest earlier mean, else the first mean of the table |
| WeatherAggregation.AllMonthsDefined | src/data_processing/famine_processing.py:177-212 | over the span of its own well-formed readings the monthly table has no undefined month |
| WeatherAggregation.QuarterReadingsLayout | src/data_processing/famine_processing.py:76 | a quarter inside the weather span has exactly three monthly buckets and one outside has none |
| FamineData.ItemList | src/data_processing/famine_processing.py:106 | the item list is strictly sorted and holds exactly the item names of the table |
| FamineData.ClippedIpcMember | src/data_processing/famine_processing.py:166-169 | a classification is kept iff it is the region's and lies in the window |
| FamineData.TightenStart | src/data_processing/famine_processing.py:227-228 | the new start is not before the old start in either component; it keeps the old quarter or the earliest classification quarter of the new year; after clipping it exists and no classification precedes its year |
| FamineData.TightenKeepsOldQuarter | src/data_processing/famine_processing.py:227-228 | a start of 2015 Q3 with classifications from 2016 Q1 tightens to 2016 Q3 |
| FamineData.GetFamineData | src/data_processing/famine_processing.py:101-239 | fails for no food prices, then for no weather readings in the window; is insufficient exactly when at most twelve classifications remain; otherwise returns the region's food rows, the clipped processed-food and classification tables (rows, order and multiplicity), their sorted distinct item lists, the monthly conflict and weather tables, the tightened start and the food end |
| FamineData.LoadedWeatherDefined | src/data_processing/famine_processing.py:172-215 | with well-formed readings a loaded region's monthly weather has a temperature in every month |
| Datasets.LabelsAt | src/data_processing/famine_processing.py:51-56 | labels are present iff exactly one classification row has the quarter, and are that row's percentages |
| Datasets.LabelScenario | src/data_processing/famine_processing.py:51-56 | one matching row's percentages are attached unchanged; two matching rows or none leave the quarter unlabelled |
| Datasets.PriceSlot | src/data_processing/famine_processing.py:62-64 | a price slot is undefined exactly when the item has no price in the quarter |
| Datasets.PriceSlotWithin | src/data_processing/famine_processing.py:64 | a price slot lies between the smallest and largest matching price divided by 1e4 |
| Datasets.PriceScenario | src/data_processing/famine_processing.py:62-64 | prices 100 and 200 for the item in the quarter give the slot 0.015 |
| Datasets.ConflictSlotNonNegative | src/data_processing/famine_processing.py:72-74 | non-negative fatalities give a non-negative conflict slot |
| Datasets.ConflictSlotValue | src/data_processing/famine_processing.py:72-74 | over the monthly table a quarter's slot is its three months' events per day when aggregated, else 0 |
| Datasets.EndYearConflictIsZero | src/data_processing/famine_processing.py:144 | every quarter of the end year has conflict slot 0 whatever its events |
| Datasets.TemperatureSearch | src/data_processing/famine_processing.py:76-81 | a found year is the first one from the quarter's year on whose quarter has exactly three monthly buckets; a failure means none of the searched years has |
| Datasets.SearchFailsIffUnbounded | src/data_processing/famine_processing.py:79-81 | with enough fuel to pass the table's last year, the search fails exactly when the source's loop never ends |
| Datasets.TemperatureSlot | src/data_processing/famine_processing.py:83 | the temperature slot is defined iff the selected buckets exist and all have a temperature |
| Datasets.TemperatureSlotWithin | src/data_processing/famine_processing.py:82-83 | a defined temperature slot lies between any lower and upper bound of the bucket temperatures |
| Datasets.TemperatureSlotDefined | src/data_processing/famine_processing.py:83 | with a fully defined weather table every reached temperature slot is defined |
| Datasets.Features | src/data_processing/famine_processing.py:58-85 | vector of length food items + processed-food items + 2: price slots in item order, conflict slot, temperature from the first year with three buckets; undefined iff no such year exists |
| Datasets.RecordAt | src/data_processing/famine_processing.py:50-85 | a quarter's record exists iff some year from its own has three monthly weather buckets; it is labelled iff exactly one classification has its quarter, with that row's percentages; its vector has the region's fixed length and takes the temperature of the first such year |
| Datasets.BuildEntries | src/data_processing/famine_processing.py:48-86 | one entry per walked quarter, keyed year*10+quarter, unless a quarter hangs; the hang is the first such quarter |
| Datasets.DatasetKeys | src/data_processing/famine_processing.py:44-86 | the keys are exactly year*10+quarter of the quarters of the window, one per quarter, strictly increasing, none missing |
| Datasets.KeyDecodes | src/data_processing/famine_processing.py:86 | a key decodes back to its year (key / 10) and quarter (key % 10) |
| Datasets.EntryContents | src/data_processing/famine_processing.py:51-85 | each entry is labelled iff its quarter has exactly one classification, and has the region's fixed vector length |
| Datasets.CalculateDatasets | src/data_processing/famine_processing.py:18-89 | every listed region gets an entry: none for a rejected region, its dataset otherwise; the calculation diverges iff some listed region's walk hangs, naming that region |
| Datasets.InsufficientRegionSkipped | src/data_processing/famine_processing.py:220-222 | given that the loader's map records None for a region the gate rejected, that region has at most twelve classifications in its window and the calculation maps it to none |

## Left out

- Reading the CSV files, `DATA_DIR`, `load_data` (lines 7-15) and every `print`: these are I/O. The model starts from tables already in memory, and `CalculateDatasets` takes the loader's results as a map.
- The allow-lists `WANTEDFEWSFOOD` and `WANTEDSTATIONS` come from `data_utils`, which is not part of this model. They are the two sets of `Config`. The `Station` label `list(WANTEDSTATIONS)[0]` (line 202) depends on set iteration order and is not kept in the weather buckets.
- `getDays` and `getDate` are in `data_utils`, which is not part of this model. `DaysInQuarter` assumes Gregorian quarter lengths. The `Date` column is replaced by (Year, Month) ordering: the monthly tables are built in date order and proved strictly increasing, so `sort_values` (lines 160, 214) has nothing to do.
- The `.at[...]` assignment at line 212 is modelled as what it is meant to do: every leading unfilled month gets the first observed mean. Its pandas mechanics are not modelled.
- Feature names, value columns, the `Item_Name` column and the `*_item_names` lists (lines 97-134, 162-164, 217-225, 235-237) are metadata only.
- The market lookups at lines 61, 67, 109 and 131 do not affect any value.
- Floating point: prices, temperatures and percentages are exact reals. Not-a-number results are `None`. A not-a-number value inside a source column is not modelled.
- Quarter and Month are the subset types 1..4 and 1..12. Rows with other values are assumed rejected before they reach this code.
- A region absent from the loader's map raises `KeyError` at line 23. `CalculateDatasets` requires every listed region to be in the map.
- Datasets.TemperatureSearch: the source's loop has no bound. The model bounds it by fuel. `SearchFuel` gives enough fuel to pass the last year of the weather table, and `SearchFailsIffUnbounded` shows that failure with that fuel is exactly non-termination.
- A concrete conflict scenario (fatalities 5, 0, 3 in a leap first quarter giving 8/91) is not a separate lemma. `ConflictSlotValue` and `DaysInQuarter` state the general law.
- The commented-out `get_famine_data_old` (lines 242-347) is dead code.
