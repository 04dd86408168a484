# Car listings dashboard: row selection and top-models aggregation

A Dafny model of the data pipeline behind the Streamlit dashboard of used-car
listings in `car_app_streamlit.py`. The dashboard loads a table of listings and
narrows it with the manufacturer and date multiselects. It shows two metrics
(number of cars, number of distinct models), drops incomplete rows in front of
each chart, and builds a table of the 50 most frequent models with per-model
statistics. Everything is pure: every step takes the table as a value and
returns a new one.

Modules:

- `Table` (table.dfy): a `Listing` datatype with one field per column, and
  pandas' boolean-mask selection `df[mask]` as `Where`. `Manuf`, `Model` and
  `date` are never missing. Every other column is an `Option`, and a missing or infinite
  value is `None`. Dates are day numbers. The numeric columns hold integers.
- `Order` (order.dfy): Python's `<` on integers and on strings (code point by
  code point), and `sorted(series.unique())` as `SortedUnique`.
- `Filters` (filters.dfy): `apply_filters`, `apply_bottom_filters`, the four
  `dropna` cleaning steps, the two option lists (manufacturers and dates) and
  the unused sorted model list.
- `Metrics` (metrics.dfy): `total_cars` and `unique_cars`.
- `Stats` (stats.dfy): pandas `min`/`max`, which skip missing values, and
  `mode()[0]`, which is the smallest of the most frequent values because pandas
  returns the modes sorted.
- `TopModelStats` (topmodels.dfy): `get_top_models_df`. This covers
  `value_counts().head(50)`, `isin`, `groupby('Model').agg(...)` and the inner
  `most_frequent`.

Filter selections are lists, as the multiselect widgets return them. An empty
list means "no restriction".

## Model

| member | source | states |
|---|---|---|
| `Table.Where` | car_app_streamlit.py:48 | `df[mask]` returns a subsequence of the table, no longer than it. A row is in the result iff it is in the table and passes the mask. Each passing row occurs exactly as often as in the table, and no other row occurs |
| `Table.WhereWhere` | car_app_streamlit.py:47-50 | applying two masks one after the other selects what their conjunction selects |
| `Table.ModelSetBound` | car_app_streamlit.py:62 | a table has no more distinct models than rows, and has none exactly when it is empty |
| `Filters.ApplyFilters` | car_app_streamlit.py:45-51 | equals the single-mask selection "manufacturer selected (or none selected) and date selected (or none selected)". It is a subsequence of the input. Every kept row has a selected manufacturer when that list is non-empty, and a selected date when that list is non-empty. It keeps every matching row as often as the input has it, and no other row. With both selections empty it returns the input unchanged |
| `Filters.ApplyFiltersIdempotent` | car_app_streamlit.py:45-51 | filtering the filtered view again with the same selection changes nothing |
| `Filters.ApplyBottomFilters` | car_app_streamlit.py:37-40 | a subsequence of the input that keeps exactly the rows whose date is selected, as often as the input has them. With no date selected it returns the input unchanged |
| `Filters.BottomIsMainWithoutManufacturer` | car_app_streamlit.py:37-51 | the bottom filter equals the main filter with no manufacturer selected, so it restricts by date only. The comment at line 42 says it applies to the already filtered table, but the call passes the full `df`. The model follows the call, so the bottom scatter ignores the manufacturer filter and the top date filter |
| `Filters.DropNa` | car_app_streamlit.py:73-74 | `dropna(subset=...)` keeps, in order and with their multiplicity, exactly the rows in which every listed column is present. It never adds rows |
| `Filters.CleanTopScatter` | car_app_streamlit.py:73-74 | keeps exactly the rows with Year, Mileage, Motor Volume and Price present, as a subsequence of the filtered view |
| `Filters.CleanMotor` | car_app_streamlit.py:93 | keeps exactly the rows with Motor Type and Motor Volume present, as a subsequence |
| `Filters.CleanTransmission` | car_app_streamlit.py:100 | keeps exactly the rows with Transmission Type and Transmission Speeds present, as a subsequence |
| `Filters.CleanBottomScatter` | car_app_streamlit.py:113-114 | keeps exactly the rows of the bottom-filtered table with Color, Body Type and Price present, as a subsequence |
| `Filters.UniqueModels` | car_app_streamlit.py:14 | strictly increasing under string order. Holds exactly the models of the table, so its length is the number of distinct models. Line 14 builds this list over the full table and nothing reads it |
| `Filters.UniqueManufs` | car_app_streamlit.py:15 | strictly increasing under string order. Holds exactly the manufacturers of the table |
| `Filters.UniqueDates` | car_app_streamlit.py:16 | strictly increasing. Holds exactly the dates of the table |
| `Order.StrLtIsStrictTotalOrder` | car_app_streamlit.py:14-15 | Python's string order, used by `sorted` and by `groupby`'s key order, is irreflexive, transitive and total |
| `Order.SortedUnique` | car_app_streamlit.py:14-16 | `sorted(x.unique())` is strictly sorted, has no repetition, and holds exactly the values of its input |
| `Order.SortedUniqueCardinality` | car_app_streamlit.py:14-16 | the sorted distinct list is as long as the set of values |
| `Metrics.TotalCars` | car_app_streamlit.py:58 | `total_cars` is the number of rows of the filtered view. `UniqueCars` never exceeds it, and both are 0 together |
| `Metrics.UniqueCars` | car_app_streamlit.py:58-62 | `nunique()` of the models is at most `total_cars = len(filtered_df)`. It is 0 exactly when the view is empty, and equals the length of the sorted list of the view's models |
| `Metrics.ToyotaExample` | car_app_streamlit.py:45-62 | a Toyota Corolla and a Ford Focus, filtered on manufacturer "Toyota", leave exactly the Corolla. That gives 1 car and 1 distinct model |
| `Stats.MinOf` | car_app_streamlit.py:135-139 | `min` is the least present value of the column and occurs in it. It is `None` exactly when no value is present |
| `Stats.MaxOf` | car_app_streamlit.py:134-138 | `max` is the greatest present value of the column and occurs in it. It is `None` exactly when no value is present |
| `Stats.ModeAmong` | car_app_streamlit.py:128-130 | among candidate values, picks one that occurs in the candidates. No candidate is more frequent than it. Every other equally frequent candidate is greater |
| `Stats.Mode` | car_app_streamlit.py:128-130 | `most_frequent` returns `None` exactly when the column has no present value. Otherwise it returns a present value of maximal frequency that is smaller than every other value of that frequency |
| `Stats.ModeIsUnique` | car_app_streamlit.py:128-130 | under a strict total order, at most one value meets the `most_frequent` specification |
| `Stats.LeastAtMostGreatest` | car_app_streamlit.py:134-139 | per column, min and max are both present or both missing, and min <= max |
| `Stats.ModeWithinRange` | car_app_streamlit.py:138-140 | the most popular year is present exactly when Min_Year and Max_Year are, and lies between them |
| `TopModelStats.ModelCountIsGroupSize` | car_app_streamlit.py:125-133 | the `value_counts` count of a model equals the size of its `groupby` group |
| `TopModelStats.RankByCount` | car_app_streamlit.py:125 | orders distinct models by non-increasing count, without losing, adding or repeating a model |
| `TopModelStats.ValueCountsIndex` | car_app_streamlit.py:125 | `value_counts().index` holds every model of the table once, in non-increasing count order |
| `TopModelStats.PrefixOfRanking` | car_app_streamlit.py:125 | in a list ranked by count, every model of a prefix counts at least as much as every model after it |
| `TopModelStats.TopModels` | car_app_streamlit.py:125 | `head(50)` keeps min(50, number of distinct models) distinct models. Each kept model occurs in the table. No model left out is more frequent than a kept one |
| `TopModelStats.Aggregate` | car_app_streamlit.py:132-143 | for one model group: Count is the group size. Max/Min of Price, Mileage and Year are the greatest/least present values. The most popular Year, Color and Motor Volume are the modes of their columns. Min <= Max, and Min_Year <= Most_Popular_Year <= Max_Year |
| `TopModelStats.ModelsOfTopRows` | car_app_streamlit.py:126 | after `isin(top_models)`, the remaining models are exactly the top models that occur in the table |
| `TopModelStats.GroupKeys` | car_app_streamlit.py:126-132 | the groupby keys of the top rows are strictly sorted by name, one per top model |
| `TopModelStats.GroupOfTopModel` | car_app_streamlit.py:126-133 | the group of a top model within the top rows holds all rows of that model in the table, at least one |
| `TopModelStats.AggregateTop` | car_app_streamlit.py:126-143 | the aggregate has one row per model of `top`, ordered by name. Each row is the aggregate of all rows of its model, with a count of at least 1 |
| `TopModelStats.GetTopModels` | car_app_streamlit.py:123-144 | `get_top_models_df` has min(50, number of distinct models) rows, strictly ordered by model name, with exactly the top models. Each row aggregates every row of its model, and its Count is the model's count in the input |
| `TopModelStats.TopModelsRanking` | car_app_streamlit.py:125-133 | at most 50 rows. Every row's model occurs in the input. Every row's Count is at least the count of every model left out |
| `TopModelStats.SumOfGroupCounts` | car_app_streamlit.py:133 | counts of distinct models add up to the number of rows of those models |
| `TopModelStats.TopCountsBounded` | car_app_streamlit.py:125-133 | the Count column sums to the number of rows of the top models, which is at most the number of rows of the input |

## Left out

- Loading the CSV from its URL (car_app_streamlit.py:8-9) is network I/O. The table is a parameter.
- Parsing the date text (car_app_streamlit.py:12) is left out: dates are already day numbers.
- Streamlit layout and widgets (car_app_streamlit.py:19-34, 56-67, 149) are UI. The widget selections are parameters.
- Plotly chart construction and rendering (car_app_streamlit.py:75-118) are calls into a foreign library. Only the row cleaning in front of the charts is modelled. The manufacturer sunburst and the date histogram (lines 87, 107) plot the filtered view without any cleaning, so there is nothing of theirs to model.
- The average price (car_app_streamlit.py:66) is a floating-point mean and rounding, and is NaN on an empty view. It is not modelled.
- Floating point: Price, Mileage, Year, Motor Volume and Transmission Speeds are integers. `replace([inf, -inf], nan)` is modelled only by treating non-finite values as missing.
- Stats.MaxOf: an infinite Price, Mileage or Year counts as missing here. `get_top_models_df` does not replace infinities, so pandas `max` returns `inf` for a group holding one, and `-inf` for a group whose only values are `-inf`. The model gives the greatest finite value, or `None`.
- Stats.MinOf: the same gap. pandas `min` returns `-inf` for a group holding one, and `inf` for a group whose only values are `inf`. The model gives the least finite value, or `None`.
- Stats.Mode: `Series.mode()` counts an infinite Year or Motor Volume as a value, and `get_top_models_df` does not replace infinities. So Most_Popular_Year and Most_Popular_Motor_Volume can be `inf` in pandas. The model ignores infinite values when counting.
- Filters.CleanMotor: the `dropna` at car_app_streamlit.py:93 has no `replace` of infinities in front of it, so pandas keeps a row whose Motor Volume is infinite. The model drops it, because it stores an infinite value as missing.
- Filters.CleanTransmission: the same gap for an infinite Transmission Speeds at car_app_streamlit.py:100. pandas keeps the row and the model drops it.
- A missing `Model` or `Manuf` value is not modelled: both are plain strings. A column that mixes missing values with names never gets past lines 14-15: `sorted(...unique().tolist())` compares the float NaN with a string and raises `TypeError`. A column whose values are all missing does not raise there, and is not modelled either.
- A missing date (NaT after the parse at line 12) is not modelled: `date` is a plain day number. In pandas such a row sorts without error at line 16, is kept by `apply_filters` and `apply_bottom_filters` when no date is selected, and counts in `total_cars`, `nunique` and the top-50 aggregate. A date selection drops it unless the selection includes NaT, which `unique_dates` offers as an option because `unique()` keeps missing values and `isin` matches NaT with NaT.
- TopModelStats.ValueCountsIndex: ranks models with equal counts by name. pandas leaves the order among equal counts to its implementation. Every contract about the top 50 holds for any order among ties.
- A filter on car model and a login gate are not part of car_app_streamlit.py, so they are not part of this model.
