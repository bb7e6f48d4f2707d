# Corporate sales dashboard — verified model of its data logic

The dashboard (`sales.py`) is a Streamlit page over one sales table with the
columns State, District, Items Name, Year and Counts. Under its widgets and
charts sit two pieces of logic, modelled here:

* **Page selection.** `st.session_state.current_page` holds one of the labels
  "Introduction", "Visualizations" and "Insights & Ideas". On the first run it
  is set to "Introduction". On every rerun a clicked navigation button
  overwrites it, with Introduction taking precedence over Visualizations, and
  Visualizations over Insights. The stored label then picks the page that is
  rendered. This is modelled as the class `Navigation.Session`, whose field
  `currentPage: Option<string>` is `None` while the key is absent. The
  function `Navigation.AfterRerun` specifies what one rerun stores.
* **Aggregations over the table.** The model takes the table as a
  `seq<Record>` in row order (module `Frame`). Each pandas expression becomes a
  function over that sequence:
  * `len(df)` and `nunique` give the quick stats.
  * `unique()` gives the cascading option lists, with no duplicates and in
    first-appearance order.
  * A boolean mask, a conjunction of column equalities (`Frame.Cond`), gives
    the four-way filter.
  * `groupby(key)['Counts'].sum()` (`GroupBy.Aggregate`) builds a key-sorted
    association list of totals. It is used for the yearly trend; for the
    State x District matrix, where `unstack` leaves missing pairs as NaN,
    modelled as absent map keys; and for the top-5 products, where
    `nlargest(5)` is `GroupBy.NLargest`.

Keys are ordered the way pandas sorts them. Years use integer order. Strings
use Python's code-point lexicographic order (`Ordering.LexLess`). (State,
District) pairs use the lexicographic order on pairs. Each order is proved to
be a strict total order.

Behaviour that the code settles:

* Ties among the top products. `groupby` sorts item names before `nlargest`
  (with `keep='first'`) runs, so of two items with equal totals the one with
  the smaller name ranks first: `nlargest(keep='first')` keeps the earlier
  entry of the name-sorted series. When there are five item groups or fewer,
  pandas orders the result by a sort on the totals instead; the model fixes
  name order for ties in that case too.
* The item options (`sales.py:95`) filter by District only. An item sold under
  a district of the same name in another state is offered even though the
  chosen state never sold it. The model keeps this behaviour, and
  `SampleData.ItemOptionsCrossStates` exhibits it.
* The filter values are parameters. The model does not require them to come
  from the option lists, because the dashboard does not check that either: `sales.py:93-100` passes
  the select-box values straight into the mask.

## Model

| member | source | states |
|---|---|---|
| `Navigation.Session.Rerun` | sales.py:52-61 | keeps the stored value a page label; the new value is `AfterRerun` of the old one and the three click flags |
| `Navigation.AfterRerun` | sales.py:52-61 | after one rerun the stored value is a page label, unless no button was clicked and the old value is kept as it was; specified further by RerunStoresAPage, FirstRunShowsIntroduction, NoClickKeepsPage and ClickPrecedence |
| `Navigation.RerunStoresAPage` | sales.py:52-61 | if the stored value is absent or a page label, it is a page label after any rerun |
| `Navigation.FirstRunShowsIntroduction` | sales.py:52-53 | an unset page with no click becomes "Introduction" |
| `Navigation.NoClickKeepsPage` | sales.py:56-61 | with no button clicked, the stored value is unchanged |
| `Navigation.ClickPrecedence` | sales.py:56-61 | a click decides the page whatever was stored; Introduction beats Visualizations, which beats Insights |
| `Navigation.RerunIdempotent` | sales.py:52-61 | repeating a rerun with the same clicks leaves the value where the first one put it |
| `Navigation.PageOf` | sales.py:64-118 | the if/elif dispatch renders a page exactly when the stored value is one of the three labels, and renders the page with that label |
| `Navigation.LabelRoundTrip` | sales.py:53-61 | each stored label is dispatched back to the page that stored it, so the labels are distinct |
| `Navigation.Session.CurrentView` | sales.py:64-118 | after selection, the rendered page is the one whose label is stored |
| `Dashboard.QuickStats` | sales.py:84-86 | Total Records is the row count; Unique States and Unique Items are the number of distinct values in their column, each at most the row count |
| `Frame.NUnique` | sales.py:85-86 | `nunique` is the cardinality of the set of column values, at most the column length |
| `Frame.Unique` | sales.py:93-96 | `unique()` has no duplicates and holds exactly the values of the column |
| `Frame.UniqueKeepsFirstAppearanceOrder` | sales.py:93-96 | `unique()` lists values in the order of their first occurrence |
| `Dashboard.StateOptions` | sales.py:93 | the state options are the distinct States of the table, without duplicates |
| `Dashboard.DistrictOptions` | sales.py:94 | the district options are exactly the Districts of rows with the chosen State, without duplicates |
| `Dashboard.ItemOptions` | sales.py:95 | the item options are exactly the Items of rows with the chosen District, from any State, without duplicates |
| `Dashboard.YearOptions` | sales.py:96 | the year options are the distinct Years of the table, without duplicates |
| `Dashboard.OptionsInFirstAppearanceOrder` | sales.py:93-96 | each option list is in first-appearance order of the column it is drawn from |
| `Frame.Column` | sales.py:85-86 | `df['col']` has one entry per row, the field of that row, so a value is in the column exactly when some row has it |
| `Frame.Where` | sales.py:99-100 | a row is in a masked selection exactly when it is in the table and the mask holds on it |
| `Frame.PositionsAreMaskTrue` | sales.py:99-100 | the mask's True positions ascend and are exactly the rows on which the mask holds |
| `Frame.WhereSelectsMaskedRows` | sales.py:99-100 | the selection is the table's rows at the True positions, in table order |
| `Dashboard.FilteredData` | sales.py:99-100 | the filtered table has at most the table's rows, and a row is in it exactly when it is in the table and its State, District, Items Name and Year equal the chosen values; order and multiplicity are fixed by FilteredDataSpec |
| `Dashboard.FilteredDataSpec` | sales.py:99-100 | the filtered table is the subsequence of rows whose State, District, Items Name and Year all equal the chosen values |
| `GroupBy.Aggregate` | sales.py:107-108 | a key appears in a grouped sum exactly when some row has it; the totals add up to the Counts sum of all rows |
| `GroupBy.AggregateSpec` | sales.py:107-108 | grouped keys are strictly ascending, and the total under each key is the Counts sum of the rows with that key |
| `Dashboard.YearlyTrend` | sales.py:107-108 | the trend has at most one entry per row of the table, and its totals add up to the Counts sum of the rows matching (state, district, item); specified further by YearlyTrendYears and YearlyTrendTotals |
| `Dashboard.YearlyTrendYears` | sales.py:107-108 | one trend entry per Year among rows matching (state, district, item), with years strictly increasing |
| `Dashboard.YearlyTrendTotals` | sales.py:107-108 | each year's total is the Counts sum of that year's four-way filtered table; the totals add up to the Counts sum of the rows matching (state, district, item) |
| `Dashboard.RegionalSales` | sales.py:124 | every present cell lies on the matrix axes: its State is a row label and its District a column label; specified further by RegionalSalesCellsPresent, RegionalSalesCellTotals and RegionalSalesAxes |
| `Dashboard.RegionalSalesCellsPresent` | sales.py:124 | a cell (s, d) exists exactly when some row has State s and District d; other pairs are absent (NaN) |
| `Dashboard.RegionalSalesCellTotals` | sales.py:124 | a present cell holds the Counts sum of the rows with that State and District |
| `Dashboard.RegionalSalesAxes` | sales.py:124 | the unstacked rows are the distinct States and the columns the distinct Districts, each strictly ascending |
| `Ordering.LexLessIsStrictTotal` | sales.py:134 | `LexLess`, Python's code-point order on `str` used for sorted group keys, is irreflexive, transitive and total |
| `GroupBy.NLargest` | sales.py:134 | `nlargest(n)` returns min(n, number of groups) entries, each taken from the groups |
| `GroupBy.NLargestRanked` | sales.py:134 | returned entries have non-increasing totals, and equal totals keep the sorted key order |
| `GroupBy.NLargestOmitted` | sales.py:134 | every returned entry outranks every entry left out |
| `Dashboard.TopProducts` | sales.py:134 | the chart has at most five entries, each one of the item groups of the table; specified further by TopProductsSize, TopProductsTotals, TopProductsRanked and TopProductsOmitted |
| `Dashboard.TopProductsSize` | sales.py:134 | the chart has min(5, number of distinct items) entries |
| `Dashboard.TopProductsTotals` | sales.py:134 | each entry is an item of the table with its Counts sum over the whole table |
| `Dashboard.TopProductsRanked` | sales.py:134 | totals are non-increasing; ties go to the lexicographically smaller item name |
| `Dashboard.TopProductsOmitted` | sales.py:134 | no omitted item has a larger total than a charted one, and an omitted item with an equal total has a larger name |
| `SampleData.SampleQuickStats` | sales.py:84-86 | on the three-row TN example: 3 records, 1 state, 2 items |
| `SampleData.SampleYearlyTrend` | sales.py:107-108 | on the example: the trend for (TN, Chennai, Rice) is [(2020, 10), (2021, 15)] |
| `SampleData.SampleRegionalSales` | sales.py:124 | on the example: the cells are {(TN, Chennai): 25, (TN, Madurai): 5} |
| `SampleData.SampleTopProducts` | sales.py:134 | on the example: the top products are [(Rice, 25), (Wheat, 5)] |
| `SampleData.ItemOptionsCrossStates` | sales.py:95 | an item sold only in another state's same-named district is offered, and choosing it gives an empty trend |

## Left out

- Loading the spreadsheet from a fixed local path (`sales.py:7-8`) is file I/O; the table is an input sequence.
- Page configuration, CSS, titles, markdown text, `st.dataframe`, the subheaders and the footer (`sales.py:11-39`, `65-80`, `89-90`, `102-103`, `119-123`, `142-151`) are rendering.
- Chart drawing with matplotlib and seaborn, including sizes, colours and annotation formats (`sales.py:111-114`, `127-130`, `137-140`), is presentation behind foreign libraries. `reset_index` only reshapes a result into a two-column frame; a `Group(key, total)` entry stands for one of its rows.
- Button widgets and Streamlit's rerun loop (`sales.py:42-49`): the three click states are boolean parameters of `Session.Rerun`.
- Select boxes (`sales.py:93-96`): the chosen values are parameters and are not constrained to the option lists. The default choice of a select box and its behaviour on an empty list are not modelled.
- Counts is an unbounded integer. Floating-point Counts, NaN arithmetic and overflow of pandas' 64-bit integer sums are not modelled. A missing State x District cell is an absent map key instead of NaN.
- Columns of the table other than the five above are not read by the dashboard and are not modelled.
