/**
  The data views of the sales dashboard, each a pure function of the loaded
  table: the quick statistics of the introduction page, the cascading
  filter options and filtered table of the visualizations page, the yearly
  sales trend, the State x District sales matrix and the top-5 products.
*/
module Dashboard {
  import opened Frame
  import opened Ordering
  import opened GroupBy

  /** The `n` of `nlargest` in the top-products chart. */
  const TopCount: nat := 5

  // Quick stats

  datatype Stats = Stats(totalRecords: nat, uniqueStates: nat, uniqueItems: nat)

  /** `len(df)`, `df['State'].nunique()` and `df['Items Name'].nunique()`. */
  function QuickStats(df: seq<Record>): (s: Stats)
    ensures s.totalRecords == |df|
    ensures s.uniqueStates == |set r | r in df :: r.state| && s.uniqueStates <= s.totalRecords
    ensures s.uniqueItems == |set r | r in df :: r.item| && s.uniqueItems <= s.totalRecords
  {
    assert (set x | x in Column(df, StateOf)) == (set r | r in df :: r.state);
    assert (set x | x in Column(df, ItemOf)) == (set r | r in df :: r.item);
    Stats(|df|, NUnique(Column(df, StateOf)), NUnique(Column(df, ItemOf)))
  }

  // Cascading filter options

  /** `df['State'].unique()`. */
  function StateOptions(df: seq<Record>): (opts: seq<string>)
    ensures NoDuplicates(opts)
    ensures forall s :: s in opts <==> exists r :: r in df && r.state == s
  {
    Unique(Column(df, StateOf))
  }

  /** `df[df['State'] == state]['District'].unique()`. */
  function DistrictOptions(df: seq<Record>, state: string): (opts: seq<string>)
    ensures NoDuplicates(opts)
    ensures forall d :: d in opts <==> exists r :: r in df && r.state == state && r.district == d
  {
    assert forall r :: Holds([StateIs(state)], r) <==> r.state == state by {
      forall r ensures Holds([StateIs(state)], r) <==> r.state == state {
        assert StateIs(state) in [StateIs(state)];
      }
    }
    Unique(Column(Where(df, [StateIs(state)]), DistrictOf))
  }

  /**
    `df[df['District'] == district]['Items Name'].unique()`: the items sold
    in any district of that name, whatever its state.
  */
  function ItemOptions(df: seq<Record>, district: string): (opts: seq<string>)
    ensures NoDuplicates(opts)
    ensures forall x :: x in opts <==> exists r :: r in df && r.district == district && r.item == x
  {
    assert forall r :: Holds([DistrictIs(district)], r) <==> r.district == district by {
      forall r ensures Holds([DistrictIs(district)], r) <==> r.district == district {
        assert DistrictIs(district) in [DistrictIs(district)];
      }
    }
    Unique(Column(Where(df, [DistrictIs(district)]), ItemOf))
  }

  /** `df['Year'].unique()`. */
  function YearOptions(df: seq<Record>): (opts: seq<int>)
    ensures NoDuplicates(opts)
    ensures forall y :: y in opts <==> exists r :: r in df && r.year == y
  {
    Unique(Column(df, YearOf))
  }

  /**
    Each option list comes in the order in which its values first occur in
    the column it is drawn from.
  */
  lemma OptionsInFirstAppearanceOrder(df: seq<Record>, state: string, district: string)
    ensures var opts, col := StateOptions(df), Column(df, StateOf);
      forall i, j :: 0 <= i < j < |opts| ==> FirstIndex(col, opts[i]) < FirstIndex(col, opts[j])
    ensures var opts, col := DistrictOptions(df, state), Column(Where(df, [StateIs(state)]), DistrictOf);
      forall i, j :: 0 <= i < j < |opts| ==> FirstIndex(col, opts[i]) < FirstIndex(col, opts[j])
    ensures var opts, col := ItemOptions(df, district), Column(Where(df, [DistrictIs(district)]), ItemOf);
      forall i, j :: 0 <= i < j < |opts| ==> FirstIndex(col, opts[i]) < FirstIndex(col, opts[j])
    ensures var opts, col := YearOptions(df), Column(df, YearOf);
      forall i, j :: 0 <= i < j < |opts| ==> FirstIndex(col, opts[i]) < FirstIndex(col, opts[j])
  {
    UniqueKeepsFirstAppearanceOrder(Column(df, StateOf));
    UniqueKeepsFirstAppearanceOrder(Column(Where(df, [StateIs(state)]), DistrictOf));
    UniqueKeepsFirstAppearanceOrder(Column(Where(df, [DistrictIs(district)]), ItemOf));
    UniqueKeepsFirstAppearanceOrder(Column(df, YearOf));
  }

  // The filtered table

  function Selection(state: string, district: string, item: string, year: int): seq<Cond> {
    [StateIs(state), DistrictIs(district), ItemIs(item), YearIs(year)]
  }

  /** The four-way equality filter shown with `st.dataframe`. */
  function FilteredData(df: seq<Record>, state: string, district: string, item: string, year: int): (w: seq<Record>)
    ensures |w| <= |df|
    ensures forall r :: r in w <==>
      r in df && r.state == state && r.district == district && r.item == item && r.year == year
  {
    SelectionMeansEquality(state, district, item, year);
    Where(df, Selection(state, district, item, year))
  }

  /** The selection mask holds on a row exactly when all four columns equal the chosen values. */
  lemma SelectionMeansEquality(state: string, district: string, item: string, year: int)
    ensures forall r :: Holds(Selection(state, district, item, year), r) <==>
      r.state == state && r.district == district && r.item == item && r.year == year
  {
    var m := Selection(state, district, item, year);
    forall r ensures Holds(m, r) <==> r.state == state && r.district == district && r.item == item && r.year == year {
      assert StateIs(state) in m && DistrictIs(district) in m && ItemIs(item) in m && YearIs(year) in m;
    }
  }

  /**
    The filtered table is the subsequence of `df` at the ascending positions
    of exactly the rows whose State, District, Items Name and Year all equal
    the chosen values.
  */
  lemma FilteredDataSpec(df: seq<Record>, state: string, district: string, item: string, year: int)
    ensures var p, w := Positions(df, Selection(state, district, item, year)), FilteredData(df, state, district, item, year);
      && (forall k, l :: 0 <= k < l < |p| ==> p[k] < p[l])
      && (forall i :: 0 <= i < |df| ==>
            (i in p <==> df[i].state == state && df[i].district == district && df[i].item == item && df[i].year == year))
      && |w| == |p|
      && (forall k :: 0 <= k < |p| ==> w[k] == df[p[k]])
  {
    var m := Selection(state, district, item, year);
    PositionsAreMaskTrue(df, m);
    WhereSelectsMaskedRows(df, m);
    SelectionMeansEquality(state, district, item, year);
  }

  // Sums over groups, related to the masks that select the groups

  /** Summing the rows of one key equals summing the rows that a further mask selects. */
  lemma {:induction false} SumForIsMaskedSum<K>(df: seq<Record>, mask: seq<Cond>, key: Record -> K, k: K, extra: seq<Cond>)
    requires forall r :: key(r) == k <==> Holds(extra, r)
    ensures SumFor(Where(df, mask), key, k) == SumCounts(Where(df, mask + extra))
  {
    if df != [] {
      var n := |df| - 1;
      SumForIsMaskedSum(df[..n], mask, key, k, extra);
      SumForWhereStep(df, mask, key, k);
      SumCountsWhereStep(df, mask + extra);
      assert Holds(mask + extra, df[n]) <==> Holds(mask, df[n]) && Holds(extra, df[n]);
    }
  }

  // Yearly trend

  function TrendMask(state: string, district: string, item: string): seq<Cond> {
    [StateIs(state), DistrictIs(district), ItemIs(item)]
  }

  /** `df[(State, District, Items Name) match].groupby('Year')['Counts'].sum()`. */
  function YearlyTrend(df: seq<Record>, state: string, district: string, item: string): (t: seq<Group<int>>)
    ensures |t| <= |df|
    ensures Total(t) == SumCounts(Where(df, TrendMask(state, district, item)))
  {
    Aggregate(Where(df, TrendMask(state, district, item)), YearOf, YearLess)
  }

  /**
    The trend holds one entry per year in which the chosen state, district
    and item had a row, with the years strictly increasing.
  */
  lemma YearlyTrendYears(df: seq<Record>, state: string, district: string, item: string)
    ensures var t := YearlyTrend(df, state, district, item);
      && (forall i, j :: 0 <= i < j < |t| ==> t[i].key < t[j].key)
      && (forall y :: y in Keys(t) <==>
            exists r :: r in df && r.state == state && r.district == district && r.item == item && r.year == y)
  {
    var m := TrendMask(state, district, item);
    YearLessIsStrictTotal();
    AggregateSpec(Where(df, m), YearOf, YearLess);
    forall r ensures Holds(m, r) <==> r.state == state && r.district == district && r.item == item {
      assert StateIs(state) in m && DistrictIs(district) in m && ItemIs(item) in m;
    }
  }

  /**
    Each year's entry is the Counts sum of that year's filtered table, and
    the entries add up to the Counts sum of all rows of the chosen state,
    district and item.
  */
  lemma YearlyTrendTotals(df: seq<Record>, state: string, district: string, item: string)
    ensures var t := YearlyTrend(df, state, district, item);
      && (forall k :: 0 <= k < |t| ==> t[k].total == SumCounts(FilteredData(df, state, district, item, t[k].key)))
      && Total(t) == SumCounts(Where(df, TrendMask(state, district, item)))
  {
    var m := TrendMask(state, district, item);
    var t := YearlyTrend(df, state, district, item);
    YearLessIsStrictTotal();
    AggregateSpec(Where(df, m), YearOf, YearLess);
    forall k | 0 <= k < |t| ensures t[k].total == SumCounts(FilteredData(df, state, district, item, t[k].key)) {
      var y := t[k].key;
      EntryIsLookup(t, YearLess, k);
      forall r ensures YearOf(r) == y <==> Holds([YearIs(y)], r) {
        assert YearIs(y) in [YearIs(y)];
      }
      SumForIsMaskedSum(df, m, YearOf, y, [YearIs(y)]);
      assert m + [YearIs(y)] == Selection(state, district, item, y);
    }
  }

  // Sales by region

  /**
    `groupby(['State', 'District'])['Counts'].sum().unstack()`: rows are the
    sorted states, columns the sorted districts, and a cell is present only
    for a (state, district) pair that has rows (the others are NaN).
  */
  datatype Matrix = Matrix(rows: seq<string>, columns: seq<string>, cells: map<(string, string), int>)

  function RegionalSales(df: seq<Record>): (m: Matrix)
    ensures forall s, d :: (s, d) in m.cells ==> s in m.rows && d in m.columns
  {
    CellsOnAxes(df);
    var g := Aggregate(df, RegionOf, RegionLess);
    Matrix(Keys(Aggregate(df, StateOf, LexLess)),
           Keys(Aggregate(df, DistrictOf, LexLess)),
           map x | x in Keys(g) :: Lookup(g, x))
  }

  /** Every grouped (State, District) pair has its State among the state groups and its District among the district groups. */
  lemma CellsOnAxes(df: seq<Record>)
    ensures forall x :: x in Keys(Aggregate(df, RegionOf, RegionLess)) ==>
      x.0 in Keys(Aggregate(df, StateOf, LexLess)) && x.1 in Keys(Aggregate(df, DistrictOf, LexLess))
  {
    forall x | x in Keys(Aggregate(df, RegionOf, RegionLess))
      ensures x.0 in Keys(Aggregate(df, StateOf, LexLess)) && x.1 in Keys(Aggregate(df, DistrictOf, LexLess))
    {
      var r :| r in df && RegionOf(r) == x;
      assert StateOf(r) == x.0 && DistrictOf(r) == x.1;
    }
  }

  /** A cell (s, d) exists exactly when some row has State s and District d. */
  lemma RegionalSalesCellsPresent(df: seq<Record>)
    ensures var m := RegionalSales(df);
      forall s, d :: (s, d) in m.cells <==> exists r :: r in df && r.state == s && r.district == d
  {
    var m := RegionalSales(df);
    forall s, d ensures (s, d) in m.cells <==> exists r :: r in df && r.state == s && r.district == d {
      RegionGrouped(df, s, d);
    }
  }

  lemma RegionGrouped(df: seq<Record>, s: string, d: string)
    ensures (s, d) in Keys(Aggregate(df, RegionOf, RegionLess)) <==> exists r :: r in df && r.state == s && r.district == d
  {
    if exists r :: r in df && r.state == s && r.district == d {
      var r :| r in df && r.state == s && r.district == d;
      assert RegionOf(r) == (s, d);
    }
    if (s, d) in Keys(Aggregate(df, RegionOf, RegionLess)) {
      var r :| r in df && RegionOf(r) == (s, d);
      assert r.state == s && r.district == d;
    }
  }

  /** A present cell (s, d) holds the Counts sum of the rows with State s and District d. */
  lemma RegionalSalesCellTotals(df: seq<Record>)
    ensures var m := RegionalSales(df);
      forall s, d :: (s, d) in m.cells ==> m.cells[(s, d)] == SumCounts(Where(df, [StateIs(s), DistrictIs(d)]))
  {
    var m := RegionalSales(df);
    forall s, d | (s, d) in m.cells ensures m.cells[(s, d)] == SumCounts(Where(df, [StateIs(s), DistrictIs(d)])) {
      RegionTotal(df, s, d);
    }
  }

  /** The grouped total of (s, d) is the Counts sum of the rows with State s and District d. */
  lemma RegionTotal(df: seq<Record>, s: string, d: string)
    ensures Lookup(Aggregate(df, RegionOf, RegionLess), (s, d)) == SumCounts(Where(df, [StateIs(s), DistrictIs(d)]))
  {
    var extra := [StateIs(s), DistrictIs(d)];
    RegionLessIsStrictTotal();
    AggregateSpec(df, RegionOf, RegionLess);
    WhereEmptyMask(df);
    forall r ensures RegionOf(r) == (s, d) <==> Holds(extra, r) {
      assert StateIs(s) in extra && DistrictIs(d) in extra;
    }
    SumForIsMaskedSum(df, [], RegionOf, (s, d), extra);
    assert [] + extra == extra;
  }

  /**
    The row labels are the distinct states and the column labels the
    distinct districts, each in strictly ascending order.
  */
  lemma RegionalSalesAxes(df: seq<Record>)
    ensures var m := RegionalSales(df);
      && (forall i, j :: 0 <= i < j < |m.rows| ==> LexLess(m.rows[i], m.rows[j]))
      && (forall s :: s in m.rows <==> exists r :: r in df && r.state == s)
      && (forall i, j :: 0 <= i < j < |m.columns| ==> LexLess(m.columns[i], m.columns[j]))
      && (forall d :: d in m.columns <==> exists r :: r in df && r.district == d)
  {
    LexLessIsStrictTotal();
    AggregateSpec(df, StateOf, LexLess);
    AggregateSpec(df, DistrictOf, LexLess);
  }

  // Top products

  /** `df.groupby('Items Name')['Counts'].sum().nlargest(5)`. */
  function TopProducts(df: seq<Record>): (t: seq<Group<string>>)
    ensures |t| <= TopCount
    ensures forall e :: e in t ==> e in Aggregate(df, ItemOf, LexLess)
  {
    NLargest(Aggregate(df, ItemOf, LexLess), TopCount)
  }

  /** The Counts sum of one item over the whole table. */
  function ItemTotal(df: seq<Record>, x: string): int {
    SumCounts(Where(df, [ItemIs(x)]))
  }

  lemma ItemGroupsAreItemTotals(df: seq<Record>)
    ensures var g := Aggregate(df, ItemOf, LexLess);
      && Ascending(g, LexLess)
      && forall k :: 0 <= k < |g| ==> g[k].total == ItemTotal(df, g[k].key)
  {
    var g := Aggregate(df, ItemOf, LexLess);
    LexLessIsStrictTotal();
    AggregateSpec(df, ItemOf, LexLess);
    forall k | 0 <= k < |g| ensures g[k].total == ItemTotal(df, g[k].key) {
      EntryIsLookup(g, LexLess, k);
      ItemTotalOf(df, g[k].key);
    }
  }

  /** The grouped total of an item is its Counts sum over the whole table. */
  lemma ItemTotalOf(df: seq<Record>, x: string)
    ensures Lookup(Aggregate(df, ItemOf, LexLess), x) == ItemTotal(df, x)
  {
    LexLessIsStrictTotal();
    AggregateSpec(df, ItemOf, LexLess);
    WhereEmptyMask(df);
    forall r ensures ItemOf(r) == x <==> Holds([ItemIs(x)], r) {
      assert ItemIs(x) in [ItemIs(x)];
    }
    SumForIsMaskedSum(df, [], ItemOf, x, [ItemIs(x)]);
    assert [] + [ItemIs(x)] == [ItemIs(x)];
  }

  /** The chart shows min(5, number of distinct items) items. */
  lemma TopProductsSize(df: seq<Record>)
    ensures |TopProducts(df)| == if TopCount <= NUnique(Column(df, ItemOf)) then TopCount else NUnique(Column(df, ItemOf))
  {
    var g := Aggregate(df, ItemOf, LexLess);
    LexLessIsStrictTotal();
    AggregateSpec(df, ItemOf, LexLess);
    AscendingKeysDistinct(g, LexLess);
    DistinctCard(Keys(g));
    assert (set x | x in Keys(g)) == (set x | x in Column(df, ItemOf));
  }

  /** Each charted entry is an item of the table and carries that item's total. */
  lemma TopProductsTotals(df: seq<Record>)
    ensures var t := TopProducts(df);
      forall k :: 0 <= k < |t| ==> (exists r :: r in df && r.item == t[k].key) && t[k].total == ItemTotal(df, t[k].key)
  {
    var t := TopProducts(df);
    forall k | 0 <= k < |t| ensures (exists r :: r in df && r.item == t[k].key) && t[k].total == ItemTotal(df, t[k].key) {
      TopProductEntry(df, t[k]);
    }
  }

  lemma TopProductEntry(df: seq<Record>, e: Group<string>)
    requires e in TopProducts(df)
    ensures (exists r :: r in df && r.item == e.key) && e.total == ItemTotal(df, e.key)
  {
    var g := Aggregate(df, ItemOf, LexLess);
    assert e in g;
    var j :| 0 <= j < |g| && g[j] == e;
    LexLessIsStrictTotal();
    AggregateSpec(df, ItemOf, LexLess);
    EntryIsLookup(g, LexLess, j);
    ItemTotalOf(df, e.key);
    assert Keys(g)[j] == e.key;
    assert e.key in Keys(g);
    assert exists r :: r in df && ItemOf(r) == e.key;
    var r :| r in df && ItemOf(r) == e.key;
    assert r.item == e.key;
  }

  /**
    The items are ranked by decreasing total; items with equal totals come
    in ascending name order (`nlargest` keeps the first of the name-sorted
    groups).
  */
  lemma TopProductsRanked(df: seq<Record>)
    ensures var t := TopProducts(df);
      forall i, j :: 0 <= i < j < |t| ==>
        t[i].total > t[j].total || (t[i].total == t[j].total && LexLess(t[i].key, t[j].key))
  {
    ItemGroupsAreItemTotals(df);
    LexLessIsStrictTotal();
    NLargestRanked(Aggregate(df, ItemOf, LexLess), TopCount, LexLess);
  }

  /**
    No item left off the chart has a larger total than a charted item, and
    one with an equal total has a later name.
  */
  lemma TopProductsOmitted(df: seq<Record>)
    ensures var t := TopProducts(df);
      forall x, k :: (exists r :: r in df && r.item == x) && x !in Keys(t) && 0 <= k < |t| ==>
        ItemTotal(df, x) < t[k].total || (ItemTotal(df, x) == t[k].total && LexLess(t[k].key, x))
  {
    var g := Aggregate(df, ItemOf, LexLess);
    var t := TopProducts(df);
    LexLessIsStrictTotal();
    AggregateSpec(df, ItemOf, LexLess);
    NLargestOmitted(g, TopCount, LexLess);
    forall x, k | (exists r :: r in df && r.item == x) && x !in Keys(t) && 0 <= k < |t|
      ensures ItemTotal(df, x) < t[k].total || (ItemTotal(df, x) == t[k].total && LexLess(t[k].key, x))
    {
      var j := ItemGroup(df, x);
      OmittedKeyOutranked(g, t, j, k, LexLess);
    }
  }

  /** The position of an item's group among the grouped totals. */
  lemma ItemGroup(df: seq<Record>, x: string) returns (j: nat)
    requires exists r :: r in df && r.item == x
    ensures var g := Aggregate(df, ItemOf, LexLess);
      j < |g| && g[j].key == x && g[j].total == ItemTotal(df, x)
  {
    var g := Aggregate(df, ItemOf, LexLess);
    var r :| r in df && r.item == x;
    assert ItemOf(r) == x;
    assert x in Keys(g);
    j :| 0 <= j < |g| && Keys(g)[j] == x;
    LexLessIsStrictTotal();
    AggregateSpec(df, ItemOf, LexLess);
    EntryIsLookup(g, LexLess, j);
    ItemTotalOf(df, x);
  }
}
