/** The dashboard's views computed on small concrete tables. */
module SampleData {
  import opened Frame
  import opened Ordering
  import opened GroupBy
  import opened Dashboard

  /** Three rows: two years of rice in Chennai and one year of wheat in Madurai. */
  function Sample(): seq<Record> {
    [Record("TN", "Chennai", "Rice", 2020, 10),
     Record("TN", "Chennai", "Rice", 2021, 15),
     Record("TN", "Madurai", "Wheat", 2020, 5)]
  }

  lemma SampleQuickStats()
    ensures QuickStats(Sample()) == Stats(3, 1, 2)
  {
    SampleStateSet();
    SampleItemSet();
    assert |{"Rice", "Wheat"}| == 2;
  }

  lemma SampleStateSet()
    ensures (set r | r in Sample() :: r.state) == {"TN"}
  {
    var df := Sample();
    assert df[0] in df;
  }

  lemma SampleItemSet()
    ensures (set r | r in Sample() :: r.item) == {"Rice", "Wheat"}
  {
    var df := Sample();
    assert df[0] in df && df[2] in df;
  }

  lemma SampleYearlyTrend()
    ensures YearlyTrend(Sample(), "TN", "Chennai", "Rice") == [Group(2020, 10), Group(2021, 15)]
  {
    SampleTrendRows();
    TwoYearGroups();
  }

  /** Only the two Chennai rice rows match the trend mask. */
  lemma SampleTrendRows()
    ensures Where(Sample(), TrendMask("TN", "Chennai", "Rice")) == Sample()[..2]
  {
    var df := Sample();
    var m := TrendMask("TN", "Chennai", "Rice");
    SampleTrendMask();
    assert df[..2][..1] == df[..1];
    assert Where(df[..1], m) == df[..1];
    assert Where(df[..2], m) == df[..2];
  }

  lemma SampleTrendMask()
    ensures var df, m := Sample(), TrendMask("TN", "Chennai", "Rice");
      Holds(m, df[0]) && Holds(m, df[1]) && !Holds(m, df[2])
  {
    var df, m := Sample(), TrendMask("TN", "Chennai", "Rice");
    assert Holds(m, df[0]) && Holds(m, df[1]);
    assert DistrictIs("Chennai") in m;
  }

  lemma TwoYearGroups()
    ensures Aggregate(Sample()[..2], YearOf, YearLess) == [Group(2020, 10), Group(2021, 15)]
  {
    var w := Sample()[..2];
    assert w[..1] == Sample()[..1];
    assert Aggregate(w[..1], YearOf, YearLess) == [Group(2020, 10)];
    assert Insert([Group(2020, 10)], 2021, 15, YearLess) == [Group(2020, 10)] + Insert([], 2021, 15, YearLess);
  }

  lemma SampleTopProducts()
    ensures TopProducts(Sample()) == [Group("Rice", 25), Group("Wheat", 5)]
  {
    SampleItemGroups();
    TopOfRiceAndWheat();
  }

  lemma SampleItemGroups()
    ensures Aggregate(Sample(), ItemOf, LexLess) == [Group("Rice", 25), Group("Wheat", 5)]
  {
    var df := Sample();
    assert df[..2][..1] == df[..1];
    assert Aggregate(df[..1], ItemOf, LexLess) == [Group("Rice", 10)];
    assert Aggregate(df[..2], ItemOf, LexLess) == [Group("Rice", 25)];
    assert LexLess("Rice", "Wheat");
    assert Insert([Group("Rice", 25)], "Wheat", 5, LexLess) == [Group("Rice", 25)] + Insert([], "Wheat", 5, LexLess);
  }

  lemma TopOfRiceAndWheat()
    ensures NLargest([Group("Rice", 25), Group("Wheat", 5)], TopCount) == [Group("Rice", 25), Group("Wheat", 5)]
  {
    var g := [Group("Rice", 25), Group("Wheat", 5)];
    assert FirstMax(g) == 0;
    assert Remove(g, 0) == [Group("Wheat", 5)];
    assert NLargest([Group("Wheat", 5)], TopCount - 1) == [Group("Wheat", 5)];
  }

  lemma SampleRegionalSales()
    ensures RegionalSales(Sample()).cells == map[("TN", "Chennai") := 25, ("TN", "Madurai") := 5]
  {
    SampleRegionGroups();
    TwoRegionCells();
  }

  lemma TwoRegionCells()
    ensures var g := [Group(("TN", "Chennai"), 25), Group(("TN", "Madurai"), 5)];
      (map x | x in Keys(g) :: Lookup(g, x)) == map[("TN", "Chennai") := 25, ("TN", "Madurai") := 5]
  {
    var g := [Group(("TN", "Chennai"), 25), Group(("TN", "Madurai"), 5)];
    assert Keys(g) == [("TN", "Chennai"), ("TN", "Madurai")];
    assert Lookup(g, ("TN", "Madurai")) == 5;
  }

  lemma SampleRegionGroups()
    ensures Aggregate(Sample(), RegionOf, RegionLess) == [Group(("TN", "Chennai"), 25), Group(("TN", "Madurai"), 5)]
  {
    var df := Sample();
    assert df[..2][..1] == df[..1];
    assert Aggregate(df[..1], RegionOf, RegionLess) == [Group(("TN", "Chennai"), 10)];
    assert Aggregate(df[..2], RegionOf, RegionLess) == [Group(("TN", "Chennai"), 25)];
    assert LexLess("Chennai", "Madurai");
    assert RegionLess(("TN", "Chennai"), ("TN", "Madurai"));
    assert Insert([Group(("TN", "Chennai"), 25)], ("TN", "Madurai"), 5, RegionLess)
        == [Group(("TN", "Chennai"), 25)] + Insert([], ("TN", "Madurai"), 5, RegionLess);
  }

  /**
    Two states with a district of the same name: the item options for that
    district include an item the chosen state never sold, so choosing it
    yields an empty trend.
  */
  lemma ItemOptionsCrossStates()
    ensures var df := [Record("A", "Central", "Rice", 2020, 1), Record("B", "Central", "Salt", 2020, 2)];
      && "Salt" in ItemOptions(df, "Central")
      && YearlyTrend(df, "A", "Central", "Salt") == []
  {
    var df := [Record("A", "Central", "Rice", 2020, 1), Record("B", "Central", "Salt", 2020, 2)];
    assert df[1] in df;
    var m := TrendMask("A", "Central", "Salt");
    assert !Holds(m, df[0]) by { assert ItemIs("Salt") in m; }
    assert !Holds(m, df[1]) by { assert StateIs("A") in m; }
    assert Where(df, m) == [];
  }
}
