/**
  The in-memory sales table and the pandas primitives the dashboard applies
  to it: boolean-mask selection, column extraction, `unique`, `nunique` and
  the sum of the Counts column.
*/
module Frame {

  /** One row of the table: the five columns the dashboard reads. */
  datatype Record = Record(state: string, district: string, item: string, year: int, counts: int)

  /** One equality test of a boolean mask, such as `df['State'] == state`. */
  datatype Cond = StateIs(string) | DistrictIs(string) | ItemIs(string) | YearIs(int)

  predicate Satisfies(r: Record, c: Cond) {
    match c
    case StateIs(s) => r.state == s
    case DistrictIs(d) => r.district == d
    case ItemIs(i) => r.item == i
    case YearIs(y) => r.year == y
  }

  /** The conjunction `(c1) & (c2) & ...` of a mask, evaluated on one row. */
  predicate Holds(mask: seq<Cond>, r: Record) {
    forall c :: c in mask ==> Satisfies(r, c)
  }

  /** `df[mask]`: the rows on which the mask holds, in table order. */
  function Where(df: seq<Record>, mask: seq<Cond>): (w: seq<Record>)
    ensures |w| <= |df|
    ensures forall r :: r in w <==> r in df && Holds(mask, r)
  {
    if df == [] then []
    else
      assert df == df[..|df| - 1] + [df[|df| - 1]];
      Where(df[..|df| - 1], mask) + (if Holds(mask, df[|df| - 1]) then [df[|df| - 1]] else [])
  }

  /** The positions at which the boolean mask is True, in ascending order. */
  function Positions(df: seq<Record>, mask: seq<Cond>): (p: seq<nat>)
    ensures forall k :: 0 <= k < |p| ==> p[k] < |df|
  {
    if df == [] then []
    else Positions(df[..|df| - 1], mask) + (if Holds(mask, df[|df| - 1]) then [|df| - 1] else [])
  }

  /** The mask positions ascend and are exactly the rows on which the mask holds. */
  lemma {:induction false} PositionsAreMaskTrue(df: seq<Record>, mask: seq<Cond>)
    ensures var p := Positions(df, mask);
      && (forall k, l :: 0 <= k < l < |p| ==> p[k] < p[l])
      && (forall i :: 0 <= i < |df| ==> (i in p <==> Holds(mask, df[i])))
  {
    if df != [] {
      var n := |df| - 1;
      PositionsAreMaskTrue(df[..n], mask);
      var p', p := Positions(df[..n], mask), Positions(df, mask);
      if Holds(mask, df[n]) {
        assert p == p' + [n];
      } else {
        assert p == p';
      }
      assert n !in p';
      forall i | 0 <= i < |df| ensures i in p <==> Holds(mask, df[i]) {
        if i < n {
          assert df[..n][i] == df[i];
        }
      }
    }
  }

  /**
    Selecting with a mask keeps exactly the rows at the positions where the
    mask is True, and keeps them in table order: together with
    PositionsAreMaskTrue, the result is the subsequence of `df` picked out
    by the ascending list of those positions.
  */
  lemma {:induction false} WhereSelectsMaskedRows(df: seq<Record>, mask: seq<Cond>)
    ensures var p := Positions(df, mask);
      && |Where(df, mask)| == |p|
      && (forall k :: 0 <= k < |p| ==> Where(df, mask)[k] == df[p[k]])
  {
    if df != [] {
      var n := |df| - 1;
      var rest := df[..n];
      WhereSelectsMaskedRows(rest, mask);
      var p', w' := Positions(rest, mask), Where(rest, mask);
      var p, w := Positions(df, mask), Where(df, mask);
      if Holds(mask, df[n]) {
        assert p == p' + [n] && w == w' + [df[n]];
      } else {
        assert p == p' && w == w';
      }
      forall k | 0 <= k < |p| ensures w[k] == df[p[k]] {
        if k < |p'| {
          assert w[k] == w'[k] == rest[p'[k]];
        }
      }
    }
  }

  /** A mask with no conditions selects the whole table. */
  lemma {:induction false} WhereEmptyMask(df: seq<Record>)
    ensures Where(df, []) == df
  {
    if df != [] {
      var n := |df| - 1;
      var rest := df[..n];
      assert Holds([], df[n]);
      calc {
        Where(df, []);
        Where(rest, []) + [df[n]];
        { WhereEmptyMask(rest); }
        rest + [df[n]];
        df;
      }
    }
  }

  /** `df['Counts'].sum()`; zero on an empty table. */
  function SumCounts(rows: seq<Record>): int {
    if rows == [] then 0 else SumCounts(rows[..|rows| - 1]) + rows[|rows| - 1].counts
  }

  lemma SumCountsAppend(rows: seq<Record>, r: Record)
    ensures SumCounts(rows + [r]) == SumCounts(rows) + r.counts
  {
    assert (rows + [r])[..|rows|] == rows;
  }

  /** A column of the table as a pandas Series, such as `df['State']`. */
  function Column<T(!new)>(df: seq<Record>, field: Record -> T): (c: seq<T>)
    ensures |c| == |df|
    ensures forall i :: 0 <= i < |df| ==> c[i] == field(df[i])
    ensures forall x :: x in c <==> exists r :: r in df && field(r) == x
  {
    if df == [] then []
    else
      assert df == df[..|df| - 1] + [df[|df| - 1]];
      Column(df[..|df| - 1], field) + [field(df[|df| - 1])]
  }

  /** The Counts sum of a selection grows by the last row exactly when the mask holds on it. */
  lemma SumCountsWhereStep(df: seq<Record>, mask: seq<Cond>)
    requires df != []
    ensures SumCounts(Where(df, mask)) ==
      SumCounts(Where(df[..|df| - 1], mask)) + (if Holds(mask, df[|df| - 1]) then df[|df| - 1].counts else 0)
  {
    var w' := Where(df[..|df| - 1], mask);
    if Holds(mask, df[|df| - 1]) {
      SumCountsAppend(w', df[|df| - 1]);
    } else {
      assert Where(df, mask) == w';
    }
  }

  // Row accessors: the fields passed to Column and used as grouping keys.

  function StateOf(r: Record): string { r.state }
  function DistrictOf(r: Record): string { r.district }
  function ItemOf(r: Record): string { r.item }
  function YearOf(r: Record): int { r.year }
  function RegionOf(r: Record): (string, string) { (r.state, r.district) }

  predicate NoDuplicates<T(==)>(s: seq<T>) {
    forall i, j :: 0 <= i < j < |s| ==> s[i] != s[j]
  }

  /** The index of the first occurrence of `x` in `xs`. */
  function FirstIndex<T(==)>(xs: seq<T>, x: T): (i: nat)
    requires x in xs
    ensures i < |xs| && xs[i] == x && x !in xs[..i]
  {
    if xs[0] == x then 0
    else
      var j := FirstIndex(xs[1..], x);
      assert xs[..j + 1] == [xs[0]] + xs[1..][..j];
      1 + j
  }

  lemma {:induction false} FirstIndexExtend<T>(xs: seq<T>, y: T, x: T)
    requires x in xs
    ensures FirstIndex(xs + [y], x) == FirstIndex(xs, x)
  {
    if xs[0] != x {
      assert (xs + [y])[1..] == xs[1..] + [y];
      FirstIndexExtend(xs[1..], y, x);
    }
  }

  /**
    `Series.unique()`: the distinct values of a column in order of first
    appearance.
  */
  function Unique<T(==,!new)>(xs: seq<T>): (u: seq<T>)
    ensures NoDuplicates(u)
    ensures forall x :: x in u <==> x in xs
  {
    if xs == [] then []
    else
      var u := Unique(xs[..|xs| - 1]);
      assert xs == xs[..|xs| - 1] + [xs[|xs| - 1]];
      if xs[|xs| - 1] in u then u else u + [xs[|xs| - 1]]
  }

  /** The values returned by `unique()` come in the order in which they first occur. */
  lemma {:induction false} UniqueKeepsFirstAppearanceOrder<T(!new)>(xs: seq<T>)
    ensures forall i, j :: 0 <= i < j < |Unique(xs)| ==> FirstIndex(xs, Unique(xs)[i]) < FirstIndex(xs, Unique(xs)[j])
  {
    if xs != [] {
      var n := |xs| - 1;
      var rest, last := xs[..n], xs[n];
      assert xs == rest + [last];
      UniqueKeepsFirstAppearanceOrder(rest);
      var u' := Unique(rest);
      forall x | x in u'
        ensures FirstIndex(xs, x) == FirstIndex(rest, x)
      {
        FirstIndexExtend(rest, last, x);
      }
      if last !in u' {
        var k := FirstIndex(xs, last);
        assert last !in rest;
        assert k == n;
      }
    }
  }

  lemma {:induction false} CardAtMostLength<T>(s: seq<T>)
    ensures |set x | x in s| <= |s|
  {
    if s != [] {
      var rest := s[..|s| - 1];
      CardAtMostLength(rest);
      assert s == rest + [s[|s| - 1]];
      assert (set x | x in s) == (set x | x in rest) + {s[|s| - 1]};
    }
  }

  lemma {:induction false} DistinctCard<T>(s: seq<T>)
    requires NoDuplicates(s)
    ensures |set x | x in s| == |s|
  {
    if s != [] {
      var rest := s[..|s| - 1];
      assert NoDuplicates(rest);
      DistinctCard(rest);
      assert s == rest + [s[|s| - 1]];
      assert s[|s| - 1] !in rest;
      assert (set x | x in s) == (set x | x in rest) + {s[|s| - 1]};
    }
  }

  /**
    `Series.nunique()`: the number of distinct values of a column, which is
    never more than the number of rows.
  */
  function NUnique<T(==,!new)>(xs: seq<T>): (n: nat)
    ensures n == |set x | x in xs|
    ensures n <= |xs|
  {
    var u := Unique(xs);
    DistinctCard(u);
    CardAtMostLength(xs);
    assert (set x | x in u) == (set x | x in xs);
    |u|
  }
}
