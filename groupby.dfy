/**
  `df.groupby(key)['Counts'].sum()` and `Series.nlargest(n)`.

  A grouped sum is an association list of (key, total) entries whose keys
  are strictly ascending, which is what pandas produces with its default
  `sort=True`.
*/
module GroupBy {
  import opened Frame
  import opened Ordering

  datatype Group<K> = Group(key: K, total: int)

  function Keys<K>(g: seq<Group<K>>): (ks: seq<K>)
    ensures |ks| == |g| && forall i :: 0 <= i < |g| ==> ks[i] == g[i].key
  {
    if g == [] then [] else [g[0].key] + Keys(g[1..])
  }

  lemma KeyOfMember<K>(g: seq<Group<K>>, e: Group<K>)
    ensures e in g ==> e.key in Keys(g)
  {
    if e in g {
      var j :| 0 <= j < |g| && g[j] == e;
      assert Keys(g)[j] == e.key;
    }
  }

  /** The sum of the `total` column of a grouped result. */
  function Total<K>(g: seq<Group<K>>): int {
    if g == [] then 0 else g[0].total + Total(g[1..])
  }

  /** The total stored under key `x`, or 0 when `x` is not a key. */
  function Lookup<K(==)>(g: seq<Group<K>>, x: K): int {
    if g == [] then 0 else if g[0].key == x then g[0].total else Lookup(g[1..], x)
  }

  ghost predicate Ascending<K>(g: seq<Group<K>>, less: (K, K) -> bool) {
    forall i, j :: 0 <= i < j < |g| ==> less(g[i].key, g[j].key)
  }

  /** The sum of Counts over the rows whose key is `k`: the reference for one group. */
  function SumFor<K(==)>(rows: seq<Record>, key: Record -> K, k: K): int {
    if rows == [] then 0
    else SumFor(rows[..|rows| - 1], key, k) + (if key(rows[|rows| - 1]) == k then rows[|rows| - 1].counts else 0)
  }

  lemma SumForAppend<K>(rows: seq<Record>, r: Record, key: Record -> K, k: K)
    ensures SumFor(rows + [r], key, k) == SumFor(rows, key, k) + (if key(r) == k then r.counts else 0)
  {
    assert (rows + [r])[..|rows|] == rows;
  }

  lemma SumForWhereStep<K>(df: seq<Record>, mask: seq<Cond>, key: Record -> K, k: K)
    requires df != []
    ensures var last := df[|df| - 1];
      SumFor(Where(df, mask), key, k) ==
      SumFor(Where(df[..|df| - 1], mask), key, k) + (if Holds(mask, last) && key(last) == k then last.counts else 0)
  {
    var w' := Where(df[..|df| - 1], mask);
    if Holds(mask, df[|df| - 1]) {
      SumForAppend(w', df[|df| - 1], key, k);
    } else {
      assert Where(df, mask) == w';
    }
  }

  /** Adds `c` to the group of key `k`, opening that group at its sorted place if it is new. */
  function Insert<K(==,!new)>(g: seq<Group<K>>, k: K, c: int, less: (K, K) -> bool): (r: seq<Group<K>>)
    ensures |r| <= |g| + 1
    ensures forall x :: x in Keys(r) <==> x in Keys(g) || x == k
    ensures Total(r) == Total(g) + c
  {
    if g == [] then [Group(k, c)]
    else if g[0].key == k then [Group(k, g[0].total + c)] + g[1..]
    else if less(k, g[0].key) then [Group(k, c)] + g
    else [g[0]] + Insert(g[1..], k, c, less)
  }

  lemma LookupAbsent<K>(g: seq<Group<K>>, x: K)
    requires x !in Keys(g)
    ensures Lookup(g, x) == 0
  {
  }

  lemma {:induction false} InsertLookup<K(!new)>(g: seq<Group<K>>, k: K, c: int, less: (K, K) -> bool, x: K)
    requires IsStrictTotalOrder(less) && Ascending(g, less)
    ensures Lookup(Insert(g, k, c, less), x) == Lookup(g, x) + (if x == k then c else 0)
  {
    if g != [] && g[0].key != k {
      if less(k, g[0].key) {
        if x == k {
          assert forall j :: 0 <= j < |g| ==> less(k, g[j].key);
          LookupAbsent(g, k);
        }
      } else if x != g[0].key {
        InsertLookup(g[1..], k, c, less, x);
      }
    }
  }

  lemma {:induction false} InsertAscending<K(!new)>(g: seq<Group<K>>, k: K, c: int, less: (K, K) -> bool)
    requires IsStrictTotalOrder(less) && Ascending(g, less)
    ensures Ascending(Insert(g, k, c, less), less)
  {
    if g != [] && g[0].key != k {
      var r := Insert(g, k, c, less);
      if less(k, g[0].key) {
        assert forall j :: 0 < j < |r| ==> less(k, r[j].key);
      } else {
        var tail := Insert(g[1..], k, c, less);
        InsertAscending(g[1..], k, c, less);
        assert less(g[0].key, k);
        forall j | 0 <= j < |tail| ensures less(g[0].key, tail[j].key) {
          assert tail[j].key in Keys(tail);
        }
      }
    }
  }

  /** `rows.groupby(key)['Counts'].sum()`, with keys in the order `less`. */
  function Aggregate<K(==,!new)>(rows: seq<Record>, key: Record -> K, less: (K, K) -> bool): (g: seq<Group<K>>)
    ensures |g| <= |rows|
    ensures forall x :: x in Keys(g) <==> exists r :: r in rows && key(r) == x
    ensures Total(g) == SumCounts(rows)
  {
    if rows == [] then []
    else
      var n := |rows| - 1;
      var prev := Aggregate(rows[..n], key, less);
      assert rows == rows[..n] + [rows[n]];
      Insert(prev, key(rows[n]), rows[n].counts, less)
  }

  /**
    The grouped result keys are strictly ascending, and the total under each
    key is the sum of Counts over exactly the rows with that key.
  */
  lemma {:induction false} AggregateSpec<K(!new)>(rows: seq<Record>, key: Record -> K, less: (K, K) -> bool)
    requires IsStrictTotalOrder(less)
    ensures Ascending(Aggregate(rows, key, less), less)
    ensures forall x :: Lookup(Aggregate(rows, key, less), x) == SumFor(rows, key, x)
  {
    if rows != [] {
      var n := |rows| - 1;
      AggregateSpec(rows[..n], key, less);
      var prev := Aggregate(rows[..n], key, less);
      InsertAscending(prev, key(rows[n]), rows[n].counts, less);
      forall x ensures Lookup(Aggregate(rows, key, less), x) == SumFor(rows, key, x) {
        InsertLookup(prev, key(rows[n]), rows[n].counts, less, x);
      }
    }
  }

  /** In an ascending result each key occurs once, so its entry holds the key's whole total. */
  lemma {:induction false} EntryIsLookup<K(!new)>(g: seq<Group<K>>, less: (K, K) -> bool, i: nat)
    requires IsStrictTotalOrder(less) && Ascending(g, less) && i < |g|
    ensures Lookup(g, g[i].key) == g[i].total
  {
    if i > 0 {
      assert less(g[0].key, g[i].key);
      assert Ascending(g[1..], less);
      EntryIsLookup(g[1..], less, i - 1);
    }
  }

  lemma AscendingKeysDistinct<K(!new)>(g: seq<Group<K>>, less: (K, K) -> bool)
    requires IsStrictTotalOrder(less) && Ascending(g, less)
    ensures NoDuplicates(Keys(g))
  {
    forall i, j | 0 <= i < j < |g| ensures Keys(g)[i] != Keys(g)[j] {
      assert less(g[i].key, g[j].key);
    }
  }

  // nlargest

  /** The position of the first entry with the largest total. */
  function FirstMax<K>(g: seq<Group<K>>): (i: nat)
    requires |g| > 0
    ensures i < |g|
    ensures forall j :: 0 <= j < |g| ==> g[j].total <= g[i].total
    ensures forall j :: 0 <= j < i ==> g[j].total < g[i].total
  {
    if |g| == 1 then 0
    else
      var m := FirstMax(g[1..]) + 1;
      if g[0].total >= g[m].total then 0 else m
  }

  function Remove<K>(g: seq<Group<K>>, i: nat): (r: seq<Group<K>>)
    requires i < |g|
    ensures |r| == |g| - 1
  {
    g[..i] + g[i + 1..]
  }

  /** Removing position `i` shifts every later entry down by one. */
  lemma RemoveShifts<K>(g: seq<Group<K>>, i: nat)
    requires i < |g|
    ensures forall j :: 0 <= j < |g| - 1 ==> Remove(g, i)[j] == (if j < i then g[j] else g[j + 1])
  {
    var r := Remove(g, i);
    assert r == g[..i] + g[i + 1..];
    forall j | 0 <= j < |g| - 1 ensures r[j] == (if j < i then g[j] else g[j + 1]) {
      if j >= i {
        assert r[j] == g[i + 1..][j - i];
      }
    }
  }

  /**
    `a` is ranked above `b` by `nlargest(keep='first')`: a larger total, or
    an equal total and an earlier key.
  */
  predicate Outranks<K>(a: Group<K>, b: Group<K>, less: (K, K) -> bool) {
    a.total > b.total || (a.total == b.total && less(a.key, b.key))
  }

  /** `Series.nlargest(n)`: repeatedly take the first entry with the largest remaining total. */
  function NLargest<K>(g: seq<Group<K>>, n: nat): (r: seq<Group<K>>)
    ensures |r| == if n <= |g| then n else |g|
    ensures forall x :: x in r ==> x in g
    decreases n
  {
    if n == 0 || g == [] then []
    else
      var i := FirstMax(g);
      var rest := NLargest(Remove(g, i), n - 1);
      RemoveShifts(g, i);
      assert forall x :: x in Remove(g, i) ==> x in g;
      [g[i]] + rest
  }

  lemma RemoveAscending<K>(g: seq<Group<K>>, i: nat, less: (K, K) -> bool)
    requires i < |g| && Ascending(g, less)
    ensures Ascending(Remove(g, i), less)
  {
    var r := Remove(g, i);
    RemoveShifts(g, i);
    forall a, b | 0 <= a < b < |r| ensures less(r[a].key, r[b].key) {
      var a', b' := if a < i then a else a + 1, if b < i then b else b + 1;
      assert r[a] == g[a'] && r[b] == g[b'];
    }
  }

  /** The first maximum outranks every other entry of an ascending result. */
  lemma FirstMaxOutranks<K>(g: seq<Group<K>>, less: (K, K) -> bool)
    requires |g| > 0 && Ascending(g, less)
    ensures forall x :: x in Remove(g, FirstMax(g)) ==> Outranks(g[FirstMax(g)], x, less)
  {
    forall x | x in Remove(g, FirstMax(g)) ensures Outranks(g[FirstMax(g)], x, less) {
      FirstMaxOutranksOne(g, less, x);
    }
  }

  lemma FirstMaxOutranksOne<K>(g: seq<Group<K>>, less: (K, K) -> bool, x: Group<K>)
    requires |g| > 0 && Ascending(g, less) && x in Remove(g, FirstMax(g))
    ensures Outranks(g[FirstMax(g)], x, less)
  {
    var i := FirstMax(g);
    var r := Remove(g, i);
    RemoveShifts(g, i);
    var j :| 0 <= j < |r| && r[j] == x;
    if j >= i {
      assert less(g[i].key, g[j + 1].key);
    }
  }

  lemma RemoveKeepsOthers<K>(g: seq<Group<K>>, i: nat, e: Group<K>)
    requires i < |g| && e in g && e != g[i]
    ensures e in Remove(g, i)
  {
    var j :| 0 <= j < |g| && g[j] == e;
    RemoveShifts(g, i);
    assert Remove(g, i)[if j < i then j else j - 1] == e;
  }

  /** The entries `nlargest` returns are ranked in order. */
  lemma {:induction false} NLargestRanked<K>(g: seq<Group<K>>, n: nat, less: (K, K) -> bool)
    requires Ascending(g, less)
    ensures forall i, j :: 0 <= i < j < |NLargest(g, n)| ==> Outranks(NLargest(g, n)[i], NLargest(g, n)[j], less)
    decreases n
  {
    if n > 0 && g != [] {
      var i := FirstMax(g);
      var rest := Remove(g, i);
      var r := NLargest(g, n);
      var t := NLargest(rest, n - 1);
      assert r == [g[i]] + t;
      RemoveAscending(g, i, less);
      NLargestRanked(rest, n - 1, less);
      FirstMaxOutranks(g, less);
      forall a, b | 0 <= a < b < |r| ensures Outranks(r[a], r[b], less) {
        assert r[b] == t[b - 1] && t[b - 1] in t;
        if a > 0 {
          assert r[a] == t[a - 1];
        }
      }
    }
  }

  /** Every entry `nlargest` leaves out is outranked by every entry it returns. */
  lemma NLargestOmitted<K>(g: seq<Group<K>>, n: nat, less: (K, K) -> bool)
    requires Ascending(g, less)
    ensures forall e, f :: e in g && e !in NLargest(g, n) && f in NLargest(g, n) ==> Outranks(f, e, less)
  {
    forall e, f | e in g && e !in NLargest(g, n) && f in NLargest(g, n) ensures Outranks(f, e, less) {
      OmittedOutranked(g, n, NLargest(g, n), less, e, f);
    }
  }

  /** One omitted entry `e` is outranked by one returned entry `f` of `t`, the result of `nlargest`. */
  lemma {:induction false} OmittedOutranked<K>(g: seq<Group<K>>, n: nat, t: seq<Group<K>>, less: (K, K) -> bool, e: Group<K>, f: Group<K>)
    requires Ascending(g, less) && t == NLargest(g, n)
    requires e in g && e !in t && f in t
    ensures Outranks(f, e, less)
    decreases n, 1
  {
    var i := FirstMax(g);
    var t' := NLargest(Remove(g, i), n - 1);
    assert t == [g[i]] + t';
    RemoveKeepsOthers(g, i, e);
    if f == g[i] {
      FirstMaxOutranksOne(g, less, e);
    } else {
      OmittedInRest(g, i, n, t', less, e, f);
    }
  }

  /** The case where `f` was picked after the first maximum, at position `i`, was removed. */
  lemma {:induction false} OmittedInRest<K>(g: seq<Group<K>>, i: nat, n: nat, t: seq<Group<K>>, less: (K, K) -> bool, e: Group<K>, f: Group<K>)
    requires i < |g| && n > 0 && Ascending(g, less) && t == NLargest(Remove(g, i), n - 1)
    requires e in Remove(g, i) && e !in t && f in t
    ensures Outranks(f, e, less)
    decreases n, 0
  {
    RemoveAscending(g, i, less);
    OmittedOutranked(Remove(g, i), n - 1, t, less, e, f);
  }

  /** A group whose key is missing from `t` is outranked by every entry of `t`, given the omitted-entry property. */
  lemma OmittedKeyOutranked<K>(g: seq<Group<K>>, t: seq<Group<K>>, j: nat, k: nat, less: (K, K) -> bool)
    requires forall e, f :: e in g && e !in t && f in t ==> Outranks(f, e, less)
    requires j < |g| && g[j].key !in Keys(t) && k < |t|
    ensures Outranks(t[k], g[j], less)
  {
    KeyOfMember(t, g[j]);
    assert t[k] in t;
  }
}
