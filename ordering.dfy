/**
  The key orders pandas uses when `groupby` sorts its keys: numeric order on
  years, code-point lexicographic order on strings (Python's `str` order),
  and the lexicographic order on (State, District) pairs of a MultiIndex.
*/
module Ordering {

  ghost predicate IsStrictTotalOrder<K(!new)>(less: (K, K) -> bool) {
    && (forall a :: !less(a, a))
    && (forall a, b, c :: less(a, b) && less(b, c) ==> less(a, c))
    && (forall a, b :: a == b || less(a, b) || less(b, a))
  }

  predicate YearLess(a: int, b: int) {
    a < b
  }

  /** Python's `a < b` on strings: compare character codes, a proper prefix comes first. */
  predicate LexLess(a: string, b: string) {
    if |a| == 0 then |b| > 0
    else if |b| == 0 then false
    else if a[0] != b[0] then a[0] < b[0]
    else LexLess(a[1..], b[1..])
  }

  /** The order of a sorted two-level (State, District) index. */
  predicate RegionLess(a: (string, string), b: (string, string)) {
    LexLess(a.0, b.0) || (a.0 == b.0 && LexLess(a.1, b.1))
  }

  lemma YearLessIsStrictTotal()
    ensures IsStrictTotalOrder(YearLess)
  {
  }

  lemma {:induction false} LexIrreflexive(a: string)
    ensures !LexLess(a, a)
  {
    if |a| > 0 {
      LexIrreflexive(a[1..]);
    }
  }

  lemma {:induction false} LexTransitive(a: string, b: string, c: string)
    requires LexLess(a, b) && LexLess(b, c)
    ensures LexLess(a, c)
  {
    if |a| > 0 && a[0] == b[0] && b[0] == c[0] {
      LexTransitive(a[1..], b[1..], c[1..]);
    }
  }

  lemma {:induction false} LexTrichotomous(a: string, b: string)
    ensures a == b || LexLess(a, b) || LexLess(b, a)
  {
    if |a| > 0 && |b| > 0 && a[0] == b[0] {
      LexTrichotomous(a[1..], b[1..]);
      assert a == [a[0]] + a[1..] && b == [b[0]] + b[1..];
    }
  }

  lemma LexLessIsStrictTotal()
    ensures IsStrictTotalOrder(LexLess)
  {
    forall a ensures !LexLess(a, a) {
      LexIrreflexive(a);
    }
    forall a, b, c | LexLess(a, b) && LexLess(b, c) ensures LexLess(a, c) {
      LexTransitive(a, b, c);
    }
    forall a, b ensures a == b || LexLess(a, b) || LexLess(b, a) {
      LexTrichotomous(a, b);
    }
  }

  lemma RegionLessIsStrictTotal()
    ensures IsStrictTotalOrder(RegionLess)
  {
    LexLessIsStrictTotal();
  }
}
