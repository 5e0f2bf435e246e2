/** Strict total orders, and the two orders the dashboard sorts by: integers
    (years, months, ages) and text compared code point by code point, which is
    how Python's `sorted` and pandas' `groupby` order `str` values. */
module Orders {

  /** `less` is a strict total order: irreflexive, transitive, and any two
      distinct values are comparable. */
  ghost predicate StrictTotalOrder<K(!new)>(less: (K, K) -> bool) {
    && (forall a :: !less(a, a))
    && (forall a, b, c :: less(a, b) && less(b, c) ==> less(a, c))
    && (forall a, b :: a != b ==> less(a, b) || less(b, a))
  }

  /** The order of integer columns (`ano`, `mes`, `idade`). */
  function IntLess(a: int, b: int): bool {
    a < b
  }

  /** The order of text columns: lexicographic by code point, a proper prefix
      coming first. */
  function TextLess(a: string, b: string): bool {
    if |a| == 0 then |b| > 0
    else if |b| == 0 then false
    else if a[0] != b[0] then a[0] < b[0]
    else TextLess(a[1..], b[1..])
  }

  lemma IntLessIsStrictTotal()
    ensures StrictTotalOrder(IntLess)
  {
  }

  lemma {:induction false} TextLessIrreflexive(a: string)
    ensures !TextLess(a, a)
  {
    if |a| > 0 {
      TextLessIrreflexive(a[1..]);
    }
  }

  lemma {:induction false} TextLessTransitive(a: string, b: string, c: string)
    requires TextLess(a, b) && TextLess(b, c)
    ensures TextLess(a, c)
  {
    if |a| > 0 && a[0] == b[0] && b[0] == c[0] {
      TextLessTransitive(a[1..], b[1..], c[1..]);
    }
  }

  lemma {:induction false} TextLessTotal(a: string, b: string)
    requires a != b
    ensures TextLess(a, b) || TextLess(b, a)
  {
    if |a| > 0 && |b| > 0 && a[0] == b[0] {
      assert a == [a[0]] + a[1..] && b == [b[0]] + b[1..];
      TextLessTotal(a[1..], b[1..]);
    }
  }

  /** Text comparison is a strict total order, so sorting text keys is well defined. */
  lemma TextLessIsStrictTotal()
    ensures StrictTotalOrder(TextLess)
  {
    forall a | true
      ensures !TextLess(a, a)
    {
      TextLessIrreflexive(a);
    }
    forall a, b, c | TextLess(a, b) && TextLess(b, c)
      ensures TextLess(a, c)
    {
      TextLessTransitive(a, b, c);
    }
    forall a, b | a != b
      ensures TextLess(a, b) || TextLess(b, a)
    {
      TextLessTotal(a, b);
    }
  }
}
