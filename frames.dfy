/** The pandas operations the dashboard chains together, over a table seen as a
    sequence of rows and its columns as projections of a row:

    - `Select`: `df[df[col] == value]`, or the whole frame when the dropdown
      holds the "Todos" sentinel;
    - `GroupSum`: `df.groupby(key, as_index=False).agg({measure: "sum"})`,
      one row per distinct non-NaN key, keys ascending;
    - `SortByMeasure`: `.sort_values(measure)`;
    - `SortedUnique`: `sorted(df[col].dropna().unique())`.

    A cell that pandas holds as NaN is `None`. */
module Frames {
  import opened Orders

  datatype Option<T> = None | Some(value: T)

  /** The value of a filter dropdown: the "Todos" sentinel, or one value of the
      filtered column. */
  datatype Selection<V> = Todos | Only(value: V)

  /** One row of a group-by-sum result: a key and the measure summed over its rows. */
  datatype Group<K> = Group(key: K, total: int)

  /*
   * Filtering
   */

  /** Does a row whose filtered column holds `cell` pass the selection?
      A NaN cell never equals a selected value. */
  predicate Passes<V(==)>(sel: Selection<V>, cell: Option<V>) {
    sel.Todos? || cell == Some(sel.value)
  }

  /** `df[df[col] == v]`: the rows whose column equals `v`, in their order. */
  function Where<R(==,!new), V(==)>(rows: seq<R>, col: R -> Option<V>, v: V): (r: seq<R>)
    ensures forall x :: multiset(r)[x] == if col(x) == Some(v) then multiset(rows)[x] else 0
    decreases |rows|
  {
    if |rows| == 0 then []
    else
      var init, last := rows[..|rows| - 1], rows[|rows| - 1];
      assert rows == init + [last];
      var kept := Where(init, col, v);
      if col(last) == Some(v) then kept + [last] else kept
  }

  /** The frame a callback aggregates: the whole table for "Todos", otherwise
      the rows whose filtered column equals the selection. */
  function Select<R(==,!new), V(==)>(rows: seq<R>, col: R -> Option<V>, sel: Selection<V>): (r: seq<R>)
    ensures sel.Todos? ==> r == rows
    ensures forall x :: multiset(r)[x] == if Passes(sel, col(x)) then multiset(rows)[x] else 0
  {
    if sel.Todos? then rows else Where(rows, col, sel.value)
  }

  /** Filtering distributes over concatenation, so it keeps the rows' order. */
  lemma {:induction false} WhereAppend<R(!new), V>(a: seq<R>, b: seq<R>, col: R -> Option<V>, v: V)
    ensures Where(a + b, col, v) == Where(a, col, v) + Where(b, col, v)
    decreases |b|
  {
    if |b| == 0 {
      assert a + b == a;
    } else {
      var init, last := b[..|b| - 1], b[|b| - 1];
      assert (a + b)[..|a + b| - 1] == a + init;
      assert (a + b)[|a + b| - 1] == last;
      WhereAppend(a, init, col, v);
    }
  }

  /*
   * Group-by with sum
   */

  /** The keys present in `rows`; NaN keys are excluded, as `groupby` drops them. */
  ghost function KeysOf<R, K>(rows: seq<R>, keyCol: R -> Option<K>): set<K> {
    set x | x in rows && keyCol(x).Some? :: keyCol(x).value
  }

  /** Sum of the measure over the rows whose key is `k`. */
  ghost function SumOver<R, K>(rows: seq<R>, keyCol: R -> Option<K>, measure: R -> int, k: K): int
    decreases |rows|
  {
    if |rows| == 0 then 0
    else
      var last := rows[|rows| - 1];
      SumOver(rows[..|rows| - 1], keyCol, measure, k) + (if keyCol(last) == Some(k) then measure(last) else 0)
  }

  /** Sum of the measure over the rows that have a (non-NaN) key. */
  ghost function KeyedSum<R, K>(rows: seq<R>, keyCol: R -> Option<K>, measure: R -> int): int
    decreases |rows|
  {
    if |rows| == 0 then 0
    else
      var last := rows[|rows| - 1];
      KeyedSum(rows[..|rows| - 1], keyCol, measure) + (if keyCol(last).Some? then measure(last) else 0)
  }

  /** The keys of a grouped table. */
  ghost function Keys<K>(gs: seq<Group<K>>): set<K> {
    set g | g in gs :: g.key
  }

  /** The total a grouped table holds for key `k`, 0 when `k` is absent. */
  ghost function Lookup<K>(gs: seq<Group<K>>, k: K): int
    decreases |gs|
  {
    if |gs| == 0 then 0
    else if gs[0].key == k then gs[0].total
    else Lookup(gs[1..], k)
  }

  /** Sum of all the totals of a grouped table. */
  ghost function Total<K>(gs: seq<Group<K>>): int
    decreases |gs|
  {
    if |gs| == 0 then 0 else gs[0].total + Total(gs[1..])
  }

  /** Keys strictly ascending: sorted, and therefore no key twice. */
  ghost predicate Ascending<K>(gs: seq<Group<K>>, less: (K, K) -> bool) {
    forall i, j :: 0 <= i < j < |gs| ==> less(gs[i].key, gs[j].key)
  }

  lemma {:induction false} LookupAbsent<K>(gs: seq<Group<K>>, k: K)
    requires k !in Keys(gs)
    ensures Lookup(gs, k) == 0
    decreases |gs|
  {
    if |gs| > 0 {
      assert gs[0] in gs;
      assert Keys(gs[1..]) <= Keys(gs) by {
        forall g | g in gs[1..] ensures g in gs { }
      }
      LookupAbsent(gs[1..], k);
    }
  }

  /** In a table with strictly ascending keys, looking up a row's key finds that row. */
  lemma {:induction false} LookupAt<K(!new)>(gs: seq<Group<K>>, i: nat, less: (K, K) -> bool)
    requires StrictTotalOrder(less) && Ascending(gs, less) && i < |gs|
    ensures Lookup(gs, gs[i].key) == gs[i].total
    decreases i
  {
    if i > 0 {
      assert less(gs[0].key, gs[i].key);
      assert gs[1..][i - 1] == gs[i];
      LookupAt(gs[1..], i - 1, less);
    }
  }

  /** A table with strictly ascending keys has one row per key. */
  lemma {:induction false} AscendingCard<K(!new)>(gs: seq<Group<K>>, less: (K, K) -> bool)
    requires StrictTotalOrder(less) && Ascending(gs, less)
    ensures |Keys(gs)| == |gs|
    decreases |gs|
  {
    if |gs| > 0 {
      var t := gs[1..];
      assert Keys(gs) == {gs[0].key} + Keys(t) by {
        assert gs == [gs[0]] + t;
      }
      assert gs[0].key !in Keys(t) by {
        forall g | g in t ensures g.key != gs[0].key {
          var j :| 0 <= j < |t| && t[j] == g;
          assert less(gs[0].key, gs[j + 1].key);
        }
      }
      AscendingCard(t, less);
    }
  }

  lemma ConsLookup<K>(g: Group<K>, t: seq<Group<K>>)
    ensures forall k :: Lookup([g] + t, k) == if g.key == k then g.total else Lookup(t, k)
    ensures Total([g] + t) == g.total + Total(t)
    ensures Keys([g] + t) == {g.key} + Keys(t)
  {
    assert ([g] + t)[1..] == t;
  }

  /** The total a grouped table holds for `k`, when it has that key: the
      lookup `pd.merge` does on the right-hand table. */
  function Find<K(==)>(gs: seq<Group<K>>, k: K): (r: Option<int>)
    ensures r.Some? <==> k in Keys(gs)
    ensures r.Some? ==> r.value == Lookup(gs, k)
    decreases |gs|
  {
    if |gs| == 0 then None
    else
      ConsLookup(gs[0], gs[1..]);
      assert gs == [gs[0]] + gs[1..];
      if gs[0].key == k then Some(gs[0].total) else Find(gs[1..], k)
  }

  /** The keys after the first row of an ascending table are all above its key. */
  lemma HeadBelowRest<K(!new)>(gs: seq<Group<K>>, less: (K, K) -> bool)
    requires StrictTotalOrder(less) && Ascending(gs, less) && |gs| > 0
    ensures Keys(gs) == {gs[0].key} + Keys(gs[1..])
    ensures forall key :: key in Keys(gs[1..]) ==> less(gs[0].key, key)
  {
    assert gs == [gs[0]] + gs[1..];
    forall key | key in Keys(gs[1..]) ensures less(gs[0].key, key) {
      var g :| g in gs[1..] && g.key == key;
      var i :| 0 <= i < |gs| - 1 && gs[1..][i] == g;
      assert gs[i + 1] == g;
    }
  }

  /** A row whose key is below every key of an ascending table can go in front of it. */
  lemma AscendingCons<K(!new)>(g: Group<K>, t: seq<Group<K>>, less: (K, K) -> bool)
    requires StrictTotalOrder(less) && Ascending(t, less)
    requires forall key :: key in Keys(t) ==> less(g.key, key)
    ensures Ascending([g] + t, less)
    ensures Keys([g] + t) == {g.key} + Keys(t)
    ensures g.key !in Keys(t)
  {
    var r := [g] + t;
    forall j | 1 <= j < |r| ensures less(g.key, r[j].key) {
      assert r[j] == t[j - 1] && t[j - 1] in t;
    }
    forall i, j | 0 <= i < j < |r| ensures less(r[i].key, r[j].key) {
      if i > 0 {
        assert r[i] == t[i - 1] && r[j] == t[j - 1];
      }
    }
  }

  /** What adding `v` to key `k` of `gs` must give: still sorted, `k` among the
      keys, `v` added to `k`'s total and to the grand total, nothing else changed. */
  ghost predicate Added<K(!new)>(gs: seq<Group<K>>, k: K, v: int, less: (K, K) -> bool, r: seq<Group<K>>) {
    && Ascending(r, less)
    && Keys(r) == Keys(gs) + {k}
    && (forall k' :: Lookup(r, k') == Lookup(gs, k') + (if k' == k then v else 0))
    && Total(r) == Total(gs) + v
  }

  lemma AddToHead<K(!new)>(gs: seq<Group<K>>, k: K, v: int, less: (K, K) -> bool)
    requires StrictTotalOrder(less) && Ascending(gs, less) && |gs| > 0 && gs[0].key == k
    ensures Added(gs, k, v, less, [Group(k, gs[0].total + v)] + gs[1..])
  {
    var g := Group(k, gs[0].total + v);
    HeadBelowRest(gs, less);
    AscendingCons(g, gs[1..], less);
    ConsLookup(g, gs[1..]);
    ConsLookup(gs[0], gs[1..]);
    assert gs == [gs[0]] + gs[1..];
  }

  lemma AddToFront<K(!new)>(gs: seq<Group<K>>, k: K, v: int, less: (K, K) -> bool)
    requires StrictTotalOrder(less) && Ascending(gs, less) && |gs| > 0 && less(k, gs[0].key)
    ensures Added(gs, k, v, less, [Group(k, v)] + gs)
  {
    var g := Group(k, v);
    HeadBelowRest(gs, less);
    AscendingCons(g, gs, less);
    LookupAbsent(gs, k);
    ConsLookup(g, gs);
  }

  lemma AddToRest<K(!new)>(gs: seq<Group<K>>, k: K, v: int, less: (K, K) -> bool, t: seq<Group<K>>)
    requires StrictTotalOrder(less) && Ascending(gs, less) && |gs| > 0
    requires gs[0].key != k && !less(k, gs[0].key)
    requires Added(gs[1..], k, v, less, t)
    ensures Added(gs, k, v, less, [gs[0]] + t)
  {
    HeadBelowRest(gs, less);
    AscendingCons(gs[0], t, less);
    ConsLookup(gs[0], t);
    ConsLookup(gs[0], gs[1..]);
    assert gs == [gs[0]] + gs[1..];
  }

  /** Adds `v` to the total of key `k`, inserting a new row in key order when
      `k` is not yet present. */
  function AddTo<K(==,!new)>(gs: seq<Group<K>>, k: K, v: int, less: (K, K) -> bool): (r: seq<Group<K>>)
    requires StrictTotalOrder(less) && Ascending(gs, less)
    ensures Ascending(r, less)
    ensures Keys(r) == Keys(gs) + {k}
    ensures forall k' :: Lookup(r, k') == Lookup(gs, k') + (if k' == k then v else 0)
    ensures Total(r) == Total(gs) + v
    decreases |gs|
  {
    if |gs| == 0 then
      ConsLookup(Group(k, v), []);
      [Group(k, v)]
    else if gs[0].key == k then
      AddToHead(gs, k, v, less);
      [Group(k, gs[0].total + v)] + gs[1..]
    else if less(k, gs[0].key) then
      AddToFront(gs, k, v, less);
      [Group(k, v)] + gs
    else
      assert Ascending(gs[1..], less);
      var t := AddTo(gs[1..], k, v, less);
      AddToRest(gs, k, v, less, t);
      [gs[0]] + t
  }

  /** `groupby(key, as_index=False).agg({measure: "sum"})`: one row per key
      present in the rows (NaN keys dropped, no key filled in), keys ascending,
      each total the sum of the measure over that key's rows; nothing of the
      measure is lost or counted twice. */
  function GroupSum<R(!new), K(==,!new)>(rows: seq<R>, keyCol: R -> Option<K>, measure: R -> int, less: (K, K) -> bool): (r: seq<Group<K>>)
    requires StrictTotalOrder(less)
    ensures Ascending(r, less)
    ensures Keys(r) == KeysOf(rows, keyCol)
    ensures forall k :: Lookup(r, k) == SumOver(rows, keyCol, measure, k)
    ensures Total(r) == KeyedSum(rows, keyCol, measure)
    decreases |rows|
  {
    if |rows| == 0 then []
    else
      var init, last := rows[..|rows| - 1], rows[|rows| - 1];
      assert forall x :: x in rows <==> x in init || x == last by {
        assert rows == init + [last];
      }
      var gs := GroupSum(init, keyCol, measure, less);
      match keyCol(last)
      case None => gs
      case Some(k) => AddTo(gs, k, measure(last), less)
  }

  /** Every row of a grouped table holds the sum over that key's rows, and no
      key occurs twice. */
  lemma GroupSumRows<R(!new), K(!new)>(rows: seq<R>, keyCol: R -> Option<K>, measure: R -> int, less: (K, K) -> bool)
    requires StrictTotalOrder(less)
    ensures var r := GroupSum(rows, keyCol, measure, less);
      && |r| == |KeysOf(rows, keyCol)|
      && forall i :: 0 <= i < |r| ==> r[i].total == SumOver(rows, keyCol, measure, r[i].key)
  {
    var r := GroupSum(rows, keyCol, measure, less);
    AscendingCard(r, less);
    forall i | 0 <= i < |r| ensures r[i].total == SumOver(rows, keyCol, measure, r[i].key) {
      LookupAt(r, i, less);
    }
  }

  /*
   * Filter, then group-by with sum
   */

  /** The keys of the rows that pass the selection. */
  ghost function SelectedKeys<R, V, K>(rows: seq<R>, filterCol: R -> Option<V>, sel: Selection<V>, keyCol: R -> Option<K>): set<K> {
    set x | x in rows && Passes(sel, filterCol(x)) && keyCol(x).Some? :: keyCol(x).value
  }

  /** Reference definition of a filtered group total: the measure summed over the
      rows that pass the selection and have key `k`. */
  ghost function SumWhere<R, V, K>(rows: seq<R>, filterCol: R -> Option<V>, sel: Selection<V>, keyCol: R -> Option<K>, measure: R -> int, k: K): int
    decreases |rows|
  {
    if |rows| == 0 then 0
    else
      var last := rows[|rows| - 1];
      SumWhere(rows[..|rows| - 1], filterCol, sel, keyCol, measure, k)
        + (if Passes(sel, filterCol(last)) && keyCol(last) == Some(k) then measure(last) else 0)
  }

  lemma SumOverSnoc<R, K>(rows: seq<R>, x: R, keyCol: R -> Option<K>, measure: R -> int, k: K)
    ensures SumOver(rows + [x], keyCol, measure, k) == SumOver(rows, keyCol, measure, k) + (if keyCol(x) == Some(k) then measure(x) else 0)
  {
    assert (rows + [x])[..|rows|] == rows;
  }

  lemma {:induction false} SumOverSelect<R(!new), V, K>(rows: seq<R>, filterCol: R -> Option<V>, sel: Selection<V>, keyCol: R -> Option<K>, measure: R -> int, k: K)
    ensures SumOver(Select(rows, filterCol, sel), keyCol, measure, k) == SumWhere(rows, filterCol, sel, keyCol, measure, k)
  {
    if sel.Todos? {
      SumWhereTodos(rows, filterCol, keyCol, measure, k);
    } else {
      SumOverWhere(rows, filterCol, sel.value, keyCol, measure, k);
    }
  }

  lemma {:induction false} SumWhereTodos<R, V, K>(rows: seq<R>, filterCol: R -> Option<V>, keyCol: R -> Option<K>, measure: R -> int, k: K)
    ensures SumOver(rows, keyCol, measure, k) == SumWhere(rows, filterCol, Todos, keyCol, measure, k)
    decreases |rows|
  {
    if |rows| > 0 {
      SumWhereTodos(rows[..|rows| - 1], filterCol, keyCol, measure, k);
    }
  }

  lemma {:induction false} SumOverWhere<R(!new), V, K>(rows: seq<R>, filterCol: R -> Option<V>, v: V, keyCol: R -> Option<K>, measure: R -> int, k: K)
    ensures SumOver(Where(rows, filterCol, v), keyCol, measure, k) == SumWhere(rows, filterCol, Only(v), keyCol, measure, k)
    decreases |rows|
  {
    if |rows| > 0 {
      var init, last := rows[..|rows| - 1], rows[|rows| - 1];
      SumOverWhere(init, filterCol, v, keyCol, measure, k);
      if filterCol(last) == Some(v) {
        SumOverSnoc(Where(init, filterCol, v), last, keyCol, measure, k);
      }
    }
  }

  /** The four charting callbacks' shared shape: select by the dropdown, then
      group by the key and sum the measure. With "Todos" it aggregates the whole
      table; otherwise exactly the keys of the selected rows appear, ascending,
      once each, each with the measure summed over the selected rows with that key;
      the totals add up to the measure over the selected keyed rows; a
      selection that no row holds gives an empty table, not an error. */
  function FilterGroupSum<R(==,!new), V(==), K(==,!new)>(rows: seq<R>, filterCol: R -> Option<V>, sel: Selection<V>, keyCol: R -> Option<K>, measure: R -> int, less: (K, K) -> bool): (r: seq<Group<K>>)
    requires StrictTotalOrder(less)
    ensures sel.Todos? ==> r == GroupSum(rows, keyCol, measure, less)
    ensures Ascending(r, less)
    ensures Keys(r) == SelectedKeys(rows, filterCol, sel, keyCol)
    ensures |r| == |Keys(r)|
    ensures forall k :: Lookup(r, k) == SumWhere(rows, filterCol, sel, keyCol, measure, k)
    ensures Total(r) == KeyedSum(Select(rows, filterCol, sel), keyCol, measure)
    ensures sel.Only? && (forall x :: x in rows ==> filterCol(x) != Some(sel.value)) ==> r == []
  {
    var selected := Select(rows, filterCol, sel);
    assert forall x :: x in selected <==> x in rows && Passes(sel, filterCol(x)) by {
      forall x ensures x in selected <==> x in rows && Passes(sel, filterCol(x)) {
        assert x in selected <==> multiset(selected)[x] > 0;
        assert x in rows <==> multiset(rows)[x] > 0;
      }
    }
    forall k ensures SumOver(selected, keyCol, measure, k) == SumWhere(rows, filterCol, sel, keyCol, measure, k) {
      SumOverSelect(rows, filterCol, sel, keyCol, measure, k);
    }
    var r := GroupSum(selected, keyCol, measure, less);
    AscendingCard(r, less);
    r
  }

  /*
   * Sorting by the measure
   */

  /** Totals non-decreasing. */
  ghost predicate ByMeasure<K>(gs: seq<Group<K>>) {
    forall i, j :: 0 <= i < j < |gs| ==> gs[i].total <= gs[j].total
  }

  /** A group whose total is at most every total of a sorted table can go in
      front of it. */
  lemma ByMeasureCons<K>(g: Group<K>, t: seq<Group<K>>)
    requires ByMeasure(t)
    requires forall x :: x in t ==> g.total <= x.total
    ensures ByMeasure([g] + t)
  {
    var r := [g] + t;
    forall i, j | 0 <= i < j < |r| ensures r[i].total <= r[j].total {
      assert r[j] == t[j - 1] && t[j - 1] in t;
      if i > 0 {
        assert r[i] == t[i - 1];
      }
    }
  }

  /** The tail of a sorted table is sorted. */
  lemma ByMeasureTail<K>(gs: seq<Group<K>>)
    requires ByMeasure(gs) && |gs| > 0
    ensures ByMeasure(gs[1..])
  {
    var rest := gs[1..];
    forall i, j | 0 <= i < j < |rest| ensures rest[i].total <= rest[j].total {
      assert rest[i] == gs[i + 1] && rest[j] == gs[j + 1];
    }
  }

  /** Putting the head back in front of the tail with `g` inserted. */
  lemma InsertStep<K>(g: Group<K>, gs: seq<Group<K>>, t: seq<Group<K>>)
    requires ByMeasure(gs) && |gs| > 0 && gs[0].total < g.total
    requires ByMeasure(t) && multiset(t) == multiset(gs[1..]) + multiset{g}
    ensures ByMeasure([gs[0]] + t)
    ensures multiset([gs[0]] + t) == multiset(gs) + multiset{g}
  {
    var h, rest := gs[0], gs[1..];
    assert gs == [h] + rest;
    forall x | x in t ensures h.total <= x.total {
      assert x in multiset(t);
      if x != g {
        assert x in multiset(rest);
        var j :| 0 <= j < |rest| && rest[j] == x;
        assert gs[j + 1] == x;
      }
    }
    ByMeasureCons(h, t);
  }

  function InsertByMeasure<K>(g: Group<K>, gs: seq<Group<K>>): (r: seq<Group<K>>)
    requires ByMeasure(gs)
    ensures ByMeasure(r)
    ensures multiset(r) == multiset(gs) + multiset{g}
    decreases |gs|
  {
    if |gs| == 0 || g.total <= gs[0].total then
      assert forall x :: x in gs ==> g.total <= x.total by {
        forall x | x in gs ensures g.total <= x.total {
          var j :| 0 <= j < |gs| && gs[j] == x;
        }
      }
      ByMeasureCons(g, gs);
      [g] + gs
    else
      ByMeasureTail(gs);
      var t := InsertByMeasure(g, gs[1..]);
      InsertStep(g, gs, t);
      [gs[0]] + t
  }

  /** `.sort_values(measure)`: the same rows, reordered so that the totals are
      non-decreasing. */
  function SortByMeasure<K>(gs: seq<Group<K>>): (r: seq<Group<K>>)
    ensures ByMeasure(r)
    ensures multiset(r) == multiset(gs)
    decreases |gs|
  {
    if |gs| == 0 then []
    else
      assert gs == [gs[0]] + gs[1..];
      InsertByMeasure(gs[0], SortByMeasure(gs[1..]))
  }

  /** Sorting a grouped table keeps its rows: the same keys, one row per key,
      each with the same total. */
  lemma SortKeepsGroups<K(!new)>(gs: seq<Group<K>>, less: (K, K) -> bool)
    requires StrictTotalOrder(less) && Ascending(gs, less)
    ensures var r := SortByMeasure(gs);
      && Keys(r) == Keys(gs)
      && |r| == |Keys(r)|
      && forall i :: 0 <= i < |r| ==> r[i].total == Lookup(gs, r[i].key)
  {
    var r := SortByMeasure(gs);
    assert forall g :: g in r <==> g in gs by {
      forall g ensures g in r <==> g in gs {
        assert g in r <==> g in multiset(r);
      }
    }
    assert |r| == |multiset(r)| == |multiset(gs)| == |gs|;
    AscendingCard(gs, less);
    forall i | 0 <= i < |r| ensures r[i].total == Lookup(gs, r[i].key) {
      assert r[i] in gs;
      var j :| 0 <= j < |gs| && gs[j] == r[i];
      LookupAt(gs, j, less);
    }
  }

  /** The ranking charts: filter, group and sum, then `.sort_values` by the
      total. The rows are those of the grouped table, reordered so that the
      totals never decrease. */
  function FilterGroupSumByMeasure<R(==,!new), V(==), K(==,!new)>(rows: seq<R>, filterCol: R -> Option<V>, sel: Selection<V>, keyCol: R -> Option<K>, measure: R -> int, less: (K, K) -> bool): (r: seq<Group<K>>)
    requires StrictTotalOrder(less)
    ensures ByMeasure(r)
    ensures multiset(r) == multiset(FilterGroupSum(rows, filterCol, sel, keyCol, measure, less))
    ensures Keys(r) == SelectedKeys(rows, filterCol, sel, keyCol) && |r| == |Keys(r)|
    ensures forall i :: 0 <= i < |r| ==> r[i].total == SumWhere(rows, filterCol, sel, keyCol, measure, r[i].key)
    ensures sel.Only? && (forall x :: x in rows ==> filterCol(x) != Some(sel.value)) ==> r == []
  {
    var grouped := FilterGroupSum(rows, filterCol, sel, keyCol, measure, less);
    SortKeepsGroups(grouped, less);
    var r := SortByMeasure(grouped);
    assert grouped == [] ==> r == [] by {
      if grouped == [] { assert |r| == |multiset(r)| == 0; }
    }
    r
  }

  /** With "Todos", a ranking chart holds the rows of the unfiltered grouped
      table, reordered. */
  lemma RankingTodos<R(!new), V, K(!new)>(rows: seq<R>, filterCol: R -> Option<V>, keyCol: R -> Option<K>, measure: R -> int, less: (K, K) -> bool)
    requires StrictTotalOrder(less)
    ensures multiset(FilterGroupSumByMeasure(rows, filterCol, Todos, keyCol, measure, less)) == multiset(GroupSum(rows, keyCol, measure, less))
  {
  }

  /*
   * Distinct values for dropdowns
   */

  /** Strictly ascending: sorted, no value twice. */
  ghost predicate Increasing<V>(s: seq<V>, less: (V, V) -> bool) {
    forall i, j :: 0 <= i < j < |s| ==> less(s[i], s[j])
  }

  /** Strictly descending. */
  ghost predicate Decreasing<V>(s: seq<V>, less: (V, V) -> bool) {
    forall i, j :: 0 <= i < j < |s| ==> less(s[j], s[i])
  }

  function InsertUnique<V(==,!new)>(s: seq<V>, x: V, less: (V, V) -> bool): (r: seq<V>)
    requires StrictTotalOrder(less) && Increasing(s, less)
    ensures Increasing(r, less)
    ensures forall y :: y in r <==> y in s || y == x
    decreases |s|
  {
    if |s| == 0 then [x]
    else if s[0] == x then s
    else if less(x, s[0]) then
      var r := [x] + s;
      assert Increasing(r, less) by {
        forall j | 1 <= j < |r| ensures less(x, r[j]) {
          if j > 1 { assert less(s[0], s[j - 1]); }
        }
      }
      r
    else
      var t := InsertUnique(s[1..], x, less);
      assert s == [s[0]] + s[1..];
      var r := [s[0]] + t;
      assert Increasing(r, less) by {
        forall j | 0 <= j < |t| ensures less(s[0], t[j]) {
          assert t[j] in t;
          if t[j] != x {
            var i :| 0 <= i < |s[1..]| && s[1..][i] == t[j];
            assert less(s[0], s[i + 1]);
          }
        }
      }
      r
  }

  /** `sorted(col.dropna().unique())`: every non-NaN value of the column once,
      ascending. */
  function SortedUnique<V(==,!new)>(cells: seq<Option<V>>, less: (V, V) -> bool): (r: seq<V>)
    requires StrictTotalOrder(less)
    ensures Increasing(r, less)
    ensures forall v :: v in r <==> Some(v) in cells
    decreases |cells|
  {
    if |cells| == 0 then []
    else
      var init, last := cells[..|cells| - 1], cells[|cells| - 1];
      assert cells == init + [last];
      var t := SortedUnique(init, less);
      match last
      case None => t
      case Some(v) => InsertUnique(t, v, less)
  }

  /** `sorted(col.dropna().unique(), reverse=True)`: every non-NaN value of the
      column once, descending. */
  function SortedUniqueDescending<V(==,!new)>(cells: seq<Option<V>>, less: (V, V) -> bool): (r: seq<V>)
    requires StrictTotalOrder(less)
    ensures Decreasing(r, less)
    ensures forall v :: v in r <==> Some(v) in cells
  {
    var up := SortedUnique(cells, less);
    var r := seq(|up|, i requires 0 <= i < |up| => up[|up| - 1 - i]);
    assert forall v :: v in r <==> v in up by {
      forall v ensures v in r <==> v in up {
        if v in up {
          var i :| 0 <= i < |up| && up[i] == v;
          assert r[|up| - 1 - i] == v;
        }
      }
    }
    r
  }

  /** A column of a table, as the sequence of its cells. */
  function Column<R, V>(rows: seq<R>, col: R -> V): (r: seq<V>)
    ensures |r| == |rows| && forall i :: 0 <= i < |rows| ==> r[i] == col(rows[i])
  {
    seq(|rows|, i requires 0 <= i < |rows| => col(rows[i]))
  }

  lemma InColumn<R, V>(rows: seq<R>, col: R -> Option<V>, v: V)
    ensures Some(v) in Column(rows, col) <==> exists x :: x in rows && col(x) == Some(v)
  {
    var c := Column(rows, col);
    if Some(v) in c {
      var i :| 0 <= i < |c| && c[i] == Some(v);
      assert rows[i] in rows;
    }
  }
}
