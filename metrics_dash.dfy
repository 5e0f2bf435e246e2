/** `gerar_tabela_admissoes_desligamentos` (src/metrics_dash_osasco.py): turns
    CAGED movement records into the long table the admissions/separations chart
    draws. Per month it counts the admissions (indicator `saldomovimentacao`
    equal to 1) and the separations (equal to -1), keeps only the months that
    have both (the inner join of `pd.merge`), and melts the wide table into
    rows `(mes, tipo, valor)`. */
module MetricsDash {
  import opened Orders
  import opened Frames

  /** A CAGED movement record, reduced to the two columns the routine reads. */
  datatype Movimentacao = Movimentacao(mes: int, saldomovimentacao: int)

  /** A row of the merged, wide table: columns `mes`, `admissoes`, `desligamentos`. */
  datatype Wide = Wide(mes: int, admissoes: int, desligamentos: int)

  /** A row of the melted, long table: columns `mes`, `tipo`, `valor`. */
  datatype Linha = Linha(mes: int, tipo: string, valor: int)

  const ADMISSOES: string := "admissoes"
  const DESLIGAMENTOS: string := "desligamentos"

  function Indicador(r: Movimentacao): Option<int> {
    Some(r.saldomovimentacao)
  }

  function Mes(r: Movimentacao): Option<int> {
    Some(r.mes)
  }

  function Saldo(r: Movimentacao): int {
    r.saldomovimentacao
  }

  function Abs(x: int): int {
    if x < 0 then -x else x
  }

  /*
   * Reference definitions
   */

  /** The number of records of month `mes` whose indicator is `ind`. */
  function Count(rows: seq<Movimentacao>, mes: int, ind: int): nat
    decreases |rows|
  {
    if |rows| == 0 then 0
    else
      var last := rows[|rows| - 1];
      Count(rows[..|rows| - 1], mes, ind) + (if last.mes == mes && last.saldomovimentacao == ind then 1 else 0)
  }

  /** The months that have at least one record with indicator `ind`. */
  ghost function MesesCom(rows: seq<Movimentacao>, ind: int): set<int> {
    set r | r in rows && r.saldomovimentacao == ind :: r.mes
  }

  /** The months of the rows of the long table. */
  ghost function MesesDe(ls: seq<Linha>): set<int> {
    set l | l in ls :: l.mes
  }

  /** The months of a merged table. */
  ghost function MesesWide(ws: seq<Wide>): set<int> {
    set w | w in ws :: w.mes
  }

  /** The months of a wide table, strictly ascending row by row. */
  ghost predicate MesesCrescentes(ws: seq<Wide>) {
    forall i, j :: 0 <= i < j < |ws| ==> ws[i].mes < ws[j].mes
  }

  lemma {:induction false} SumWhereCount(rows: seq<Movimentacao>, ind: int, m: int)
    ensures SumWhere(rows, Indicador, Only(ind), Mes, Saldo, m) == ind * Count(rows, m, ind)
    decreases |rows|
  {
    if |rows| > 0 {
      SumWhereCount(rows[..|rows| - 1], ind, m);
    }
  }

  /** A month has records with indicator `ind` exactly when their count is positive. */
  lemma {:induction false} CountPositive(rows: seq<Movimentacao>, m: int, ind: int)
    ensures Count(rows, m, ind) > 0 <==> m in MesesCom(rows, ind)
    decreases |rows|
  {
    if |rows| > 0 {
      var init, last := rows[..|rows| - 1], rows[|rows| - 1];
      assert rows == init + [last];
      assert MesesCom(rows, ind) == MesesCom(init, ind) + (if last.saldomovimentacao == ind then {last.mes} else {});
      CountPositive(init, m, ind);
    }
  }

  /*
   * The steps of the routine
   */

  /** One partition summed per month:
      `df.loc[df["saldomovimentacao"] == ind].groupby("mes", as_index=False).agg(sum)`.
      Its months are those with an `ind` record, ascending; each total is `ind`
      times the number of such records. */
  function TotaisPorMes(rows: seq<Movimentacao>, ind: int): (r: seq<Group<int>>)
    ensures Ascending(r, IntLess)
    ensures Keys(r) == MesesCom(rows, ind)
    ensures forall m :: Lookup(r, m) == ind * Count(rows, m, ind)
  {
    IntLessIsStrictTotal();
    var part := Select(rows, Indicador, Only(ind));
    assert forall x :: x in part <==> x in rows && x.saldomovimentacao == ind by {
      forall x ensures x in part <==> x in rows && x.saldomovimentacao == ind {
        assert x in part <==> multiset(part)[x] > 0;
        assert x in rows <==> multiset(rows)[x] > 0;
      }
    }
    forall m ensures SumOver(part, Mes, Saldo, m) == ind * Count(rows, m, ind) {
      SumOverSelect(rows, Indicador, Only(ind), Mes, Saldo, m);
      SumWhereCount(rows, ind, m);
    }
    GroupSum(part, Mes, Saldo, IntLess)
  }

  /** A wide row whose month is below every month of a strictly ascending
      table can go in front of it. */
  lemma WideCons(w: Wide, rest: seq<Wide>)
    requires forall x :: x in rest ==> w.mes < x.mes
    requires MesesCrescentes(rest)
    ensures var r := [w] + rest;
      && MesesCrescentes(r)
      && MesesWide(r) == {w.mes} + MesesWide(rest)
      && (forall x :: x in r <==> x == w || x in rest)
  {
    var r := [w] + rest;
    forall j | 1 <= j < |r| ensures w.mes < r[j].mes {
      assert r[j] == rest[j - 1] && rest[j - 1] in rest;
    }
    forall i, j | 1 <= i < j < |r| ensures r[i].mes < r[j].mes {
      assert r[i] == rest[i - 1] && r[j] == rest[j - 1];
    }
  }

  /** The facts `Merge` promises about joining `left` with `right`. */
  ghost predicate Joined(left: seq<Group<int>>, right: seq<Group<int>>, r: seq<Wide>) {
    && MesesCrescentes(r)
    && MesesWide(r) == Keys(left) * Keys(right)
    && (forall w :: w in r ==> w.admissoes == Lookup(left, w.mes) && w.desligamentos == Lookup(right, w.mes))
  }

  /** One step of the join: the head month of `left` goes in front of the join
      of the rest when `right` has it, and is skipped otherwise. */
  lemma MergeStep(left: seq<Group<int>>, right: seq<Group<int>>, rest: seq<Wide>, r: seq<Wide>)
    requires Ascending(left, IntLess) && |left| > 0
    requires Joined(left[1..], right, rest)
    requires r == if left[0].key in Keys(right) then [Wide(left[0].key, left[0].total, Lookup(right, left[0].key))] + rest else rest
    ensures Joined(left, right, r)
  {
    IntLessIsStrictTotal();
    HeadBelowRest(left, IntLess);
    ConsLookup(left[0], left[1..]);
    assert left == [left[0]] + left[1..];
    var g := left[0];
    assert forall w :: w in rest ==> g.key < w.mes by {
      forall w | w in rest ensures g.key < w.mes {
        assert w.mes in MesesWide(rest);
      }
    }
    if g.key in Keys(right) {
      WideCons(Wide(g.key, g.total, Lookup(right, g.key)), rest);
    }
  }

  /** `pd.merge(admissoes, desligamentos, on="mes")`, an inner join: the months
      of `left` that `right` also has, in `left`'s ascending order, each with
      both totals. A month missing on either side is dropped. Both sides are
      group-by results, so each month occurs at most once on either side. */
  function Merge(left: seq<Group<int>>, right: seq<Group<int>>): (r: seq<Wide>)
    requires Ascending(left, IntLess) && Ascending(right, IntLess)
    ensures MesesCrescentes(r)
    ensures MesesWide(r) == Keys(left) * Keys(right)
    ensures forall w :: w in r ==> w.admissoes == Lookup(left, w.mes) && w.desligamentos == Lookup(right, w.mes)
    decreases |left|
  {
    if |left| == 0 then []
    else
      var g, rest := left[0], Merge(left[1..], right);
      var r := match Find(right, g.key)
        case None => rest
        case Some(d) => [Wide(g.key, g.total, d)] + rest;
      MergeStep(left, right, rest, r);
      r
  }

  /** `df["desligamentos"] = df["desligamentos"].abs()`. */
  function AbsDesligamentos(ws: seq<Wide>): (r: seq<Wide>)
    ensures |r| == |ws|
    ensures forall i :: 0 <= i < |ws| ==> r[i].mes == ws[i].mes && r[i].admissoes == ws[i].admissoes
    ensures forall i :: 0 <= i < |ws| ==>
      && r[i].desligamentos >= 0
      && (r[i].desligamentos == ws[i].desligamentos || r[i].desligamentos == -ws[i].desligamentos)
  {
    seq(|ws|, i requires 0 <= i < |ws| => ws[i].(desligamentos := Abs(ws[i].desligamentos)))
  }

  /** `df.melt(id_vars="mes", value_vars=["admissoes", "desligamentos"],
      var_name="tipo", value_name="valor")`: all the admissions rows in the
      table's order, then all the separations rows in the same order. */
  function Melt(ws: seq<Wide>): (r: seq<Linha>)
    ensures |r| == 2 * |ws|
    ensures forall i :: 0 <= i < |ws| ==>
      && r[i] == Linha(ws[i].mes, ADMISSOES, ws[i].admissoes)
      && r[|ws| + i] == Linha(ws[i].mes, DESLIGAMENTOS, ws[i].desligamentos)
  {
    seq(|ws|, i requires 0 <= i < |ws| => Linha(ws[i].mes, ADMISSOES, ws[i].admissoes))
      + seq(|ws|, i requires 0 <= i < |ws| => Linha(ws[i].mes, DESLIGAMENTOS, ws[i].desligamentos))
  }

  /** The positional inverse of `Melt`: row `i` of the first half and row
      `n + i` of the second make wide row `i`. It reads neither `mes` nor `tipo`
      of the second half; the keyed round trip is `SomaMelt` and `RoundTrip`. */
  function Pivot(ls: seq<Linha>): (r: seq<Wide>)
    requires |ls| % 2 == 0
    ensures |r| == |ls| / 2
  {
    var n := |ls| / 2;
    seq(n, i requires 0 <= i < n => Wide(ls[i].mes, ls[i].valor, ls[n + i].valor))
  }

  /** Melting loses nothing: pivoting the long table gives the wide one back. */
  lemma PivotMelt(ws: seq<Wide>)
    ensures Pivot(Melt(ws)) == ws
  {
    var ls := Melt(ws);
    assert |ls| / 2 == |ws| by {
      assert |ls| == 2 * |ws|;
    }
    var r := Pivot(ls);
    forall i | 0 <= i < |ws| ensures r[i] == ws[i] {
      assert ls[i].mes == ws[i].mes && ls[i].valor == ws[i].admissoes;
      assert ls[|ws| + i].valor == ws[i].desligamentos;
    }
  }

  /*
   * The routine
   */

  /** The months of a melted table are those of the wide table it came from. */
  lemma MeltMeses(ws: seq<Wide>)
    ensures MesesDe(Melt(ws)) == MesesWide(ws)
  {
    var r, n := Melt(ws), |ws|;
    assert MesesWide(ws) <= MesesDe(r) by {
      forall m | m in MesesWide(ws) ensures m in MesesDe(r) {
        var w :| w in ws && w.mes == m;
        var i :| 0 <= i < n && ws[i] == w;
        assert r[i] in r;
      }
    }
    assert MesesDe(r) <= MesesWide(ws) by {
      forall m | m in MesesDe(r) ensures m in MesesWide(ws) {
        var l :| l in r && l.mes == m;
        var i :| 0 <= i < |r| && r[i] == l;
        var k := if i < n then i else i - n;
        assert ws[k] in ws;
      }
    }
  }

  /** When every wide row holds the two counts of its month, so does every
      row of the melted table. */
  lemma MeltCounts(ws: seq<Wide>, rows: seq<Movimentacao>)
    requires forall w :: w in ws ==> w.admissoes == Count(rows, w.mes, 1) && w.desligamentos == Count(rows, w.mes, -1)
    ensures forall l :: l in Melt(ws) ==> l.valor == Count(rows, l.mes, if l.tipo == ADMISSOES then 1 else -1)
  {
    var r, n := Melt(ws), |ws|;
    forall l | l in r ensures l.valor == Count(rows, l.mes, if l.tipo == ADMISSOES then 1 else -1) {
      var i :| 0 <= i < |r| && r[i] == l;
      var k := if i < n then i else i - n;
      assert ws[k] in ws;
    }
  }

  /** Taking the absolute value of the separations total turns it into the
      separations count, and leaves the months and their order alone. */
  lemma AbsCounts(merged: seq<Wide>, rows: seq<Movimentacao>)
    requires forall w :: w in merged ==> w.admissoes == Count(rows, w.mes, 1) && w.desligamentos + Count(rows, w.mes, -1) == 0
    ensures var wide := AbsDesligamentos(merged);
      && MesesWide(wide) == MesesWide(merged)
      && (forall i :: 0 <= i < |wide| ==> wide[i].mes == merged[i].mes)
      && (forall w :: w in wide ==> w.admissoes == Count(rows, w.mes, 1) && w.desligamentos == Count(rows, w.mes, -1))
  {
    var wide := AbsDesligamentos(merged);
    assert forall i :: 0 <= i < |merged| ==> merged[i] in merged && wide[i] in wide;
    forall w | w in wide ensures w.admissoes == Count(rows, w.mes, 1) && w.desligamentos == Count(rows, w.mes, -1) {
      var i :| 0 <= i < |wide| && wide[i] == w;
    }
  }

  /** The months of a long table, row by row. */
  function MesSeq(ls: seq<Linha>): (r: seq<int>)
    ensures |r| == |ls| && forall i :: 0 <= i < |ls| ==> r[i] == ls[i].mes
  {
    seq(|ls|, i requires 0 <= i < |ls| => ls[i].mes)
  }

  /** The melted table's halves: "admissoes" rows, then "desligamentos" rows,
      the months of the second half those of the first, in the same order. */
  lemma MeltHalves(ws: seq<Wide>)
    ensures var r := Melt(ws);
      && (forall i :: 0 <= i < |r| ==> r[i].tipo == if i < |ws| then ADMISSOES else DESLIGAMENTOS)
      && MesSeq(r[..|ws|]) == MesSeq(r[|ws|..])
      && (forall i :: 0 <= i < |ws| ==> r[i].mes == ws[i].mes)
  {
    var r := Melt(ws);
    forall i | 0 <= i < |r| ensures r[i].tipo == if i < |ws| then ADMISSOES else DESLIGAMENTOS {
      var k := if i < |ws| then i else i - |ws|;
    }
    var a, b := MesSeq(r[..|ws|]), MesSeq(r[|ws|..]);
    forall i | 0 <= i < |ws| ensures a[i] == b[i] {
      assert r[|ws|..][i] == r[|ws| + i];
    }
  }

  /** The wide table the routine builds before melting (lines 4-19): one row
      per month that has both an admission and a separation, months strictly
      ascending, each with the month's admissions count and separations count. */
  function TabelaLarga(rows: seq<Movimentacao>): (r: seq<Wide>)
    ensures MesesCrescentes(r)
    ensures MesesWide(r) == MesesCom(rows, 1) * MesesCom(rows, -1)
    ensures forall w :: w in r ==> w.admissoes == Count(rows, w.mes, 1) && w.desligamentos == Count(rows, w.mes, -1)
  {
    var admissoes := TotaisPorMes(rows, 1);
    var desligamentos := TotaisPorMes(rows, -1);
    var merged := Merge(admissoes, desligamentos);
    AbsCounts(merged, rows);
    AbsDesligamentos(merged)
  }

  /** `gerar_tabela_admissoes_desligamentos(df_caged)`. The result has two
      halves of equal length: "admissoes" rows with strictly ascending months,
      then "desligamentos" rows for the same months in the same order. The
      months are exactly those with both an admission and a separation; each
      value is the number of that month's records of that kind. */
  function GerarTabelaAdmissoesDesligamentos(rows: seq<Movimentacao>): (r: seq<Linha>)
    ensures |r| % 2 == 0
    ensures forall i :: 0 <= i < |r| ==> r[i].tipo == if i < |r| / 2 then ADMISSOES else DESLIGAMENTOS
    ensures MesSeq(r[..|r| / 2]) == MesSeq(r[|r| / 2..])
    ensures forall i, j :: 0 <= i < j < |r| / 2 ==> r[i].mes < r[j].mes
    ensures MesesDe(r) == MesesCom(rows, 1) * MesesCom(rows, -1)
    ensures forall l :: l in r ==> l.valor == Count(rows, l.mes, if l.tipo == ADMISSOES then 1 else -1)
  {
    var wide := TabelaLarga(rows);
    MeltHalves(wide);
    MeltMeses(wide);
    MeltCounts(wide, rows);
    var r := Melt(wide);
    assert |r| / 2 == |wide| && |r| % 2 == 0 by {
      assert |r| == 2 * |wide|;
    }
    r
  }

  /** Every value of the result is a positive count, so none is negative. */
  lemma ValoresPositivos(rows: seq<Movimentacao>)
    ensures forall l :: l in GerarTabelaAdmissoesDesligamentos(rows) ==> l.valor > 0
  {
    var r := GerarTabelaAdmissoesDesligamentos(rows);
    forall l | l in r ensures l.valor > 0 {
      assert l.mes in MesesDe(r);
      CountPositive(rows, l.mes, 1);
      CountPositive(rows, l.mes, -1);
    }
  }

  /** A wide table whose months strictly ascend has one row per month. */
  lemma {:induction false} WideCard(ws: seq<Wide>)
    requires MesesCrescentes(ws)
    ensures |MesesWide(ws)| == |ws|
    decreases |ws|
  {
    if |ws| > 0 {
      var t := ws[1..];
      WideTail(ws);
      WideCard(t);
      WideCons(ws[0], t);
      assert ws[0].mes !in MesesWide(t);
    }
  }

  /** The tail of a table with strictly ascending months is one too, and its
      months are all above the head's. */
  lemma WideTail(ws: seq<Wide>)
    requires MesesCrescentes(ws)
    requires |ws| > 0
    ensures ws == [ws[0]] + ws[1..]
    ensures forall i, j :: 0 <= i < j < |ws[1..]| ==> ws[1..][i].mes < ws[1..][j].mes
    ensures forall x :: x in ws[1..] ==> ws[0].mes < x.mes
  {
    var t := ws[1..];
    forall x | x in t ensures ws[0].mes < x.mes {
      var j :| 0 <= j < |t| && t[j] == x;
      assert ws[j + 1] == x;
    }
  }

  /** Two rows per surviving month: the result has twice as many rows as there
      are months with both an admission and a separation. */
  lemma RowCount(rows: seq<Movimentacao>)
    ensures |GerarTabelaAdmissoesDesligamentos(rows)| == 2 * |MesesCom(rows, 1) * MesesCom(rows, -1)|
  {
    WideCard(TabelaLarga(rows));
  }

  /** An empty input, or one where no month has both an admission and a
      separation, gives an empty result. */
  lemma EmptyResult(rows: seq<Movimentacao>)
    requires rows == [] || MesesCom(rows, 1) * MesesCom(rows, -1) == {}
    ensures GerarTabelaAdmissoesDesligamentos(rows) == []
  {
    RowCount(rows);
  }

  lemma SelectIndicadorAppend(a: seq<Movimentacao>, x: Movimentacao, b: seq<Movimentacao>, ind: int)
    requires x.saldomovimentacao != ind
    ensures Select(a + [x] + b, Indicador, Only(ind)) == Select(a + b, Indicador, Only(ind))
  {
    WhereAppend(a + [x], b, Indicador, ind);
    WhereAppend(a, [x], Indicador, ind);
    WhereAppend(a, b, Indicador, ind);
    assert [x][..0] == [];
  }

  /** Records whose indicator is neither 1 nor -1 have no effect on the result. */
  lemma OutrosIndicadoresIgnorados(a: seq<Movimentacao>, x: Movimentacao, b: seq<Movimentacao>)
    requires x.saldomovimentacao != 1 && x.saldomovimentacao != -1
    ensures GerarTabelaAdmissoesDesligamentos(a + [x] + b) == GerarTabelaAdmissoesDesligamentos(a + b)
  {
    SelectIndicadorAppend(a, x, b, 1);
    SelectIndicadorAppend(a, x, b, -1);
  }

  /** Three admissions and two separations in month 1 and one admission in
      month 2 give the rows (1, "admissoes", 3) and (1, "desligamentos", 2):
      month 2 has no separation, so the inner join drops it. */
  lemma MesSemDesligamentoDescartado()
    ensures var rows := [Movimentacao(1, 1), Movimentacao(1, 1), Movimentacao(1, 1),
                         Movimentacao(1, -1), Movimentacao(1, -1), Movimentacao(2, 1)];
      GerarTabelaAdmissoesDesligamentos(rows) == [Linha(1, ADMISSOES, 3), Linha(1, DESLIGAMENTOS, 2)]
  {
    var rows := [Movimentacao(1, 1), Movimentacao(1, 1), Movimentacao(1, 1),
                 Movimentacao(1, -1), Movimentacao(1, -1), Movimentacao(2, 1)];
    ExemploMeses(rows);
    ExemploContagens(rows);
    UmMes(rows, 1);
  }

  /** When month `m` is the only one with both kinds of movement, the result is
      its two rows. */
  lemma UmMes(rows: seq<Movimentacao>, m: int)
    requires MesesCom(rows, 1) * MesesCom(rows, -1) == {m}
    ensures GerarTabelaAdmissoesDesligamentos(rows)
      == [Linha(m, ADMISSOES, Count(rows, m, 1)), Linha(m, DESLIGAMENTOS, Count(rows, m, -1))]
  {
    var ws := TabelaLarga(rows);
    UnicaLinha(rows, ws, m);
    MeltUnica(ws[0]);
  }

  lemma UnicaLinha(rows: seq<Movimentacao>, ws: seq<Wide>, m: int)
    requires MesesCrescentes(ws)
    requires MesesWide(ws) == {m}
    requires forall w :: w in ws ==> w.admissoes == Count(rows, w.mes, 1) && w.desligamentos == Count(rows, w.mes, -1)
    ensures ws == [Wide(m, Count(rows, m, 1), Count(rows, m, -1))]
  {
    WideCard(ws);
    assert |ws| == 1 by {
      assert |MesesWide(ws)| == |{m}| == 1;
    }
    assert ws[0] in ws && ws[0].mes in MesesWide(ws);
  }

  lemma MeltUnica(w: Wide)
    ensures Melt([w]) == [Linha(w.mes, ADMISSOES, w.admissoes), Linha(w.mes, DESLIGAMENTOS, w.desligamentos)]
  {
    var r := Melt([w]);
    assert r == [r[0], r[1]];
  }

  lemma ExemploMeses(rows: seq<Movimentacao>)
    requires rows == [Movimentacao(1, 1), Movimentacao(1, 1), Movimentacao(1, 1),
                      Movimentacao(1, -1), Movimentacao(1, -1), Movimentacao(2, 1)]
    ensures MesesCom(rows, 1) * MesesCom(rows, -1) == {1}
  {
    assert MesesCom(rows, -1) == {1} by {
      assert rows[3] in rows;
    }
    assert 1 in MesesCom(rows, 1) by {
      assert rows[0] in rows;
    }
  }

  lemma ExemploContagens(rows: seq<Movimentacao>)
    requires rows == [Movimentacao(1, 1), Movimentacao(1, 1), Movimentacao(1, 1),
                      Movimentacao(1, -1), Movimentacao(1, -1), Movimentacao(2, 1)]
    ensures Count(rows, 1, 1) == 3 && Count(rows, 1, -1) == 2
  {
    assert rows[..1][..0] == rows[..0];
    assert Count(rows[..1], 1, 1) == 1 && Count(rows[..1], 1, -1) == 0;
    assert rows[..2][..1] == rows[..1];
    assert Count(rows[..2], 1, 1) == 2 && Count(rows[..2], 1, -1) == 0;
    assert rows[..3][..2] == rows[..2];
    assert Count(rows[..3], 1, 1) == 3 && Count(rows[..3], 1, -1) == 0;
    assert rows[..4][..3] == rows[..3];
    assert Count(rows[..4], 1, 1) == 3 && Count(rows[..4], 1, -1) == 1;
    assert rows[..5][..4] == rows[..4];
    assert Count(rows[..5], 1, 1) == 3 && Count(rows[..5], 1, -1) == 2;
    assert rows[..5] == rows[..|rows| - 1];
  }

  /** `groupby(["mes", "tipo"])["valor"].sum()` read at one month and type. */
  ghost function SomaPorMesTipo(ls: seq<Linha>, m: int, tipo: string): int
    decreases |ls|
  {
    if |ls| == 0 then 0
    else (if ls[0].mes == m && ls[0].tipo == tipo then ls[0].valor else 0) + SomaPorMesTipo(ls[1..], m, tipo)
  }

  lemma {:induction false} SomaUnique(ls: seq<Linha>, m: int, tipo: string, k: int)
    requires -1 <= k < |ls|
    requires 0 <= k ==> ls[k].mes == m && ls[k].tipo == tipo
    requires forall j :: 0 <= j < |ls| && j != k ==> ls[j].mes != m || ls[j].tipo != tipo
    ensures SomaPorMesTipo(ls, m, tipo) == if k < 0 then 0 else ls[k].valor
    decreases |ls|
  {
    if |ls| > 0 {
      var t := ls[1..];
      forall j | 0 <= j < |t| && j != k - 1 ensures t[j].mes != m || t[j].tipo != tipo {
        assert t[j] == ls[j + 1];
      }
      if k == 0 {
        SomaUnique(t, m, tipo, -1);
      } else {
        SomaUnique(t, m, tipo, if k < 0 then -1 else k - 1);
      }
    }
  }

  /** Summing a melted table back by month and type finds the one wide row of
      that month (index `k`), or nothing when no row has that month (`k` = -1). */
  lemma SomaMelt(ws: seq<Wide>, m: int, k: int)
    requires MesesCrescentes(ws)
    requires -1 <= k < |ws|
    requires 0 <= k ==> ws[k].mes == m
    requires k < 0 ==> forall w :: w in ws ==> w.mes != m
    ensures SomaPorMesTipo(Melt(ws), m, ADMISSOES) == if k < 0 then 0 else ws[k].admissoes
    ensures SomaPorMesTipo(Melt(ws), m, DESLIGAMENTOS) == if k < 0 then 0 else ws[k].desligamentos
  {
    var r, n := Melt(ws), |ws|;
    assert ADMISSOES != DESLIGAMENTOS by {
      assert |ADMISSOES| != |DESLIGAMENTOS|;
    }
    forall j | 0 <= j < |r| && j != k ensures r[j].mes != m || r[j].tipo != ADMISSOES {
      if j < n {
        assert r[j] == Linha(ws[j].mes, ADMISSOES, ws[j].admissoes);
        if k < 0 { assert ws[j] in ws; }
      } else {
        assert r[j] == Linha(ws[j - n].mes, DESLIGAMENTOS, ws[j - n].desligamentos);
      }
    }
    SomaUnique(r, m, ADMISSOES, k);
    var k' := if k < 0 then -1 else n + k;
    forall j | 0 <= j < |r| && j != k' ensures r[j].mes != m || r[j].tipo != DESLIGAMENTOS {
      if j < n {
        assert r[j] == Linha(ws[j].mes, ADMISSOES, ws[j].admissoes);
      } else {
        assert r[j] == Linha(ws[j - n].mes, DESLIGAMENTOS, ws[j - n].desligamentos);
        if k < 0 { assert ws[j - n] in ws; }
      }
    }
    if 0 <= k {
      assert r[n + k] == Linha(ws[k].mes, DESLIGAMENTOS, ws[k].desligamentos);
    }
    SomaUnique(r, m, DESLIGAMENTOS, k');
  }

  /** Round trip: summing the long table back by month and type gives, for every
      month, the admissions and separations counts when the month survives the
      inner join, and nothing when it does not. */
  lemma RoundTrip(rows: seq<Movimentacao>, m: int)
    ensures var r := GerarTabelaAdmissoesDesligamentos(rows);
      var both := m in MesesCom(rows, 1) && m in MesesCom(rows, -1);
      && SomaPorMesTipo(r, m, ADMISSOES) == (if both then Count(rows, m, 1) else 0)
      && SomaPorMesTipo(r, m, DESLIGAMENTOS) == (if both then Count(rows, m, -1) else 0)
  {
    var ws := TabelaLarga(rows);
    assert GerarTabelaAdmissoesDesligamentos(rows) == Melt(ws);
    RoundTripLarga(rows, ws, m);
  }

  lemma RoundTripLarga(rows: seq<Movimentacao>, ws: seq<Wide>, m: int)
    requires MesesCrescentes(ws)
    requires MesesWide(ws) == MesesCom(rows, 1) * MesesCom(rows, -1)
    requires forall w :: w in ws ==> w.admissoes == Count(rows, w.mes, 1) && w.desligamentos == Count(rows, w.mes, -1)
    ensures var both := m in MesesCom(rows, 1) && m in MesesCom(rows, -1);
      && SomaPorMesTipo(Melt(ws), m, ADMISSOES) == (if both then Count(rows, m, 1) else 0)
      && SomaPorMesTipo(Melt(ws), m, DESLIGAMENTOS) == (if both then Count(rows, m, -1) else 0)
  {
    if m in MesesCom(rows, 1) && m in MesesCom(rows, -1) {
      assert m in MesesWide(ws);
      var k :| 0 <= k < |ws| && ws[k].mes == m;
      assert ws[k] in ws;
      SomaMelt(ws, m, k);
    } else {
      forall w | w in ws ensures w.mes != m {
        assert w.mes in MesesWide(ws);
      }
      SomaMelt(ws, m, -1);
    }
  }
}
