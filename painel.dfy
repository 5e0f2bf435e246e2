/** The data side of the Osasco jobs dashboard (painel_governo.py): the option
    lists of the filter dropdowns and the four callbacks that redraw a bar or
    area chart from a dropdown value by filtering a dataset, grouping it by a
    key and summing one integer measure. The datasets are read once at start-up
    and never changed; here they are a value of type `Dados`. */
module Painel {
  import opened Orders
  import opened Frames

  /*
   * The datasets, reduced to the columns the modelled code reads
   */

  /** A row of `caged_saldo_anual`: year, CNAE section, net job movement. */
  datatype CagedSaldoAnual = CagedSaldoAnual(ano: Option<int>, secao: Option<string>, saldo: int)

  /** A row of `rais_anual`: year, CNAE section, active employment links. */
  datatype RaisAnual = RaisAnual(ano: Option<int>, secao: Option<string>, vinculos: int)

  /** A row of `caged_saldo_secao`: year, CNAE section, net job movement. */
  datatype CagedSaldoSecao = CagedSaldoSecao(ano: Option<int>, secao: Option<string>, saldo: int)

  /** A row of `caged_saldo_idade`: year, age, net job movement. */
  datatype CagedSaldoIdade = CagedSaldoIdade(ano: Option<int>, idade: Option<int>, saldo: int)

  /** A row of `caged_media_idade` or `caged_media_salario`, reduced to the CNAE
      section that their dropdowns list. */
  datatype CagedMedia = CagedMedia(secao: Option<string>)

  /** The module-level tables the dashboard loads at start-up. */
  datatype Dados = Dados(
    raisAnual: seq<RaisAnual>,
    cagedSaldoAnual: seq<CagedSaldoAnual>,
    cagedSaldoSecao: seq<CagedSaldoSecao>,
    cagedSaldoIdade: seq<CagedSaldoIdade>,
    cagedMediaIdade: seq<CagedMedia>,
    cagedMediaSalario: seq<CagedMedia>)

  /*
   * Columns
   */

  function AnoCaged(x: CagedSaldoAnual): Option<int> { x.ano }
  function SecaoCaged(x: CagedSaldoAnual): Option<string> { x.secao }
  function SaldoCaged(x: CagedSaldoAnual): int { x.saldo }

  function AnoRais(x: RaisAnual): Option<int> { x.ano }
  function SecaoRais(x: RaisAnual): Option<string> { x.secao }
  function VinculosRais(x: RaisAnual): int { x.vinculos }

  function AnoSecao(x: CagedSaldoSecao): Option<int> { x.ano }
  function SecaoSecao(x: CagedSaldoSecao): Option<string> { x.secao }
  function SaldoSecao(x: CagedSaldoSecao): int { x.saldo }

  function AnoIdade(x: CagedSaldoIdade): Option<int> { x.ano }
  function IdadeIdade(x: CagedSaldoIdade): Option<int> { x.idade }
  function SaldoIdade(x: CagedSaldoIdade): int { x.saldo }

  function SecaoMedia(x: CagedMedia): Option<string> { x.secao }

  /*
   * Dropdown option lists
   */

  /** The sections a text column holds, without NaN, each once, ascending. */
  function OpcoesTexto<R(==,!new)>(rows: seq<R>, col: R -> Option<string>): (r: seq<string>)
    ensures Increasing(r, TextLess)
    ensures forall i, j :: 0 <= i < j < |r| ==> r[i] != r[j]
    ensures forall s :: s in r <==> exists x :: x in rows && col(x) == Some(s)
  {
    TextLessIsStrictTotal();
    var r := SortedUnique(Column(rows, col), TextLess);
    forall s ensures s in r <==> exists x :: x in rows && col(x) == Some(s) {
      InColumn(rows, col, s);
    }
    r
  }

  /** The years an integer column holds, without NaN, each once, newest first. */
  function OpcoesAno<R(==,!new)>(rows: seq<R>, col: R -> Option<int>): (r: seq<int>)
    ensures forall i, j :: 0 <= i < j < |r| ==> r[i] > r[j]
    ensures forall i, j :: 0 <= i < j < |r| ==> r[i] != r[j]
    ensures forall y :: y in r <==> exists x :: x in rows && col(x) == Some(y)
  {
    IntLessIsStrictTotal();
    var r := SortedUniqueDescending(Column(rows, col), IntLess);
    forall y ensures y in r <==> exists x :: x in rows && col(x) == Some(y) {
      InColumn(rows, col, y);
    }
    r
  }

  /** `opcoes_cnae`: the sections of `caged_saldo_anual`. */
  function OpcoesCnae(dados: Dados): (r: seq<string>)
    ensures Increasing(r, TextLess)
    ensures forall s :: s in r <==> exists x :: x in dados.cagedSaldoAnual && x.secao == Some(s)
  {
    OpcoesTexto(dados.cagedSaldoAnual, SecaoCaged)
  }

  /** `opcoes_cnae_rais`: the sections of `rais_anual`. */
  function OpcoesCnaeRais(dados: Dados): (r: seq<string>)
    ensures Increasing(r, TextLess)
    ensures forall s :: s in r <==> exists x :: x in dados.raisAnual && x.secao == Some(s)
  {
    OpcoesTexto(dados.raisAnual, SecaoRais)
  }

  /** `opcoes_caged_ano`: the years of `caged_saldo_secao`, newest first. */
  function OpcoesCagedAno(dados: Dados): (r: seq<int>)
    ensures forall i, j :: 0 <= i < j < |r| ==> r[i] > r[j]
    ensures forall y :: y in r <==> exists x :: x in dados.cagedSaldoSecao && x.ano == Some(y)
  {
    OpcoesAno(dados.cagedSaldoSecao, AnoSecao)
  }

  /** `opcoes_caged_ano_idade`: the years of `caged_saldo_idade`, newest first. */
  function OpcoesCagedAnoIdade(dados: Dados): (r: seq<int>)
    ensures forall i, j :: 0 <= i < j < |r| ==> r[i] > r[j]
    ensures forall y :: y in r <==> exists x :: x in dados.cagedSaldoIdade && x.ano == Some(y)
  {
    OpcoesAno(dados.cagedSaldoIdade, AnoIdade)
  }

  /** `opcoes_cnae_caged_media_idade`: the sections of `caged_media_idade`. */
  function OpcoesCnaeCagedMediaIdade(dados: Dados): (r: seq<string>)
    ensures Increasing(r, TextLess)
    ensures forall s :: s in r <==> exists x :: x in dados.cagedMediaIdade && x.secao == Some(s)
  {
    OpcoesTexto(dados.cagedMediaIdade, SecaoMedia)
  }

  /** `opcoes_cnae_caged_salario`: the sections of `caged_media_salario`. */
  function OpcoesCnaeCagedSalario(dados: Dados): (r: seq<string>)
    ensures Increasing(r, TextLess)
    ensures forall s :: s in r <==> exists x :: x in dados.cagedMediaSalario && x.secao == Some(s)
  {
    OpcoesTexto(dados.cagedMediaSalario, SecaoMedia)
  }

  /** A dropdown's options: "Todos" first, then one option per listed value,
      in the list's order. "Todos" is offered exactly once. */
  function ComTodos<V>(values: seq<V>): (r: seq<Selection<V>>)
    ensures |r| == |values| + 1 && r[0] == Todos
    ensures forall i :: 1 <= i < |r| ==> r[i] == Only(values[i - 1])
    ensures forall i :: 1 <= i < |r| ==> r[i] != Todos
  {
    [Todos] + seq(|values|, i requires 0 <= i < |values| => Only(values[i]))
  }

  /** The values a dropdown offers besides "Todos" are those of its list. */
  lemma ComTodosOffers<V>(values: seq<V>, v: V)
    ensures Only(v) in ComTodos(values) <==> v in values
  {
    var r := ComTodos(values);
    if Only(v) in r {
      var i :| 0 <= i < |r| && r[i] == Only(v);
      assert values[i - 1] == v;
    }
    if v in values {
      var i :| 0 <= i < |values| && values[i] == v;
      assert r[i + 1] == Only(v);
    }
  }

  /** The options of dropdowns `filtro-cnae-rais-saldo` and
      `filtro-cnae-caged-saldo`, which are built alike: "Todos", then the
      sections of `caged_saldo_anual`, ascending, each once. The first of them
      filters the RAIS table, whose sections need not be the ones listed. */
  function FiltroCnae(dados: Dados): (r: seq<Selection<string>>)
    ensures |r| > 0 && r[0] == Todos
    ensures forall i :: 1 <= i < |r| ==> r[i].Only?
    ensures forall i, j :: 1 <= i < j < |r| ==> TextLess(r[i].value, r[j].value)
    ensures forall i, j :: 1 <= i < j < |r| ==> r[i] != r[j]
    ensures forall s :: Only(s) in r <==> exists x :: x in dados.cagedSaldoAnual && x.secao == Some(s)
  {
    var r := ComTodos(OpcoesCnae(dados));
    forall s ensures Only(s) in r <==> s in OpcoesCnae(dados) {
      ComTodosOffers(OpcoesCnae(dados), s);
    }
    r
  }

  /** Dropdown `filtro-cnae-rais-saldo` fed with `opcoes_cnae_rais`, the list
      computed for it: it offers exactly the sections of the RAIS table. */
  function FiltroCnaeRaisSaldoCorrigido(dados: Dados): (r: seq<Selection<string>>)
    ensures |r| > 0 && r[0] == Todos
    ensures forall i :: 1 <= i < |r| ==> r[i].Only?
    ensures forall i, j :: 1 <= i < j < |r| ==> TextLess(r[i].value, r[j].value)
    ensures forall i, j :: 1 <= i < j < |r| ==> r[i] != r[j]
    ensures forall s :: Only(s) in r <==> exists x :: x in dados.raisAnual && x.secao == Some(s)
  {
    var r := ComTodos(OpcoesCnaeRais(dados));
    forall s ensures Only(s) in r <==> s in OpcoesCnaeRais(dados) {
      ComTodosOffers(OpcoesCnaeRais(dados), s);
    }
    r
  }

  /** Dropdown `filtro-ano-caged-secao`: the years of `caged_saldo_secao`. */
  function FiltroAnoCagedSecao(dados: Dados): (r: seq<Selection<int>>)
    ensures |r| > 0 && r[0] == Todos
    ensures forall i :: 1 <= i < |r| ==> r[i].Only?
    ensures forall i, j :: 1 <= i < j < |r| ==> r[i].value > r[j].value
    ensures forall i, j :: 1 <= i < j < |r| ==> r[i] != r[j]
    ensures forall y :: Only(y) in r <==> exists x :: x in dados.cagedSaldoSecao && x.ano == Some(y)
  {
    var r := ComTodos(OpcoesCagedAno(dados));
    forall y ensures Only(y) in r <==> y in OpcoesCagedAno(dados) {
      ComTodosOffers(OpcoesCagedAno(dados), y);
    }
    r
  }

  /** Dropdown `filtro-ano-caged-idade`: the years of `caged_saldo_idade`. */
  function FiltroAnoCagedIdade(dados: Dados): (r: seq<Selection<int>>)
    ensures |r| > 0 && r[0] == Todos
    ensures forall i :: 1 <= i < |r| ==> r[i].Only?
    ensures forall i, j :: 1 <= i < j < |r| ==> r[i].value > r[j].value
    ensures forall i, j :: 1 <= i < j < |r| ==> r[i] != r[j]
    ensures forall y :: Only(y) in r <==> exists x :: x in dados.cagedSaldoIdade && x.ano == Some(y)
  {
    var r := ComTodos(OpcoesCagedAnoIdade(dados));
    forall y ensures Only(y) in r <==> y in OpcoesCagedAnoIdade(dados) {
      ComTodosOffers(OpcoesCagedAnoIdade(dados), y);
    }
    r
  }

  /** Dropdown `filtro-ano-caged-salario-medio`: the sections of `caged_media_salario`. */
  function FiltroCagedSalarioMedio(dados: Dados): (r: seq<Selection<string>>)
    ensures |r| > 0 && r[0] == Todos
    ensures forall i :: 1 <= i < |r| ==> r[i].Only?
    ensures forall i, j :: 1 <= i < j < |r| ==> TextLess(r[i].value, r[j].value)
    ensures forall i, j :: 1 <= i < j < |r| ==> r[i] != r[j]
    ensures forall s :: Only(s) in r <==> exists x :: x in dados.cagedMediaSalario && x.secao == Some(s)
  {
    var r := ComTodos(OpcoesCnaeCagedSalario(dados));
    forall s ensures Only(s) in r <==> s in OpcoesCnaeCagedSalario(dados) {
      ComTodosOffers(OpcoesCnaeCagedSalario(dados), s);
    }
    r
  }

  /** Dropdown `filtro-ano-caged-media-idade`: the sections of `caged_media_idade`. */
  function FiltroCagedMediaIdade(dados: Dados): (r: seq<Selection<string>>)
    ensures |r| > 0 && r[0] == Todos
    ensures forall i :: 1 <= i < |r| ==> r[i].Only?
    ensures forall i, j :: 1 <= i < j < |r| ==> TextLess(r[i].value, r[j].value)
    ensures forall i, j :: 1 <= i < j < |r| ==> r[i] != r[j]
    ensures forall s :: Only(s) in r <==> exists x :: x in dados.cagedMediaIdade && x.secao == Some(s)
  {
    var r := ComTodos(OpcoesCnaeCagedMediaIdade(dados));
    forall s ensures Only(s) in r <==> s in OpcoesCnaeCagedMediaIdade(dados) {
      ComTodosOffers(OpcoesCnaeCagedMediaIdade(dados), s);
    }
    r
  }

  /*
   * Chart callbacks
   */

  /** `atualizar_grafico_caged`: net movement per year, for one CNAE section or
      for all. */
  function AtualizarGraficoCaged(dados: Dados, filtroCnae: Selection<string>): (r: seq<Group<int>>)
    ensures filtroCnae.Todos? ==> r == GroupSum(dados.cagedSaldoAnual, AnoCaged, SaldoCaged, IntLess)
    ensures Ascending(r, IntLess) && |r| == |Keys(r)|
    ensures Keys(r) == SelectedKeys(dados.cagedSaldoAnual, SecaoCaged, filtroCnae, AnoCaged)
    ensures forall ano :: Lookup(r, ano) == SumWhere(dados.cagedSaldoAnual, SecaoCaged, filtroCnae, AnoCaged, SaldoCaged, ano)
    ensures Total(r) == KeyedSum(Select(dados.cagedSaldoAnual, SecaoCaged, filtroCnae), AnoCaged, SaldoCaged)
    ensures filtroCnae.Only? && (forall x :: x in dados.cagedSaldoAnual ==> x.secao != Some(filtroCnae.value)) ==> r == []
  {
    IntLessIsStrictTotal();
    FilterGroupSum(dados.cagedSaldoAnual, SecaoCaged, filtroCnae, AnoCaged, SaldoCaged, IntLess)
  }

  /** `atualizar_grafico_rais_anual`: active employment links per year, for one
      CNAE section or for all. */
  function AtualizarGraficoRaisAnual(dados: Dados, filtroCnae: Selection<string>): (r: seq<Group<int>>)
    ensures filtroCnae.Todos? ==> r == GroupSum(dados.raisAnual, AnoRais, VinculosRais, IntLess)
    ensures Ascending(r, IntLess) && |r| == |Keys(r)|
    ensures Keys(r) == SelectedKeys(dados.raisAnual, SecaoRais, filtroCnae, AnoRais)
    ensures forall ano :: Lookup(r, ano) == SumWhere(dados.raisAnual, SecaoRais, filtroCnae, AnoRais, VinculosRais, ano)
    ensures Total(r) == KeyedSum(Select(dados.raisAnual, SecaoRais, filtroCnae), AnoRais, VinculosRais)
    ensures filtroCnae.Only? && (forall x :: x in dados.raisAnual ==> x.secao != Some(filtroCnae.value)) ==> r == []
  {
    IntLessIsStrictTotal();
    FilterGroupSum(dados.raisAnual, SecaoRais, filtroCnae, AnoRais, VinculosRais, IntLess)
  }

  /** `atualizar_grafico_caged_saldo_secao`: net movement per CNAE section, for
      one year or for all, ranked by ascending net movement. */
  function AtualizarGraficoCagedSaldoSecao(dados: Dados, filtroAno: Selection<int>): (r: seq<Group<string>>)
    ensures ByMeasure(r)
    ensures Keys(r) == SelectedKeys(dados.cagedSaldoSecao, AnoSecao, filtroAno, SecaoSecao) && |r| == |Keys(r)|
    ensures forall i :: 0 <= i < |r| ==> r[i].total == SumWhere(dados.cagedSaldoSecao, AnoSecao, filtroAno, SecaoSecao, SaldoSecao, r[i].key)
    ensures filtroAno.Only? && (forall x :: x in dados.cagedSaldoSecao ==> x.ano != Some(filtroAno.value)) ==> r == []
  {
    TextLessIsStrictTotal();
    FilterGroupSumByMeasure(dados.cagedSaldoSecao, AnoSecao, filtroAno, SecaoSecao, SaldoSecao, TextLess)
  }

  /** `atualizar_grafico_caged_saldo_idade`: net movement per age, for one year
      or for all, ranked by ascending net movement. */
  function AtualizarGraficoCagedSaldoIdade(dados: Dados, filtroAno: Selection<int>): (r: seq<Group<int>>)
    ensures ByMeasure(r)
    ensures Keys(r) == SelectedKeys(dados.cagedSaldoIdade, AnoIdade, filtroAno, IdadeIdade) && |r| == |Keys(r)|
    ensures forall i :: 0 <= i < |r| ==> r[i].total == SumWhere(dados.cagedSaldoIdade, AnoIdade, filtroAno, IdadeIdade, SaldoIdade, r[i].key)
    ensures filtroAno.Only? && (forall x :: x in dados.cagedSaldoIdade ==> x.ano != Some(filtroAno.value)) ==> r == []
  {
    IntLessIsStrictTotal();
    FilterGroupSumByMeasure(dados.cagedSaldoIdade, AnoIdade, filtroAno, IdadeIdade, SaldoIdade, IntLess)
  }

  /** With "Todos", the section ranking holds the rows of the unfiltered
      grouped table, reordered. (Text order being a strict total order is
      stated first, as the grouping needs it.) */
  lemma SaldoSecaoTodos(dados: Dados)
    ensures && StrictTotalOrder(TextLess)
            && multiset(AtualizarGraficoCagedSaldoSecao(dados, Todos))
               == multiset(GroupSum(dados.cagedSaldoSecao, SecaoSecao, SaldoSecao, TextLess))
  {
    TextLessIsStrictTotal();
    RankingTodos(dados.cagedSaldoSecao, AnoSecao, SecaoSecao, SaldoSecao, TextLess);
  }

  /** With "Todos", the age ranking holds the rows of the unfiltered grouped
      table, reordered. */
  lemma SaldoIdadeTodos(dados: Dados)
    ensures multiset(AtualizarGraficoCagedSaldoIdade(dados, Todos))
      == multiset(GroupSum(dados.cagedSaldoIdade, IdadeIdade, SaldoIdade, IntLess))
  {
    IntLessIsStrictTotal();
    RankingTodos(dados.cagedSaldoIdade, AnoIdade, IdadeIdade, SaldoIdade, IntLess);
  }

  /*
   * The RAIS section dropdown
   */

  /** As written, a section that only the RAIS table holds is not offered
      for the RAIS chart, although that chart has data for it. */
  lemma SecaoSoNaRais(dados: Dados, s: string, x: RaisAnual)
    requires x in dados.raisAnual && x.secao == Some(s) && x.ano.Some?
    requires forall y :: y in dados.cagedSaldoAnual ==> y.secao != Some(s)
    ensures Only(s) !in FiltroCnae(dados)
    ensures AtualizarGraficoRaisAnual(dados, Only(s)) != []
  {
    var g := AtualizarGraficoRaisAnual(dados, Only(s));
    assert x.ano.value in Keys(g);
  }

  /** As written, a section that only the CAGED table holds is offered for the
      RAIS chart, which then draws nothing. */
  lemma SecaoSoNoCaged(dados: Dados, s: string, y: CagedSaldoAnual)
    requires y in dados.cagedSaldoAnual && y.secao == Some(s)
    requires forall x :: x in dados.raisAnual ==> x.secao != Some(s)
    ensures Only(s) in FiltroCnae(dados)
    ensures AtualizarGraficoRaisAnual(dados, Only(s)) == []
  {
  }

  /** As written, the RAIS chart's dropdown can miss a section the RAIS table
      has, and can offer one it lacks, whose chart is then empty: with one CAGED
      row for "Comercio" and one RAIS row for "Industria", "Industria" is not
      offered and the offered "Comercio" draws nothing. */
  lemma FiltroRaisComoEscrito()
    ensures var dados := Dados([RaisAnual(Some(2020), Some("Industria"), 7)],
                               [CagedSaldoAnual(Some(2020), Some("Comercio"), 5)], [], [], [], []);
      && Only("Industria") !in FiltroCnae(dados)
      && AtualizarGraficoRaisAnual(dados, Only("Industria")) != []
      && Only("Comercio") in FiltroCnae(dados)
      && AtualizarGraficoRaisAnual(dados, Only("Comercio")) == []
  {
    var x := RaisAnual(Some(2020), Some("Industria"), 7);
    var y := CagedSaldoAnual(Some(2020), Some("Comercio"), 5);
    var dados := Dados([x], [y], [], [], [], []);
    assert "Industria" != "Comercio" by {
      assert "Industria"[0] != "Comercio"[0];
    }
    SecaoSoNaRais(dados, "Industria", x);
    SecaoSoNoCaged(dados, "Comercio", y);
  }

  /** With `opcoes_cnae_rais`, a section is offered exactly when selecting it
      keeps some rows of the RAIS table, and a section whose chart has data is
      always offered. The chart groups by year, which drops rows without one;
      when every RAIS row has a year, a section is offered exactly when its
      chart has data. */
  lemma FiltroRaisCorrigido(dados: Dados, s: string)
    ensures Only(s) in FiltroCnaeRaisSaldoCorrigido(dados) <==> Select(dados.raisAnual, SecaoRais, Only(s)) != []
    ensures AtualizarGraficoRaisAnual(dados, Only(s)) != [] ==> Only(s) in FiltroCnaeRaisSaldoCorrigido(dados)
    ensures (forall x :: x in dados.raisAnual ==> x.ano.Some?) ==>
      (Only(s) in FiltroCnaeRaisSaldoCorrigido(dados) <==> AtualizarGraficoRaisAnual(dados, Only(s)) != [])
  {
    var sel := Select(dados.raisAnual, SecaoRais, Only(s));
    var g := AtualizarGraficoRaisAnual(dados, Only(s));
    if Only(s) in FiltroCnaeRaisSaldoCorrigido(dados) {
      var x :| x in dados.raisAnual && x.secao == Some(s);
      assert multiset(sel)[x] == multiset(dados.raisAnual)[x] > 0;
      if x.ano.Some? {
        assert x.ano.value in Keys(g);
      }
    }
    if sel != [] {
      assert sel[0] in multiset(sel);
    }
    if g != [] {
      assert g[0].key in Keys(g);
      var x :| x in dados.raisAnual && x.secao == Some(s) && x.ano == Some(g[0].key);
    }
  }
}
