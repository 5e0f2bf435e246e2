# Osasco jobs dashboard: a Dafny model of its data logic

The dashboard shows the jobs market of Osasco from the RAIS and CAGED
tables. It reads the tables once at start-up. Each chart is redrawn when its
dropdown changes. Each of the four modelled charts filters a table by the
dropdown value, groups the rows by a key, sums one integer measure and, for
two rankings, sorts the groups by their totals. Two other charts average
floating-point values and three GDP charts have no dropdown; neither kind is
modelled. A separate routine turns CAGED movement records into
a long admissions/separations table for a line chart.

This project models those transformations as pure Dafny functions over
sequences of records and proves what they compute:

- `orders.dfy` (module `Orders`): the two orders the code sorts by. These are
  integers, and text compared code point by code point as Python's `sorted`
  and pandas' `groupby` compare `str`. Both are proved to be strict total orders.
- `frames.dfy` (module `Frames`): the pandas steps the dashboard uses.
  - Selection by the "Todos" sentinel or by a value.
  - `groupby(key, as_index=False).agg(sum)`, which sorts the keys and drops NaN keys.
  - `.sort_values(measure)`.
  - `sorted(col.dropna().unique())`, ascending and descending.
  - Each step is specified against a reference definition: counts, per-key sums, key sets.
- `metrics_dash.dfy` (module `MetricsDash`): `gerar_tabela_admissoes_desligamentos`.
  It is built step by step as the source does: partition, group-sum, inner
  merge, `abs`, `melt`. Its properties are proved against per-month counts of
  the input records.
- `painel.dfy` (module `Painel`): the dropdown option lists, the "Todos"
  dropdowns and the four summing callbacks of `painel_governo.py`.

A NaN cell is `None` of an `Option`. A dropdown value is a `Selection`:
either `Todos` or `Only(v)`. The loaded tables are one value of type
`Painel.Dados`, passed to each callback. In the source they are module globals.

The inner join of `pd.merge` drops every month that lacks either admissions
or separations. The model keeps this behaviour, because the code does so
(src/metrics_dash_osasco.py:16). `MetricsDash.MesSemDesligamentoDescartado`
exhibits it on a concrete input.

## Model

| member | source | states |
|---|---|---|
| Orders.TextLessIsStrictTotal | painel_governo.py:42-49 | the code-point order used to sort section names is irreflexive, transitive and total, so sorting and grouping by text are well defined |
| Orders.TextLessTransitive | painel_governo.py:42-49 | text order is transitive, by induction on the common prefix |
| Orders.TextLessTotal | painel_governo.py:42-49 | two different texts are always ordered one way or the other |
| Frames.Select | painel_governo.py:259-264 | "Todos" keeps the table as it is; any other value keeps exactly the rows (with their multiplicities) whose column equals it |
| Frames.Where | src/metrics_dash_osasco.py:5 | boolean row selection keeps each row exactly as many times as it occurs, if its column equals the value, and no other row |
| Frames.WhereAppend | painel_governo.py:262-264 | selection distributes over concatenation, so rows are judged one at a time |
| Frames.AddTo | painel_governo.py:266-268 | adding a row to a sorted group table keeps it sorted, adds the key and adds the measure to that key's total and to the grand total |
| Frames.GroupSum | painel_governo.py:266-268 | `groupby(...).agg(sum)`: keys strictly ascending, exactly the non-NaN keys of the input, each total the sum of the measure over that key's rows, grand total the sum over all keyed rows |
| Frames.GroupSumRows | painel_governo.py:266-268 | one output row per distinct key, each row's total is the measure summed over that key's rows |
| Frames.SumOverSelect | painel_governo.py:259-268 | summing after selecting equals summing the rows that pass the selection |
| Frames.FilterGroupSum | painel_governo.py:258-268 | with "Todos", the whole table is aggregated; otherwise exactly the keys of the selected rows appear, ascending, once each, with per-key sums over the selected rows; the totals add up to the selected keyed rows' measure; a value no row holds gives an empty table |
| Frames.SortByMeasure | painel_governo.py:334 | `.sort_values` by total: totals non-decreasing, and the result is a permutation of the input |
| Frames.SortKeepsGroups | painel_governo.py:331-335 | sorting a grouped table keeps its keys, one row per key, each with its own total |
| Frames.FilterGroupSumByMeasure | painel_governo.py:331-335 | the ranking charts: a permutation of the filtered group table, totals non-decreasing, one row per selected key with that key's sum, empty for a value no row holds |
| Frames.SortedUnique | painel_governo.py:42-45 | `sorted(col.dropna().unique())`: strictly ascending, and a value is listed exactly when some non-NaN cell holds it |
| Frames.SortedUniqueDescending | painel_governo.py:50-53 | the same with `reverse=True`: strictly descending, the same values |
| Frames.InsertUnique | painel_governo.py:42-45 | inserting into a strictly ascending list keeps it strictly ascending and adds exactly that value |
| Frames.Find | src/metrics_dash_osasco.py:16 | looking a month up in a grouped table finds it exactly when it is a key, with that key's total |
| MetricsDash.CountPositive | src/metrics_dash_osasco.py:4-15 | a month has a positive count of records with an indicator exactly when some record of that month has it |
| MetricsDash.SumWhereCount | src/metrics_dash_osasco.py:5-7 | summing the indicator over a partition gives the indicator times the record count |
| MetricsDash.TotaisPorMes | src/metrics_dash_osasco.py:4-15 | one partition summed per month: months are those with a record of that indicator, ascending; each total is the indicator times the count |
| MetricsDash.Merge | src/metrics_dash_osasco.py:16 | inner join on `mes` of two group-by results (each month at most once per side): months strictly ascending, exactly the months present on both sides, each with both sides' totals |
| MetricsDash.AbsDesligamentos | src/metrics_dash_osasco.py:17-19 | `abs` on the separations column: months and admissions unchanged row by row, and each separations value becomes the non-negative one of itself and its negation; `MetricsDash.AbsCounts` shows this turns the summed -1 indicators into the separations count |
| MetricsDash.AbsCounts | src/metrics_dash_osasco.py:17-19 | `abs` turns the summed -1 indicators into the separations count and keeps the months in place |
| MetricsDash.Melt | src/metrics_dash_osasco.py:20-25 | twice as many rows: first all admissions rows in table order, then all separations rows in the same order |
| MetricsDash.PivotMelt | src/metrics_dash_osasco.py:20-25 | melting loses nothing: reading row `i` of each half back into one wide row (the positional inverse of `melt`) gives the wide table |
| MetricsDash.MeltHalves | src/metrics_dash_osasco.py:20-25 | the melted halves hold "admissoes" then "desligamentos" rows, with the same months in the same order |
| MetricsDash.TabelaLarga | src/metrics_dash_osasco.py:4-19 | the merged table: months strictly ascending, exactly those with both an admission and a separation, each with the two counts |
| MetricsDash.GerarTabelaAdmissoesDesligamentos | src/metrics_dash_osasco.py:3-26 | two equal halves, "admissoes" rows with strictly ascending months and then "desligamentos" rows with the same months; months are exactly those with both kinds; each value is the count of that kind in that month |
| MetricsDash.ValoresPositivos | src/metrics_dash_osasco.py:4-19 | every value in the output is positive, so none is negative |
| MetricsDash.WideCard | src/metrics_dash_osasco.py:16 | a table with strictly ascending months has one row per month |
| MetricsDash.RowCount | src/metrics_dash_osasco.py:20-25 | the output has two rows per month that has both an admission and a separation |
| MetricsDash.EmptyResult | src/metrics_dash_osasco.py:3-26 | an empty input, or one with no month having both kinds, gives an empty output |
| MetricsDash.OutrosIndicadoresIgnorados | src/metrics_dash_osasco.py:5-11 | a record whose indicator is neither 1 nor -1 has no effect on the output |
| MetricsDash.UmMes | src/metrics_dash_osasco.py:3-26 | when a single month has both kinds, the output is its admissions row followed by its separations row |
| MetricsDash.MesSemDesligamentoDescartado | src/metrics_dash_osasco.py:16 | three admissions and two separations in month 1 plus one admission in month 2 give only month 1's rows (3 and 2) |
| MetricsDash.SomaMelt | src/metrics_dash_osasco.py:20-25 | summing a melted table per month and type finds that month's wide value, or 0 for an absent month |
| MetricsDash.RoundTrip | src/metrics_dash_osasco.py:3-26 | summing the output back per month and type gives each kind's count for months with both kinds, and 0 for every other month |
| Painel.OpcoesTexto | painel_governo.py:42-49 | a section list is strictly ascending, has no duplicates and lists exactly the non-NaN sections of its column |
| Painel.OpcoesAno | painel_governo.py:50-57 | a year list is strictly descending, has no duplicates and lists exactly the non-NaN years of its column |
| Painel.OpcoesCnae | painel_governo.py:42-45 | `opcoes_cnae`: the sections of `caged_saldo_anual`, ascending, each once |
| Painel.OpcoesCnaeRais | painel_governo.py:46-49 | `opcoes_cnae_rais`: the sections of `rais_anual`, ascending, each once |
| Painel.OpcoesCagedAno | painel_governo.py:50-53 | `opcoes_caged_ano`: the years of `caged_saldo_secao`, newest first, each once |
| Painel.OpcoesCagedAnoIdade | painel_governo.py:54-57 | `opcoes_caged_ano_idade`: the years of `caged_saldo_idade`, newest first, each once |
| Painel.OpcoesCnaeCagedMediaIdade | painel_governo.py:58-61 | the sections of `caged_media_idade`, ascending, each once |
| Painel.OpcoesCnaeCagedSalario | painel_governo.py:62-65 | the sections of `caged_media_salario`, ascending, each once |
| Painel.ComTodos | painel_governo.py:139 | "Todos" comes first and only there, followed by the listed values in order |
| Painel.ComTodosOffers | painel_governo.py:139 | a dropdown offers a value exactly when its list holds it |
| Painel.FiltroCnae | painel_governo.py:139 | the options of the RAIS dropdown as written, and of the CAGED dropdown at line 159, which is built alike: "Todos" first and only there, then exactly the sections of the CAGED annual table, strictly ascending, each once |
| Painel.FiltroCnaeRaisSaldoCorrigido | painel_governo.py:46-49 | the RAIS dropdown fed with `opcoes_cnae_rais`: "Todos" first and only there, then exactly the sections of the RAIS table, strictly ascending, each once |
| Painel.FiltroAnoCagedSecao | painel_governo.py:175 | "Todos" first and only there, then exactly the years of `caged_saldo_secao`, newest first, each once |
| Painel.FiltroAnoCagedIdade | painel_governo.py:190 | "Todos" first and only there, then exactly the years of `caged_saldo_idade`, newest first, each once |
| Painel.FiltroCagedSalarioMedio | painel_governo.py:206 | "Todos" first and only there, then exactly the sections of `caged_media_salario`, strictly ascending, each once |
| Painel.FiltroCagedMediaIdade | painel_governo.py:221 | "Todos" first and only there, then exactly the sections of `caged_media_idade`, strictly ascending, each once |
| Painel.AtualizarGraficoCaged | painel_governo.py:258-268 | net movement per year: unfiltered with "Todos"; otherwise years ascending, once each, exactly those of the selected section's rows, each with its sum; totals add up to the selected rows' movement; empty for an unknown section |
| Painel.AtualizarGraficoRaisAnual | painel_governo.py:292-300 | active links per year, with the same guarantees over the RAIS table |
| Painel.AtualizarGraficoCagedSaldoSecao | painel_governo.py:325-335 | net movement per section for the chosen year: totals non-decreasing, one row per section of the selected rows with its sum, empty for an unknown year |
| Painel.AtualizarGraficoCagedSaldoIdade | painel_governo.py:360-370 | net movement per age for the chosen year: totals non-decreasing, one row per age of the selected rows with its sum, empty for an unknown year |
| Painel.SaldoSecaoTodos | painel_governo.py:326-327 | with "Todos", the section ranking is a permutation of the unfiltered grouped table |
| Painel.SaldoIdadeTodos | painel_governo.py:361-362 | with "Todos", the age ranking is a permutation of the unfiltered grouped table |
| Painel.SecaoSoNaRais | painel_governo.py:139 | as written, a section held only by the RAIS table is not offered for the RAIS chart, although that chart has data for it |
| Painel.SecaoSoNoCaged | painel_governo.py:139 | as written, a section held only by the CAGED table is offered for the RAIS chart, which then draws nothing |
| Painel.FiltroRaisComoEscrito | painel_governo.py:139 | as written, a RAIS section can be missing from its dropdown, and an offered CAGED-only section draws an empty chart |
| Painel.FiltroRaisCorrigido | painel_governo.py:46-49 | with `opcoes_cnae_rais`, a section is offered exactly when selecting it keeps some RAIS rows, and every section whose RAIS chart has data is offered; when every RAIS row has a year, a section is offered exactly when its chart has data (the chart groups by year and drops rows without one) |

## Left out

- Loading the CSV files (painel_governo.py:11-39) is file I/O. The tables are a `Painel.Dados` value, and each row keeps only the columns the modelled code reads.
- The Dash app, its layout, the widgets and the callback wiring are left out as UI plumbing. So are the Plotly figures, their axes and annotations, and the loop that restyles them.
- `atualizar_grafico_caged_media_salario` and `atualizar_grafico_caged_media_idade` (painel_governo.py:395-451) average floating-point wages and ages. They are left out. Their dropdowns are modelled.
- Measures are whole numbers that are never NaN. pandas would skip NaN measures in a sum; the model has none.
- In `MetricsDash`, `mes` and `saldomovimentacao` are never NaN. pandas would drop a NaN month when grouping.
- Integers are unbounded, so int64 overflow in a sum is not modelled.
- Frames.SortByMeasure: its contract fixes the order of the totals, not the order of tied rows. pandas' default quicksort does not promise a tie order either; the model's insertion sort is one valid choice.
- Painel.ComTodos: "Todos" is a separate `Selection` case. The source compares the dropdown string with "Todos", so a real section named "Todos" would mean "no filter" there. The model does not capture that collision.
- The dropdown `{"label": x, "value": x}` records are reduced to their values, because label and value are always equal.

## Findings

| source | as written | input that shows it | evidently intended | confidence | as-written member | corrected member |
|---|---|---|---|---|---|---|
| painel_governo.py:139 | the RAIS chart's dropdown `filtro-cnae-rais-saldo` is fed `opcoes_cnae`, the sections of `caged_saldo_anual`; `opcoes_cnae_rais` (46-49) is computed and never used | one CAGED row for section "Comercio" and one RAIS row for "Industria": "Industria" is not offered, and the offered "Comercio" draws an empty RAIS chart | feed the dropdown `opcoes_cnae_rais`, so it offers exactly the RAIS sections | not executed; high | Painel.FiltroRaisComoEscrito | Painel.FiltroRaisCorrigido |
