# Dengue notification records: filters, weekly statistics and the municipality list

This project is a Dafny model of the core of a pipeline that analyses SINAN
dengue notification records held in a pandas data frame. The core consists of:

- **Record filters** (`algoritmos/filtragem.py`, `src/padronizador.py`):
  - drop the cases classified as discarded (`classi_fin == 5`);
  - keep only one federative unit, whose abbreviation is looked up in the
    `UF_IBGE` table of IBGE codes;
  - drop the rows whose free-text `classificados` column mentions
    "descartado", in any letter case.
- **Weekly statistics** (`algoritmos/estatisticas.py`):
  - group the records by (year, epidemiological week) and count them;
  - summarise those counts: mean, median, modes, interquartile range and
    Tukey outliers;
  - compute the share of severe cases (`classi_fin == 12`).
- **Municipality list** (`algoritmos/municipios.py`): the loop that reads
  the São Paulo list (a name line followed by a 6- or 7-digit IBGE code
  line) into (6-digit code, name) pairs, followed by de-duplication by code.

How the model represents things:

- **Cells.** A cell is a number, a text or missing (NaN).
- **Coercion.** `pd.to_numeric(errors="coerce")` is `Tabelas.Coagir`: a
  number stays, a text of decimal digits is parsed, and anything else
  becomes NaN.
- **Frames.** A data frame is a `Tabela` value (column set, rows in order).
- **In-place updates.** Where the source overwrites a column in place, the
  frame is a `Quadro` object. The methods `FiltrarClassificados`,
  `FiltrarUf` and `CalcularProporcaoGraves` modify it.
  - `FiltrarClassificados` and `FiltrarUf` return the very same object
    when their column is missing, and `FiltrarUf` also when the
    abbreviation has no entry in `UF_IBGE`. Otherwise they return a fresh
    frame.
  - `CalcularProporcaoGraves` returns the proportion of severe rows.
- **Boolean-mask selection.** `quadro[mask]` is `Selecao.Filtro`.
  `Selecao.PosicoesMantidas` describes exactly which input positions it
  keeps.
- **Grouping.** `groupby(...).size()` is `Agrupamento.Agrupar`:
  - a row with a NaN key is dropped (`dropna=True`);
  - groups are sorted by (year, week) (`sort=True`).
- **Statistics.** They are exact rationals (`real`).
  - Quantiles use pandas' default linear interpolation at position
    (n − 1)·p.
  - The median is proved equal to the 50% quantile.
- **Municipality loader.** It receives the lines of the file as a
  `seq<string>`.

Three behaviours of the library calls that the model spells out:

- **Mode.** `Series.mode().tolist()` (`algoritmos/estatisticas.py:42`)
  returns **every** most frequent value, in ascending order.
  `Estatisticas.Moda` returns that list.
- **IQR.** `scipy.stats.iqr` (`algoritmos/estatisticas.py:46`) over a
  non-empty integer series computes the same linear quartiles as
  `Series.quantile`, so the IQR is Q3 − Q1 of the quartiles used for the
  fences.
- **The `.str` accessor.** `str.contains` (`src/padronizador.py:7`)
  raises AttributeError when pandas infers a non-string type for the
  `classificados` column. The model has no column types and approximates
  this as "the frame has rows and none of its cells is a string";
  `Padronizador.Filtrar` returns `None` in that case.

## Model

| member | source | states |
|---|---|---|
| Caracteres.Maiusculas | algoritmos/filtragem.py:38 | the model's ASCII `upper()` keeps the length, upper-cases each ASCII letter and leaves every other character as it is, so no lower-case ASCII letter remains |
| Caracteres.Minusculas | src/padronizador.py:7 | the case folding of `case=False`: same length, ASCII letters lower-cased, every other character unchanged, so no upper-case ASCII letter remains |
| Caracteres.MaiusculasIdempotente | algoritmos/filtragem.py:38 | upper-casing an already upper-cased abbreviation changes nothing |
| Caracteres.CaixaComum | src/padronizador.py:7 | a string and its upper case fold to the same lower case, and a string and its lower case to the same upper case |
| Caracteres.EhDigito | algoritmos/municipios.py:45 | a digit character of `isdigit()`, taken as the ASCII digits '0' to '9' |
| Caracteres.SoDigitos | algoritmos/municipios.py:45 | `str.isdigit()`: the text is non-empty and every character is a digit |
| Caracteres.EhEspaco | algoritmos/municipios.py:26 | the characters `strip()` removes: exactly Python's white-space code points (bidirectional class WS, B or S, or general category Zs) |
| Caracteres.EhLetra | algoritmos/municipios.py:38 | a letter of `isalpha()`, taken as the letters of the Basic Latin and Latin-1 blocks |
| Tabelas.Coagir | algoritmos/filtragem.py:21 | `to_numeric(errors="coerce")` of one cell: a number keeps its value, a missing cell is NaN, and a text gives a non-negative value exactly when it is all digits |
| Tabelas.CoagirExemplos | algoritmos/filtragem.py:21 | "12" gives 12, "05" gives 5 (leading zeros read as decimal), and "" and "1a" give NaN |
| Tabelas.Coagida | algoritmos/filtragem.py:21 | the cell `to_numeric(errors="coerce")` writes back is a number or NaN, coerces to the same value as the original, and leaves numbers untouched |
| Tabelas.CoagirClassiFin | algoritmos/filtragem.py:21 | overwriting `classi_fin` with its coerced values keeps the number of rows and every other field; each row's code coerces to what it did before and is no longer a text |
| Tabelas.CoagirSgUfNot | algoritmos/filtragem.py:43 | overwriting `sg_uf_not` with its coerced values keeps the number of rows and every other field; each row's code coerces to what it did before and is no longer a text |
| Tabelas.CoagirClassiFinJaCoagido | algoritmos/filtragem.py:21 | coercing a column that is already numeric or NaN leaves the rows unchanged |
| Selecao.Filtro | algoritmos/filtragem.py:23 | boolean-mask selection returns no more rows than it was given, and only rows of the input that pass the mask |
| Selecao.PosicoesMantidas | algoritmos/filtragem.py:23 | the selected rows are the input read at strictly increasing positions, and a position is among them exactly when its row passes the mask |
| Selecao.FiltroIdempotente | algoritmos/filtragem.py:23 | applying the same mask to an already filtered frame removes nothing |
| Selecao.FiltroPertence | algoritmos/filtragem.py:46 | a row is in the result exactly when it is in the input and passes the mask |
| Selecao.FiltroConcatena | algoritmos/filtragem.py:23 | selecting from two parts joined is selecting from each part and joining the results |
| Selecao.ContaUltimo | algoritmos/estatisticas.py:22-27 | counting one more element adds one exactly when it passes the mask |
| UnidadesFederativas.UfIbgeInjetiva | algoritmos/filtragem.py:4-10 | every code in `UF_IBGE` leads back to its own abbreviation, so no two units share a code |
| UnidadesFederativas.UfIbgeCodigos | algoritmos/filtragem.py:4-10 | the codes of the table are exactly the 27 IBGE unit codes |
| UnidadesFederativas.UF_IBGE | algoritmos/filtragem.py:4-10 | the 27 pairs of the source's dictionary, from each unit's abbreviation to its IBGE code |
| UnidadesFederativas.UfIbgeTamanho | algoritmos/filtragem.py:4-10 | the table has 27 units and maps "SP" to 35 |
| UnidadesFederativas.SiglaDoCodigoNaTabela | algoritmos/filtragem.py:4-10 | every listed code belongs to the unit whose abbreviation it maps back to |
| Filtragem.CodigoUf | algoritmos/filtragem.py:38 | `UF_IBGE.get(uf_sigla.upper())` finds a code exactly when the upper-cased abbreviation is a key, and the code is one of the 27 IBGE unit codes |
| Filtragem.CodigoUfSemCaixa | algoritmos/filtragem.py:38 | the unit lookup ignores letter case: it finds a code exactly when the upper-cased abbreviation is a key, and then it is that key's code |
| Filtragem.CodigoUfSaoPaulo | algoritmos/filtragem.py:38 | "sp", "Sp" and "SP" all select code 35 |
| Filtragem.NaoDescartado | algoritmos/filtragem.py:23 | the mask `classi_fin != 5` on the coerced code: a NaN code passes |
| Filtragem.SemDescartados | algoritmos/filtragem.py:13-27 | the frame keeps its columns and is returned as it is without `classi_fin`; otherwise no row left has coerced code 5 or an uncoerced text code |
| Filtragem.SemDescartadosExatos | algoritmos/filtragem.py:21-23 | with `classi_fin` present, the result holds, in order, exactly the rows whose coerced code is not 5, each with its code coerced; rows whose code fails coercion (NaN) stay |
| Filtragem.SemDescartadosIdempotente | algoritmos/filtragem.py:13-27 | filtering discarded cases twice gives the same frame as once |
| Filtragem.FiltrarClassificados | algoritmos/filtragem.py:13-27 | returns the same object without `classi_fin`; otherwise overwrites that column in place with its coerced values and returns a fresh frame equal to `SemDescartados` of the input |
| Filtragem.DaUf | algoritmos/filtragem.py:46 | the mask `sg_uf_not == cod_uf` on the coerced code: a NaN code fails |
| Filtragem.PorUf | algoritmos/filtragem.py:30-50 | the frame is returned as it is without `sg_uf_not` or for an unmapped abbreviation; otherwise every row left carries exactly the unit's numeric code |
| Filtragem.PorUfExatos | algoritmos/filtragem.py:43-46 | for a mapped unit, the result holds, in order, exactly the rows whose coerced code equals the unit's code; a row whose code fails coercion is dropped |
| Filtragem.FiltrarUf | algoritmos/filtragem.py:30-50 | returns the same object without `sg_uf_not` or for an unmapped abbreviation (the column stays unconverted); otherwise coerces the column in place and returns a fresh frame equal to `PorUf` of the input |
| Padronizador.ContemSemCaixa | src/padronizador.py:7 | `str.contains(..., case=False)`: the word occurs at some position of the text once both are lower-cased |
| Padronizador.MarcadaDescartada | src/padronizador.py:7 | a cell is marked when it is a string containing "descartado" in any case; a non-string cell is NaN, which `na=False` turns into "not marked" |
| Padronizador.SemTextos | src/padronizador.py:7 | the model's approximation of a column the `.str` accessor refuses: the frame has rows and none of its `classificados` cells is a string |
| Padronizador.Mantida | src/padronizador.py:8 | the negated mask `~ignorar_descl`: a row is kept when its `classificados` cell is not marked |
| Padronizador.Filtrar | src/padronizador.py:3-10 | without `classificados` the frame is returned unchanged; with it, the call fails (AttributeError, `None`) exactly when the frame has rows and no cell is a string, and otherwise it keeps its columns and only rows of the input not marked "descartado" |
| Padronizador.FiltrarExato | src/padronizador.py:5-8 | with the column present, the call fails exactly when the frame has rows and none holds a string; otherwise the result holds, in order and unchanged, exactly the rows not marked, and a missing or non-string value is never marked (`na=False`), so its row stays |
| Padronizador.FiltrarIdempotente | src/padronizador.py:3-10 | filtering a filtered frame again returns it unchanged, except that it fails when the first pass removed every string of the column |
| Padronizador.FiltrarSegundaVezFalha | src/padronizador.py:7 | a column holding "descartado" and the number 5 filters to the row with 5; filtering that result again fails, as its column is now numeric |
| Padronizador.MarcaSemCaixa | src/padronizador.py:7 | the match ignores letter case and finds the word anywhere in the text: "Descartado" and "CASO DESCARTADO" are marked, "Confirmado" is not |
| Ordenacao.Ordenar | algoritmos/estatisticas.py:41 | the sorted series is ascending and a permutation of the weekly counts |
| Ordenacao.InserirPermuta | algoritmos/estatisticas.py:41 | inserting a value into the sorted series adds exactly that value to its multiset of values |
| Ordenacao.OrdenarPertence | algoritmos/estatisticas.py:52 | the sorted series has the same length and only values of the series |
| Ordenacao.Minimo | algoritmos/estatisticas.py:40 | the smallest count occurs in the series and bounds every count from below |
| Ordenacao.Maximo | algoritmos/estatisticas.py:40 | the largest count occurs in the series and bounds every count from above |
| Ordenacao.SomaLimitada | algoritmos/estatisticas.py:40 | a series whose values lie in [lo, hi] sums to between n·lo and n·hi |
| Ordenacao.SomaCabeca | algoritmos/estatisticas.py:40 | a sum taken from the back equals the first value plus the sum of the rest |
| Ordenacao.Distintos | algoritmos/estatisticas.py:42 | the distinct values of a sorted series, strictly ascending, with the same membership |
| Ordenacao.MaiorFrequencia | algoritmos/estatisticas.py:42 | the highest frequency (`value_counts().max()`) bounds every value's frequency and is reached by one of them |
| Agrupamento.ChaveDaLinha | algoritmos/estatisticas.py:24 | a record's (year, week) key, absent when either part is NaN, so `dropna=True` leaves it out |
| Agrupamento.TemChave | algoritmos/estatisticas.py:24 | a record takes part in the grouping when neither key is NaN |
| Agrupamento.ComChave | algoritmos/estatisticas.py:22-29 | the number of records that have both keys, counted by the generic mask count |
| Agrupamento.Acrescentar | algoritmos/estatisticas.py:22-27 | counting one more record keeps the grouping sorted by (year, week) |
| Agrupamento.AcrescentarCasos | algoritmos/estatisticas.py:22-27 | counting one more record adds one to exactly that key's count and leaves every other key's count as it was |
| Agrupamento.AcrescentarSoma | algoritmos/estatisticas.py:22-27 | counting one more record adds one to the total of the counts |
| Agrupamento.AcrescentarPositivos | algoritmos/estatisticas.py:22-27 | counting one more record keeps every group's count positive |
| Agrupamento.AusenteAntesDaCabeca | algoritmos/estatisticas.py:22-27 | a key ordered before every group of a sorted grouping has count 0 |
| Agrupamento.Agrupar | algoritmos/estatisticas.py:22-27 | the grouping is sorted by (year, week), has positive counts, gives each key the number of records carrying it, and its counts add up to the number of records with both keys |
| Agrupamento.AgruparExato | algoritmos/estatisticas.py:22-29 | each (year, week) pair appears in at most one group; a group's `casos` is the number of its records; a key has a group exactly when some record carries it; the grouping is empty exactly when no record has both keys |
| Agrupamento.OcorrenciasPositivas | algoritmos/estatisticas.py:24-25 | a key is counted exactly when some record carries it (rows with a NaN key count for no group) |
| Agrupamento.CasosDoProprioGrupo | algoritmos/estatisticas.py:25-26 | in a sorted grouping each group's key reads back its own count |
| Agrupamento.CasosDeGrupoExistente | algoritmos/estatisticas.py:25-26 | a key with a non-zero count belongs to some group |
| Agrupamento.SomaCasosVazia | algoritmos/estatisticas.py:29 | the counts of a grouping with positive counts add up to 0 only when it has no groups |
| Estatisticas.Casos | algoritmos/estatisticas.py:26 | the `casos` column: one entry per group, each the group's count, in the groups' order |
| Estatisticas.SomaDosCasos | algoritmos/estatisticas.py:26 | the `casos` column adds up to the total of the groups' counts |
| Estatisticas.CasosContamRegistros | algoritmos/estatisticas.py:22-27 | the weekly counts add up to the number of records that have both a year and a week, so the grouping loses and duplicates no record |
| Estatisticas.Media | algoritmos/estatisticas.py:40 | the mean of the weekly counts lies between the smallest and the largest count |
| Estatisticas.Interpolar | algoritmos/estatisticas.py:52 | linear interpolation with weight in [0, 1] stays between its two end values and is the lower one at weight 0 |
| Estatisticas.Piso | algoritmos/estatisticas.py:52 | the whole part of the quantile position (n − 1)·p indexes the series |
| Estatisticas.Fracao | algoritmos/estatisticas.py:52 | the fractional part of the quantile position lies in [0, 1) and is non-zero only when a next entry exists |
| Estatisticas.PosicaoQuantil | algoritmos/estatisticas.py:52 | the quantile position stays inside the series, and a non-zero remainder leaves room for the next entry |
| Estatisticas.QuantilOrdenado | algoritmos/estatisticas.py:52 | the interpolated quantile of a sorted series lies between its first and last entry |
| Estatisticas.Quantil | algoritmos/estatisticas.py:52 | `quantile(p)` of the weekly counts lies between their minimum and maximum |
| Estatisticas.Mediana | algoritmos/estatisticas.py:41 | `Series.median()` of the weekly counts lies between the smallest and the largest count |
| Estatisticas.MedianaEhQuantil | algoritmos/estatisticas.py:41 | the median (middle value, or mean of the two middle values) is the 50% quantile and lies between minimum and maximum |
| Estatisticas.QuantilOrdenadoMonotono | algoritmos/estatisticas.py:52 | on a sorted series a higher quantile level never gives a smaller value |
| Estatisticas.QuantilMonotono | algoritmos/estatisticas.py:52 | a higher quantile level never gives a smaller value, so Q1 ≤ Q3 |
| Estatisticas.Moda | algoritmos/estatisticas.py:42 | the modes come out strictly ascending |
| Estatisticas.FrequenciaMaxima | algoritmos/estatisticas.py:42 | the highest frequency bounds every value's frequency and, in a non-empty series, is reached by a value of the series |
| Estatisticas.ModaExata | algoritmos/estatisticas.py:42 | a value is a mode exactly when it occurs and no value occurs more often |
| Estatisticas.ModaNaoVazia | algoritmos/estatisticas.py:42 | a non-empty series has at least one mode |
| Estatisticas.ForaDosLimites | algoritmos/estatisticas.py:56 | the outlier mask: a count strictly below the lower fence or strictly above the upper one |
| Estatisticas.Q1 | algoritmos/estatisticas.py:52 | the first quartile lies between the smallest and largest count and is at most the third quartile |
| Estatisticas.Q3 | algoritmos/estatisticas.py:52 | the third quartile lies between the smallest and largest count |
| Estatisticas.LimiteInferior | algoritmos/estatisticas.py:53 | the lower fence `q1 - 1.5 * (q3 - q1)` is never above the first quartile |
| Estatisticas.LimiteSuperior | algoritmos/estatisticas.py:54 | the upper fence `q3 + 1.5 * (q3 - q1)` is never below the third quartile |
| Estatisticas.ResumoDeSemanas | algoritmos/estatisticas.py:40-65 | for a non-empty grouping, mean, median and IQR are present, the IQR is non-negative, and the outliers are no more than, and only, weeks of the grouping |
| Estatisticas.NEUTRO | algoritmos/estatisticas.py:12-19 | the neutral summary returned when there is nothing to summarise: no mean, no median, no mode, no IQR and no outlier |
| Estatisticas.ResumoEstatisticoSemanais | algoritmos/estatisticas.py:5-65 | without `nu_ano` or `sem_not`, or with no record carrying both, the summary is neutral (no mean, median or IQR, no mode, no outlier); otherwise it is the summary of the non-empty weekly grouping |
| Estatisticas.ResumoTendenciaCentral | algoritmos/estatisticas.py:40-46 | for a non-empty grouping, mean, median and IQR are present, there is a mode, and mean and median lie between the smallest and largest weekly count |
| Estatisticas.ResumoModa | algoritmos/estatisticas.py:42 | the reported modes are, in ascending order, exactly the weekly counts of highest frequency |
| Estatisticas.LimitesOrdenados | algoritmos/estatisticas.py:46-54 | Q3 − Q1 is non-negative and the lower Tukey fence never exceeds the upper one |
| Estatisticas.OutliersExatos | algoritmos/estatisticas.py:52-56 | the outliers are, in order, exactly the weeks whose count is strictly below q1 − 1.5·IQR or strictly above q3 + 1.5·IQR; a count equal to a fence is not an outlier |
| Estatisticas.Grave | algoritmos/estatisticas.py:83 | the mask `classi_fin == 12` on the coerced code: a NaN code is never severe |
| Estatisticas.GravesAposCoagir | algoritmos/estatisticas.py:76-83 | coercing `classi_fin` leaves each row severe exactly when it was, so the number of severe rows is unchanged |
| Estatisticas.Razao | algoritmos/estatisticas.py:84 | `len(graves) / total` for 0 ≤ graves ≤ total > 0 lies in [0, 1], and times the total gives back the count |
| Estatisticas.ProporcaoGraves | algoritmos/estatisticas.py:68-87 | the proportion lies in [0, 1]; it is 0.0 without `classi_fin` or with no rows; otherwise it is the number of rows whose coerced code is 12 over the number of rows |
| Estatisticas.GravesContados | algoritmos/estatisticas.py:83 | the counted rows are exactly those whose coerced code is 12; a NaN code is never counted |
| Estatisticas.CalcularProporcaoGraves | algoritmos/estatisticas.py:68-87 | leaves the frame untouched without `classi_fin`, otherwise overwrites the column with its coerced values; never changes the number of rows; returns `ProporcaoGraves` of the input |
| Municipios.TirarInicio | algoritmos/municipios.py:26 | left strip: a suffix of the line, all removed characters whitespace, and no leading whitespace left |
| Municipios.TirarFim | algoritmos/municipios.py:26 | right strip: a prefix of the line, all removed characters whitespace, and no trailing whitespace left |
| Municipios.Strip | algoritmos/municipios.py:26 | `strip()` leaves no whitespace at either end, and is empty exactly when the line is all whitespace |
| Municipios.Despidas | algoritmos/municipios.py:26 | `linha.strip() for linha in f`: one stripped line per line of the file, in order |
| Municipios.Limpar | algoritmos/municipios.py:26 | no more lines than the file, and none of them empty |
| Municipios.LimparExato | algoritmos/municipios.py:26 | the cleaned lines are the stripped lines of the file, in file order, read at increasing positions; a line is kept exactly when it has a non-space character |
| Municipios.Ignorada | algoritmos/municipios.py:36-39 | the skip test: the line starts with the heading "Municípios de São Paulo", or is a single letter |
| Municipios.EhCodigo | algoritmos/municipios.py:45 | the code test: only digits, and 6 or 7 of them |
| Municipios.ParEm | algoritmos/municipios.py:36-45 | the loop pairs at a position when its line is not skipped and the next line is a code |
| Municipios.Nomes | algoritmos/municipios.py:30-53 | every name position the walk reads is followed by a code line and is not a skipped line |
| Municipios.NomesExatos | algoritmos/municipios.py:31-53 | a line is read as a name exactly when the line before it was not read as a name, it is neither the heading nor a single letter, and the next line is a 6- or 7-digit code |
| Municipios.NomesEmOrdem | algoritmos/municipios.py:50-51 | pairs are read in input order, each name at least two lines after the previous one |
| Municipios.Par | algoritmos/municipios.py:46-50 | the pair read at a name position: the first six characters of the next line as the code, the line itself as the name |
| Municipios.ParSeisDigitos | algoritmos/municipios.py:47-49 | the stored code is the first six digits of the IBGE code |
| Municipios.Pares | algoritmos/municipios.py:46-50 | one pair per name position, in order; each has the line at that position as its name and a six-digit code |
| Municipios.SemDuplicatas | algoritmos/municipios.py:56 | de-duplication keeps no more pairs than it gets, and only pairs it got |
| Municipios.SemDuplicatasDistintas | algoritmos/municipios.py:56 | after `drop_duplicates` the codes are pairwise distinct |
| Municipios.SemDuplicatasCobre | algoritmos/municipios.py:56 | every code of the input survives de-duplication |
| Municipios.SemDuplicatasPrimeira | algoritmos/municipios.py:56 | each surviving pair is the first one read with its code (`keep="first"`) |
| Municipios.SemDuplicatasOrdem | algoritmos/municipios.py:56 | `keep="first"` keeps the input order: the result is the input read at strictly increasing positions, and a position is kept exactly when no earlier pair has its code |
| Municipios.LerPares | algoritmos/municipios.py:28-53 | the parsing loop appends exactly the pairs at the name positions of the walk, in order |
| Municipios.CarregarMapaMunicipios | algoritmos/municipios.py:24-58 | the loader returns the de-duplicated pairs read from the stripped non-blank lines |
| Municipios.ParesBemFormados | algoritmos/municipios.py:45-50 | from non-empty lines, every pair read has a six-digit code and a non-empty name that is not a skipped line |
| Municipios.CarregarMapaMunicipiosCorreto | algoritmos/municipios.py:45-56 | every returned municipality has a 6-digit code and a non-empty name that is not a skipped line; codes are distinct; every code read is present |

## Left out

- Standard deviation (`algoritmos/estatisticas.py:43`): the sample standard deviation needs a square root, which exact rational arithmetic cannot express. `Estatisticas.Resumo` has no such field.
- Floating point: the statistics are exact rationals, so float rounding of the mean, quantiles and proportion is not modelled.
- The `try`/`except` around `scipy.stats.iqr` (`algoritmos/estatisticas.py:45-49`): over a non-empty integer series it does not raise. The IQR is always Q3 − Q1.
- All `print` calls: logging only, with no effect on results.
- File access in `carregar_mapa_municipios_sp_de_txt` (`open`, the default path, UTF-8 decoding). The lines of the file are a parameter. `gerar_csv_municipios_sp` (CSV writing) is not part of this model.
- `reset_index(drop=True)` and the frames' indexes: rows are modelled as sequences in order, so renumbering is implicit.
- `Tabelas.Coagir` coerces only numbers and ASCII decimal-digit texts. Sign, decimal point, exponent, surrounding whitespace and "NaN"/"inf" spellings accepted by `pd.to_numeric` become NaN here. Non-integer values are not modelled: cells are integers.
- `Caracteres.Maiusculas`: ASCII only. Python's `upper()` maps a few non-ASCII letters onto ASCII letters (for example 'ı' to 'I' and 'ſ' to 'S'), so such spellings would also find a unit in the source but not here. Python's `upper()` can also change the length of a string ('ß' becomes 'SS'); the model's never does.
- `Caracteres.Minusculas`: ASCII only. `str.contains(case=False)` uses Unicode case-insensitive matching (for example the Kelvin sign matches 'k'). That is not modelled.
- `Caracteres.EhDigito`: ASCII '0'..'9' only. Python's `isdigit()` also accepts other Unicode digits (superscripts, other scripts' digits).
- `Caracteres.EhLetra`: ASCII and Latin-1 letters only. `isalpha()` beyond Latin-1 is not modelled.
- The frames' other columns and pandas' dtype machinery: a row holds only the five columns the core reads.
- Padronizador.Filtrar: the `.str` accessor's refusal is decided by pandas from the column's inferred dtype. The model approximates it as "the frame has rows and no cell is a string". The two differ at both ends: a column of `object` dtype whose every cell is NaN passes the accessor in pandas but fails here, and an empty frame whose column is numeric (`int64` or `float64`, for example after an earlier numeric filter) fails in pandas but returns the empty frame here. Boolean columns are not modelled.
- Aliasing of the returned frame with other variables, and `.copy()`, are only modelled as "same object" versus "fresh object".
- Everything outside the four core files (readers, cleaning, plots, controller, `main.py`) is not part of this model.
