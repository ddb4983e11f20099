/** algoritmos/estatisticas.py: the weekly summary (mean, median, modes,
    interquartile range and Tukey outliers over the weekly case counts) and
    the proportion of severe cases. Every statistic is an exact rational. */
module Estatisticas {
  import opened Tabelas
  import opened Selecao
  import opened Ordenacao
  import opened Agrupamento

  /** The `casos` column of the grouped frame, in its order. */
  function Casos(gs: seq<Grupo>): (xs: seq<int>)
    ensures |xs| == |gs|
    ensures forall i :: 0 <= i < |gs| ==> xs[i] == gs[i].casos
  {
    seq(|gs|, i requires 0 <= i < |gs| => gs[i].casos as int)
  }

  /** The `casos` column adds up to the counts of the groups. */
  lemma {:induction false} SomaDosCasos(gs: seq<Grupo>)
    ensures Soma(Casos(gs)) == SomaCasos(gs)
    decreases |gs|
  {
    if gs != [] {
      assert Casos(gs) == [gs[0].casos] + Casos(gs[1..]);
      SomaDosCasos(gs[1..]);
      SomaCabeca(gs[0].casos, Casos(gs[1..]));
    }
  }

  /** The weekly counts add up to the number of records that have both a
      year and a week: no record is lost or counted twice by the grouping. */
  lemma CasosContamRegistros(ls: seq<Linha>)
    ensures |Casos(Agrupar(ls))| == |Agrupar(ls)|
    ensures Soma(Casos(Agrupar(ls))) == ComChave(ls)
  {
    SomaDosCasos(Agrupar(ls));
  }

  /** Dividing by a positive count keeps bounds scaled by that count. */
  lemma DivisaoLimitada(s: int, n: int, lo: int, hi: int)
    requires n > 0 && n * lo <= s <= n * hi
    ensures lo as real <= s as real / n as real <= hi as real
    ensures s as real / n as real * n as real == s as real
  {
    var q := s as real / n as real;
    assert q * n as real == s as real;
    assert (n * lo) as real == n as real * lo as real;
    assert (n * hi) as real == n as real * hi as real;
  }

  /** A larger non-negative factor gives a larger product. */
  lemma Escala(a: int, b: int, t: real, u: real)
    requires a <= b && 0.0 <= t <= u
    ensures t * (b - a) as real <= u * (b - a) as real
  {
    var d := (b - a) as real;
    assert d >= 0.0 && u - t >= 0.0;
    assert (u - t) * d >= 0.0;
    assert u * d - t * d == (u - t) * d;
  }

  /** `Series.mean()`: the arithmetic mean lies between the extremes. */
  function Media(xs: seq<int>): (r: real)
    requires xs != []
    ensures Minimo(xs) as real <= r <= Maximo(xs) as real
  {
    var lo, hi := Minimo(xs), Maximo(xs);
    assert forall i :: 0 <= i < |xs| ==> lo <= xs[i] <= hi by {
      forall i | 0 <= i < |xs|
        ensures lo <= xs[i] <= hi
      {
        assert xs[i] in xs;
      }
    }
    SomaLimitada(xs, lo, hi);
    DivisaoLimitada(Soma(xs), |xs|, lo, hi);
    Soma(xs) as real / |xs| as real
  }

  /** `a + t·(b − a)`, the linear interpolation between `a` and `b`; it
      stays between them when `0 ≤ t ≤ 1`. */
  function Interpolar(a: int, b: int, t: real): (r: real)
    requires a <= b && 0.0 <= t <= 1.0
    ensures a as real <= r <= b as real
    ensures t == 0.0 ==> r == a as real
  {
    var d := (b - a) as real;
    Escala(a, b, t, 1.0);
    assert 1.0 * d == d && 0.0 * d == 0.0;
    a as real + t * d
  }

  /** The share `r/d` of a remainder `r < d` lies in [0, 1). */
  lemma FracaoUnitaria(r: nat, d: nat)
    requires r < d
    ensures 0.0 <= r as real / d as real < 1.0
  {
    DivisaoLimitada(r, d, 0, 1);
    assert r as real / d as real != 1.0;
  }

  /** The whole part of the virtual position `(n − 1)·num/den` of a
      quantile; it indexes the series. */
  function Piso(n: nat, num: nat, den: nat): (i: nat)
    requires n > 0 && 0 < den && num <= den
    ensures i < n
  {
    PosicaoQuantil(n, num, den);
    ((n - 1) * num) / den
  }

  /** The fractional part of that position, in [0, 1); it is zero at the
      last index. */
  function Fracao(n: nat, num: nat, den: nat): (t: real)
    requires n > 0 && 0 < den && num <= den
    ensures 0.0 <= t < 1.0
    ensures t != 0.0 ==> Piso(n, num, den) + 1 < n
  {
    PosicaoQuantil(n, num, den);
    FracaoUnitaria(((n - 1) * num) % den, den);
    ((n - 1) * num % den) as real / den as real
  }

  /** The virtual position `(n − 1)·num/den` of a quantile, split into its
      whole part and its remainder over `den`, stays inside the series; only
      the last position can have no successor, and then the remainder is 0. */
  lemma PosicaoQuantil(n: nat, num: nat, den: nat)
    requires n > 0 && den > 0 && num <= den
    ensures ((n - 1) * num) / den < n
    ensures ((n - 1) * num) % den > 0 ==> ((n - 1) * num) / den + 1 < n
  {
    MultiplicaMonotono(n - 1, num, den);
    QuocienteLimitado((n - 1) * num, den, n - 1);
  }

  /** A quotient `h / den` with `h ≤ m·den` is at most `m`, and reaches `m`
      only without remainder. */
  lemma QuocienteLimitado(h: nat, den: nat, m: nat)
    requires den > 0 && h <= m * den
    ensures h / den <= m
    ensures h / den == m ==> h % den == 0
  {
    var q, r := h / den, h % den;
    assert q * den + r == h;
    if q > m {
      MultiplicaMonotono(den, m + 1, q);
    }
  }

  /** Multiplying by a natural number keeps the order. */
  lemma {:induction false} MultiplicaMonotono(k: nat, a: int, b: int)
    requires a <= b
    ensures k * a <= k * b && a * k <= b * k
    decreases k
  {
    if k > 0 {
      MultiplicaMonotono(k - 1, a, b);
      assert k * a == (k - 1) * a + a;
      assert k * b == (k - 1) * b + b;
    }
  }

  /** Linear interpolation at virtual position (n − 1)·num/den of a sorted
      series s: s[⌊h⌋] + (h − ⌊h⌋)·(s[⌊h⌋+1] − s[⌊h⌋]), the upper index
      clipped to the last entry. It lies between the first and last entry. */
  function QuantilOrdenado(s: seq<int>, num: nat, den: nat): (q: real)
    requires s != [] && Ordenada(s) && 0 < den && num <= den
    ensures s[0] as real <= q <= s[|s| - 1] as real
  {
    var n := |s|;
    var i := Piso(n, num, den);
    var j := if i + 1 < n then i + 1 else n - 1;
    Interpolar(s[i], s[j], Fracao(n, num, den))
  }

  /** `Series.quantile(num/den)` with the default linear interpolation,
      computed on the sorted series. It lies between the extremes. */
  function Quantil(xs: seq<int>, num: nat, den: nat): (q: real)
    requires xs != [] && 0 < den && num <= den
    ensures Minimo(xs) as real <= q <= Maximo(xs) as real
  {
    var s := Ordenar(xs);
    OrdenarPertence(xs);
    assert s[0] in xs && s[|s| - 1] in xs;
    QuantilOrdenado(s, num, den)
  }

  /** `Series.median()`: the middle value, or the mean of the two middle
      values when the length is even. */
  function Mediana(xs: seq<int>): (r: real)
    requires xs != []
    ensures Minimo(xs) as real <= r <= Maximo(xs) as real
  {
    var n := |xs|;
    var s := Ordenar(xs);
    OrdenarPertence(xs);
    assert s[n / 2] in xs && (n % 2 == 0 ==> s[n / 2 - 1] in xs);
    if n % 2 == 1 then s[n / 2] as real
    else (s[n / 2 - 1] + s[n / 2]) as real / 2.0
  }

  /** The median is the 50% quantile under linear interpolation, so it lies
      between the extremes of the series. */
  lemma MedianaEhQuantil(xs: seq<int>)
    requires xs != []
    ensures Mediana(xs) == Quantil(xs, 1, 2)
    ensures Minimo(xs) as real <= Mediana(xs) <= Maximo(xs) as real
  {
    var n := |xs|;
    OrdenarPertence(xs);
    assert (n - 1) * 1 == n - 1;
    if n % 2 == 0 {
      assert Piso(n, 1, 2) == n / 2 - 1 && Fracao(n, 1, 2) == 0.5;
    } else {
      assert Piso(n, 1, 2) == n / 2 && Fracao(n, 1, 2) == 0.0;
    }
  }

  /** Interpolating further along a sorted series never gives less. */
  lemma InterpolarMonotono(s: seq<int>, ia: nat, ta: real, ib: nat, tb: real)
    requires Ordenada(s) && ia <= ib < |s|
    requires 0.0 <= ta <= 1.0 && 0.0 <= tb <= 1.0
    requires ia == ib ==> ta <= tb
    ensures var ja := if ia + 1 < |s| then ia + 1 else |s| - 1;
      var jb := if ib + 1 < |s| then ib + 1 else |s| - 1;
      Interpolar(s[ia], s[ja], ta) <= Interpolar(s[ib], s[jb], tb)
  {
    var ja := if ia + 1 < |s| then ia + 1 else |s| - 1;
    var jb := if ib + 1 < |s| then ib + 1 else |s| - 1;
    if ia < ib {
      assert s[ja] <= s[ib];
    } else {
      assert ja == jb && s[ia] == s[ib] && s[ja] == s[jb];
      var d := (s[ja] - s[ia]) as real;
      Escala(s[ia], s[ja], ta, tb);
      assert Interpolar(s[ia], s[ja], ta) == s[ia] as real + ta * d;
      assert Interpolar(s[ib], s[jb], tb) == s[ia] as real + tb * d;
    }
  }

  /** On a sorted series a higher quantile is never smaller. */
  lemma QuantilOrdenadoMonotono(s: seq<int>, a: nat, b: nat, den: nat)
    requires s != [] && Ordenada(s) && 0 < den && a <= b <= den
    ensures QuantilOrdenado(s, a, den) <= QuantilOrdenado(s, b, den)
  {
    var n := |s|;
    PisoMonotono(n, a, b, den);
    InterpolarMonotono(s, Piso(n, a, den), Fracao(n, a, den), Piso(n, b, den), Fracao(n, b, den));
  }

  /** A higher quantile is never smaller than a lower one. */
  lemma QuantilMonotono(xs: seq<int>, a: nat, b: nat, den: nat)
    requires xs != [] && 0 < den && a <= b <= den
    ensures Quantil(xs, a, den) <= Quantil(xs, b, den)
  {
    OrdenarPertence(xs);
    QuantilOrdenadoMonotono(Ordenar(xs), a, b, den);
  }

  /** Whole part and fraction of the quantile position grow together. */
  lemma PisoMonotono(n: nat, a: nat, b: nat, den: nat)
    requires n > 0 && 0 < den && a <= b <= den
    ensures Piso(n, a, den) <= Piso(n, b, den)
    ensures Piso(n, a, den) == Piso(n, b, den) ==> Fracao(n, a, den) <= Fracao(n, b, den)
  {
    var ha, hb := (n - 1) * a, (n - 1) * b;
    MultiplicaMonotono(n - 1, a, b);
    QuocienteMonotono(ha, hb, den);
    if ha / den == hb / den {
      DivisaoMonotona(ha % den, hb % den, den);
    }
  }

  /** Integer division by a positive number keeps the order, and equal
      quotients leave the remainders in the same order. */
  lemma QuocienteMonotono(ha: nat, hb: nat, den: nat)
    requires ha <= hb && den > 0
    ensures ha / den <= hb / den
    ensures ha / den == hb / den ==> ha % den <= hb % den
  {
    var qa, qb := ha / den, hb / den;
    assert qa * den + ha % den == ha && qb * den + hb % den == hb;
    if qa > qb {
      MultiplicaMonotono(den, qb + 1, qa);
      assert false;
    }
  }

  /** Dividing by a positive number keeps the order. */
  lemma DivisaoMonotona(x: int, y: int, d: int)
    requires x <= y && d > 0
    ensures x as real / d as real <= y as real / d as real
  {
  }

  /** A series sorted strictly upwards stays so after selection. */
  lemma FiltroCrescente(s: seq<int>, p: int -> bool)
    requires EstritamenteCrescente(s)
    ensures EstritamenteCrescente(Filtro(s, p))
  {
    var idx := PosicoesMantidas(s, p);
  }

  /** The mask `contagem == contagem.max()` of `Series.mode()`. */
  function DeFrequenciaMaxima(xs: seq<int>): int -> bool {
    v => multiset(xs)[v] == MaiorFrequencia(xs, xs)
  }

  /** `Series.mode().tolist()`: every value of highest frequency, ascending. */
  function Moda(xs: seq<int>): (r: seq<int>)
    ensures EstritamenteCrescente(r)
  {
    var s := Ordenar(xs);
    FiltroCrescente(Distintos(s), DeFrequenciaMaxima(xs));
    Filtro(Distintos(s), DeFrequenciaMaxima(xs))
  }

  /** The distinct values of the sorted series are the values of the series. */
  lemma DistintosPertence(xs: seq<int>, v: int)
    ensures v in Distintos(Ordenar(xs)) <==> v in xs
  {
    var s := Ordenar(xs);
    assert v in s <==> v in multiset(s);
    assert v in xs <==> v in multiset(xs);
  }

  /** The highest frequency bounds the frequency of every value and, in a
      non-empty series, is reached by the value `u` returned. */
  lemma FrequenciaMaxima(xs: seq<int>) returns (u: int)
    ensures forall w :: w in xs ==> multiset(xs)[w] <= MaiorFrequencia(xs, xs)
    ensures xs != [] ==> u in xs && multiset(xs)[u] == MaiorFrequencia(xs, xs)
  {
    var m := MaiorFrequencia(xs, xs);
    forall w | w in xs
      ensures multiset(xs)[w] <= m
    {
      var i :| 0 <= i < |xs| && xs[i] == w;
      assert multiset(xs)[xs[i]] <= m;
    }
    u := 0;
    if xs != [] {
      var i :| 0 <= i < |xs| && multiset(xs)[xs[i]] == m;
      u := xs[i];
    }
  }

  /** A value is a mode exactly when it occurs in the series and no value
      occurs more often. */
  lemma ModaExata(xs: seq<int>, v: int)
    ensures v in Moda(xs) <==> v in xs && forall w :: w in xs ==> multiset(xs)[w] <= multiset(xs)[v]
  {
    var m := MaiorFrequencia(xs, xs);
    FiltroPertence(Distintos(Ordenar(xs)), DeFrequenciaMaxima(xs), v);
    DistintosPertence(xs, v);
    var u := FrequenciaMaxima(xs);
    if v in xs && forall w :: w in xs ==> multiset(xs)[w] <= multiset(xs)[v] {
      assert multiset(xs)[u] <= multiset(xs)[v];
    }
  }

  /** A non-empty series has at least one mode. */
  lemma ModaNaoVazia(xs: seq<int>)
    requires xs != []
    ensures Moda(xs) != []
  {
    var u := FrequenciaMaxima(xs);
    ModaExata(xs, u);
  }

  /** Tukey's rule: a week is an outlier when its count lies strictly
      below `inf` or strictly above `sup`. */
  function ForaDosLimites(inf: real, sup: real): Grupo -> bool {
    (g: Grupo) => g.casos as real < inf || g.casos as real > sup
  }

  /** The dictionary `resumo_estatistico_semanais` returns, without the
      standard deviation. */
  datatype Resumo = Resumo(
    media: Option<real>,
    mediana: Option<real>,
    moda: seq<int>,
    iqr: Option<real>,
    outliers: seq<Grupo>)

  /** The result when there is nothing to summarise. */
  const NEUTRO := Resumo(None, None, [], None, [])

  /** The first quartile, `quantile(0.25)`, of the weekly counts; it lies
      between the smallest and the largest count and below the third. */
  function Q1(xs: seq<int>): (r: real)
    requires xs != []
    ensures Minimo(xs) as real <= r <= Maximo(xs) as real
    ensures r <= Q3(xs)
  {
    QuantilMonotono(xs, 1, 3, 4);
    Quantil(xs, 1, 4)
  }

  /** The third quartile, `quantile(0.75)`, of the weekly counts. */
  function Q3(xs: seq<int>): (r: real)
    requires xs != []
    ensures Minimo(xs) as real <= r <= Maximo(xs) as real
  {
    Quantil(xs, 3, 4)
  }

  /** `q1 - 1.5 * (q3 - q1)`: never above the first quartile. */
  function LimiteInferior(xs: seq<int>): (r: real)
    requires xs != []
    ensures r <= Q1(xs)
  {
    Q1(xs) - 1.5 * (Q3(xs) - Q1(xs))
  }

  /** `q3 + 1.5 * (q3 - q1)`: never below the third quartile. */
  function LimiteSuperior(xs: seq<int>): (r: real)
    requires xs != []
    ensures Q3(xs) <= r
  {
    Q3(xs) + 1.5 * (Q3(xs) - Q1(xs))
  }

  /** The summary of a non-empty weekly grouping: every statistic is
      present, the IQR is non-negative, and the outliers are weeks of the
      grouping. */
  function ResumoDeSemanas(semana: seq<Grupo>): (r: Resumo)
    requires semana != []
    ensures r.media.Some? && r.mediana.Some? && r.iqr.Some? && r.iqr.value >= 0.0
    ensures |r.outliers| <= |semana| && forall g :: g in r.outliers ==> g in semana
  {
    var xs := Casos(semana);
    Resumo(
      Some(Media(xs)),
      Some(Mediana(xs)),
      Moda(xs),
      Some(Q3(xs) - Q1(xs)),
      Filtro(semana, ForaDosLimites(LimiteInferior(xs), LimiteSuperior(xs))))
  }

  /** `resumo_estatistico_semanais(quadro)`. Without either key column, or
      when no record has both keys, the result is neutral: no mean, median or
      IQR, no mode and no outlier. */
  function ResumoEstatisticoSemanais(t: Tabela): (r: Resumo)
    ensures NuAno !in t.colunas || SemNot !in t.colunas || ComChave(t.linhas) == 0 ==> r == NEUTRO
    ensures NuAno in t.colunas && SemNot in t.colunas && ComChave(t.linhas) > 0 ==>
      Agrupar(t.linhas) != [] && r == ResumoDeSemanas(Agrupar(t.linhas))
  {
    if NuAno !in t.colunas || SemNot !in t.colunas then NEUTRO
    else
      var semana := Agrupar(t.linhas);
      AgruparExato(t.linhas);
      if semana == [] then Resumo(None, None, [], None, semana)
      else ResumoDeSemanas(semana)
  }

  /** For a non-empty grouping every statistic is present; the mean and
      the median lie between the smallest and the largest weekly count, and
      there is at least one mode. */
  lemma ResumoTendenciaCentral(t: Tabela)
    requires NuAno in t.colunas && SemNot in t.colunas && ComChave(t.linhas) > 0
    ensures var xs := Casos(Agrupar(t.linhas)); var r := ResumoEstatisticoSemanais(t);
      xs != [] && r.media == Some(Media(xs)) && r.mediana == Some(Mediana(xs))
      && r.iqr.Some? && r.moda != []
      && Minimo(xs) as real <= r.media.value <= Maximo(xs) as real
      && Minimo(xs) as real <= r.mediana.value <= Maximo(xs) as real
  {
    var xs := Casos(Agrupar(t.linhas));
    MedianaEhQuantil(xs);
    ModaNaoVazia(xs);
  }

  /** The modes are, in ascending order, exactly the weekly counts of
      highest frequency. */
  lemma ResumoModa(t: Tabela, v: int)
    requires NuAno in t.colunas && SemNot in t.colunas && ComChave(t.linhas) > 0
    ensures var xs := Casos(Agrupar(t.linhas)); var r := ResumoEstatisticoSemanais(t);
      EstritamenteCrescente(r.moda)
      && (v in r.moda <==> v in xs && forall w :: w in xs ==> multiset(xs)[w] <= multiset(xs)[v])
  {
    ModaExata(Casos(Agrupar(t.linhas)), v);
  }

  /** Q1 ≤ Q3, so the IQR (Q3 − Q1) is non-negative and the lower fence
      never exceeds the upper one. */
  lemma LimitesOrdenados(xs: seq<int>)
    requires xs != []
    ensures Q3(xs) - Q1(xs) >= 0.0
    ensures LimiteInferior(xs) <= LimiteSuperior(xs)
  {
    QuantilMonotono(xs, 1, 3, 4);
  }

  /** The outliers of a grouping are, in their order, exactly its weeks
      whose count lies strictly outside the fences; a count equal to a fence
      is not an outlier. */
  lemma OutliersExatos(semana: seq<Grupo>) returns (idx: seq<nat>)
    requires semana != []
    ensures var xs := Casos(semana); var os := ResumoDeSemanas(semana).outliers;
      IndicesCrescentes(idx, |semana|) && |idx| == |os|
      && (forall k :: 0 <= k < |idx| ==> os[k] == semana[idx[k]])
      && (forall i :: 0 <= i < |semana| ==>
            (i in idx <==> semana[i].casos as real < LimiteInferior(xs)
                           || semana[i].casos as real > LimiteSuperior(xs)))
      && (forall i :: (0 <= i < |semana| && (semana[i].casos as real == LimiteInferior(xs)
                                             || semana[i].casos as real == LimiteSuperior(xs))) ==> i !in idx)
  {
    var xs := Casos(semana);
    LimitesOrdenados(xs);
    idx := PosicoesMantidas(semana, ForaDosLimites(LimiteInferior(xs), LimiteSuperior(xs)));
  }

  /** `quadro["classi_fin"] == 12`: a code that failed coercion is NaN and
      never severe. */
  predicate Grave(l: Linha) {
    Coagir(l.classiFin) == Some(12)
  }

  /** Coercing the column does not change which rows are severe, nor so
      how many there are. */
  lemma {:induction false} GravesAposCoagir(ls: seq<Linha>)
    ensures forall i :: 0 <= i < |ls| ==> Grave(CoagirClassiFin(ls)[i]) == Grave(ls[i])
    ensures Conta(CoagirClassiFin(ls), Grave) == Conta(ls, Grave)
    decreases |ls|
  {
    if ls != [] {
      GravesAposCoagir(ls[1..]);
      assert CoagirClassiFin(ls)[1..] == CoagirClassiFin(ls[1..]);
    }
  }

  /** The share `g/n` of a part `g` of a non-empty whole `n`. */
  function Razao(g: nat, n: nat): (r: real)
    requires 0 < n && g <= n
    ensures 0.0 <= r <= 1.0
    ensures r * n as real == g as real
    ensures r == g as real / n as real
  {
    DivisaoLimitada(g, n, 0, 1);
    g as real / n as real
  }

  /** The value `calcular_proporcao_graves` returns: the share of severe
      rows, 0.0 when the column is absent or the frame is empty. */
  function ProporcaoGraves(t: Tabela): (r: real)
    ensures 0.0 <= r <= 1.0
    ensures ClassiFin !in t.colunas || t.linhas == [] ==> r == 0.0
    ensures ClassiFin in t.colunas && t.linhas != [] ==>
      r == Conta(t.linhas, Grave) as real / |t.linhas| as real
  {
    if ClassiFin !in t.colunas then 0.0
    else
      var total := |t.linhas|;
      if total == 0 then 0.0
      else
        var graves := Conta(CoagirClassiFin(t.linhas), Grave);
        GravesAposCoagir(t.linhas);
        Razao(graves, total)
  }

  /** The severe rows counted are exactly those whose coerced code is 12. */
  lemma GravesContados(t: Tabela) returns (idx: seq<nat>)
    ensures IndicesCrescentes(idx, |t.linhas|) && |idx| == Conta(t.linhas, Grave)
    ensures forall i :: 0 <= i < |t.linhas| ==> (i in idx <==> Coagir(t.linhas[i].classiFin) == Some(12))
    ensures forall i :: 0 <= i < |t.linhas| && Coagir(t.linhas[i].classiFin) == None ==> i !in idx
  {
    idx := PosicoesMantidas(t.linhas, Grave);
  }

  /** `calcular_proporcao_graves(quadro)`: overwrites `classi_fin` with its
      coerced values (when the column exists) and returns the share of
      severe rows; the number of rows never changes. */
  method CalcularProporcaoGraves(quadro: Quadro) returns (r: real)
    modifies quadro
    ensures quadro.colunas == old(quadro.colunas)
    ensures |quadro.linhas| == old(|quadro.linhas|)
    ensures ClassiFin !in quadro.colunas ==> quadro.linhas == old(quadro.linhas)
    ensures ClassiFin in quadro.colunas ==> quadro.linhas == CoagirClassiFin(old(quadro.linhas))
    ensures r == ProporcaoGraves(old(quadro.Valor()))
  {
    if ClassiFin !in quadro.colunas {
      return 0.0;
    }
    quadro.linhas := CoagirClassiFin(quadro.linhas);
    var total := |quadro.linhas|;
    if total == 0 {
      return 0.0;
    }
    var graves := Filtro(quadro.linhas, Grave);
    r := |graves| as real / total as real;
  }
}
