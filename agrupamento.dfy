/** `quadro.groupby(["nu_ano", "sem_not"], as_index=False).size()` from
    algoritmos/estatisticas.py: one row per observed (year, week) pair, with
    the number of records carrying it in `casos`. As pandas does by default,
    rows missing either key are left out (`dropna=True`) and the groups come
    out sorted by key (`sort=True`). */
module Agrupamento {
  import opened Tabelas
  import opened Selecao

  /** One row of the grouped frame: the key pair and its count. */
  datatype Grupo = Grupo(nuAno: int, semNot: int, casos: nat)

  type Chave = (int, int)

  function ChaveDoGrupo(g: Grupo): Chave {
    (g.nuAno, g.semNot)
  }

  /** The grouping key of a record, when neither part is NaN. */
  function ChaveDaLinha(l: Linha): Option<Chave> {
    if l.nuAno.Some? && l.semNot.Some? then Some((l.nuAno.value, l.semNot.value)) else None
  }

  /** Lexicographic order on (year, week), the order pandas sorts groups in. */
  predicate Antes(a: Chave, b: Chave) {
    a.0 < b.0 || (a.0 == b.0 && a.1 < b.1)
  }

  ghost predicate OrdenadoPorChave(gs: seq<Grupo>) {
    forall i, j :: 0 <= i < j < |gs| ==> Antes(ChaveDoGrupo(gs[i]), ChaveDoGrupo(gs[j]))
  }

  /** Number of records whose key is `k`. */
  function Ocorrencias(ls: seq<Linha>, k: Chave): nat {
    if ls == [] then 0
    else Ocorrencias(ls[..|ls| - 1], k) + (if ChaveDaLinha(ls[|ls| - 1]) == Some(k) then 1 else 0)
  }

  /** Number of records that have both keys. */
  function ComChave(ls: seq<Linha>): nat {
    Conta(ls, TemChave)
  }

  /** Neither grouping key of the record is NaN. */
  predicate TemChave(l: Linha) {
    ChaveDaLinha(l).Some?
  }

  /** The count recorded for key `k`, 0 when no group has it. */
  function CasosDe(gs: seq<Grupo>, k: Chave): nat {
    if gs == [] then 0
    else if ChaveDoGrupo(gs[0]) == k then gs[0].casos
    else CasosDe(gs[1..], k)
  }

  function SomaCasos(gs: seq<Grupo>): nat {
    if gs == [] then 0 else gs[0].casos + SomaCasos(gs[1..])
  }

  ghost predicate CasosPositivos(gs: seq<Grupo>) {
    forall i :: 0 <= i < |gs| ==> gs[i].casos > 0
  }

  /** Counts one more record with key `k` in a sorted grouping: the group of
      `k` grows by one, or a new group of one is placed where `k` sorts. */
  function Acrescentar(gs: seq<Grupo>, k: Chave): (r: seq<Grupo>)
    requires OrdenadoPorChave(gs)
    ensures OrdenadoPorChave(r)
    ensures r != [] && (ChaveDoGrupo(r[0]) == k || (gs != [] && ChaveDoGrupo(r[0]) == ChaveDoGrupo(gs[0])))
  {
    if gs == [] then [Grupo(k.0, k.1, 1)]
    else if ChaveDoGrupo(gs[0]) == k then
      var r := [gs[0].(casos := gs[0].casos + 1)] + gs[1..];
      OrdenadoComCabeca(r[0], gs[1..]);
      r
    else if Antes(k, ChaveDoGrupo(gs[0])) then
      var r := [Grupo(k.0, k.1, 1)] + gs;
      OrdenadoComCabeca(r[0], gs);
      r
    else
      var resto := Acrescentar(gs[1..], k);
      OrdenadoComCabeca(gs[0], resto);
      [gs[0]] + resto
  }

  /** A group placed before a sorted grouping whose first key it precedes
      keeps the grouping sorted. */
  lemma OrdenadoComCabeca(g: Grupo, gs: seq<Grupo>)
    requires OrdenadoPorChave(gs)
    requires gs != [] ==> Antes(ChaveDoGrupo(g), ChaveDoGrupo(gs[0]))
    ensures OrdenadoPorChave([g] + gs)
  {
    var r := [g] + gs;
    forall i, j | 0 <= i < j < |r|
      ensures Antes(ChaveDoGrupo(r[i]), ChaveDoGrupo(r[j]))
    {
      if i == 0 && j > 1 {
        assert r[j] == gs[j - 1] && Antes(ChaveDoGrupo(gs[0]), ChaveDoGrupo(gs[j - 1]));
      }
    }
  }

  /** Counting a record with key `k` adds one to the count of `k` and
      leaves every other key's count alone. */
  lemma {:induction false} AcrescentarCasos(gs: seq<Grupo>, k: Chave, c: Chave)
    requires OrdenadoPorChave(gs)
    ensures CasosDe(Acrescentar(gs, k), c) == CasosDe(gs, c) + (if c == k then 1 else 0)
    decreases |gs|
  {
    var r := Acrescentar(gs, k);
    if gs == [] {
    } else if ChaveDoGrupo(gs[0]) == k {
      assert r[1..] == gs[1..];
    } else if Antes(k, ChaveDoGrupo(gs[0])) {
      assert r[1..] == gs;
      AusenteAntesDaCabeca(gs, k);
    } else {
      AcrescentarCasos(gs[1..], k, c);
      assert r[1..] == Acrescentar(gs[1..], k);
    }
  }

  /** Counting one record adds one to the total. */
  lemma {:induction false} AcrescentarSoma(gs: seq<Grupo>, k: Chave)
    requires OrdenadoPorChave(gs)
    ensures SomaCasos(Acrescentar(gs, k)) == SomaCasos(gs) + 1
    decreases |gs|
  {
    var r := Acrescentar(gs, k);
    if gs == [] {
    } else if ChaveDoGrupo(gs[0]) == k {
      assert r[1..] == gs[1..];
    } else if Antes(k, ChaveDoGrupo(gs[0])) {
      assert r[1..] == gs;
    } else {
      AcrescentarSoma(gs[1..], k);
      assert r[1..] == Acrescentar(gs[1..], k);
    }
  }

  /** Counting one record keeps every count positive. */
  lemma {:induction false} AcrescentarPositivos(gs: seq<Grupo>, k: Chave)
    requires OrdenadoPorChave(gs) && CasosPositivos(gs)
    ensures CasosPositivos(Acrescentar(gs, k))
    decreases |gs|
  {
    var r := Acrescentar(gs, k);
    if gs != [] && ChaveDoGrupo(gs[0]) != k && !Antes(k, ChaveDoGrupo(gs[0])) {
      AcrescentarPositivos(gs[1..], k);
      assert r[1..] == Acrescentar(gs[1..], k);
    }
  }

  /** A key sorted strictly before every group's key has count 0. */
  lemma {:induction false} AusenteAntesDaCabeca(gs: seq<Grupo>, k: Chave)
    requires OrdenadoPorChave(gs)
    requires forall i :: 0 <= i < |gs| ==> Antes(k, ChaveDoGrupo(gs[i]))
    ensures CasosDe(gs, k) == 0
  {
    if gs != [] {
      AusenteAntesDaCabeca(gs[1..], k);
    }
  }

  /** `groupby(["nu_ano", "sem_not"]).size()`: one group per distinct key
      pair, sorted by key, each counting the records with that pair; the
      counts add up to the records that have both keys. */
  function Agrupar(ls: seq<Linha>): (gs: seq<Grupo>)
    ensures OrdenadoPorChave(gs)
    ensures CasosPositivos(gs)
    ensures forall k :: CasosDe(gs, k) == Ocorrencias(ls, k)
    ensures SomaCasos(gs) == ComChave(ls)
  {
    if ls == [] then []
    else
      var gs := Agrupar(ls[..|ls| - 1]);
      ContaUltimo(ls, TemChave);
      match ChaveDaLinha(ls[|ls| - 1])
      case None => gs
      case Some(k) =>
        AcrescentarSoma(gs, k);
        AcrescentarPositivos(gs, k);
        assert forall c :: CasosDe(Acrescentar(gs, k), c) == CasosDe(gs, c) + (if c == k then 1 else 0) by {
          forall c
            ensures CasosDe(Acrescentar(gs, k), c) == CasosDe(gs, c) + (if c == k then 1 else 0)
          {
            AcrescentarCasos(gs, k, c);
          }
        }
        Acrescentar(gs, k)
  }

  /** A key is counted exactly when some record carries it. */
  lemma {:induction false} OcorrenciasPositivas(ls: seq<Linha>, k: Chave)
    ensures Ocorrencias(ls, k) > 0 <==> exists i :: 0 <= i < |ls| && ChaveDaLinha(ls[i]) == Some(k)
    decreases |ls|
  {
    if ls != [] {
      var ini := ls[..|ls| - 1];
      OcorrenciasPositivas(ini, k);
      assert forall i :: 0 <= i < |ini| ==> ini[i] == ls[i];
    }
  }

  /** In a sorted grouping each group's own key reads back its count. */
  lemma {:induction false} CasosDoProprioGrupo(gs: seq<Grupo>, i: nat)
    requires OrdenadoPorChave(gs) && i < |gs|
    ensures CasosDe(gs, ChaveDoGrupo(gs[i])) == gs[i].casos
    decreases i
  {
    if i > 0 {
      assert Antes(ChaveDoGrupo(gs[0]), ChaveDoGrupo(gs[i]));
      CasosDoProprioGrupo(gs[1..], i - 1);
    }
  }

  /** A key with a non-zero count belongs to some group. */
  lemma {:induction false} CasosDeGrupoExistente(gs: seq<Grupo>, k: Chave)
    requires CasosDe(gs, k) > 0
    ensures exists i :: 0 <= i < |gs| && ChaveDoGrupo(gs[i]) == k
  {
    if ChaveDoGrupo(gs[0]) != k {
      CasosDeGrupoExistente(gs[1..], k);
      var i :| 0 <= i < |gs[1..]| && ChaveDoGrupo(gs[1..][i]) == k;
      assert ChaveDoGrupo(gs[i + 1]) == k;
    }
  }

  /** The counts of a grouping add up to 0 only when it is empty. */
  lemma SomaCasosVazia(gs: seq<Grupo>)
    requires CasosPositivos(gs)
    ensures SomaCasos(gs) == 0 <==> gs == []
  {
  }

  /** The grouped frame has exactly one row per distinct (year, week) pair
      seen in the records, and that row's `casos` is the number of records
      with the pair; it is empty exactly when no record has both keys. */
  lemma AgruparExato(ls: seq<Linha>)
    ensures forall i, j :: 0 <= i < j < |Agrupar(ls)| ==>
      ChaveDoGrupo(Agrupar(ls)[i]) != ChaveDoGrupo(Agrupar(ls)[j])
    ensures forall i :: 0 <= i < |Agrupar(ls)| ==>
      Agrupar(ls)[i].casos == Ocorrencias(ls, ChaveDoGrupo(Agrupar(ls)[i]))
    ensures forall k ::
      ((exists i :: 0 <= i < |ls| && ChaveDaLinha(ls[i]) == Some(k))
       <==> (exists j :: 0 <= j < |Agrupar(ls)| && ChaveDoGrupo(Agrupar(ls)[j]) == k))
    ensures Agrupar(ls) == [] <==> ComChave(ls) == 0
  {
    var gs := Agrupar(ls);
    forall i | 0 <= i < |gs|
      ensures gs[i].casos == Ocorrencias(ls, ChaveDoGrupo(gs[i]))
    {
      CasosDoProprioGrupo(gs, i);
    }
    forall k
      ensures (exists i :: 0 <= i < |ls| && ChaveDaLinha(ls[i]) == Some(k))
        <==> (exists j :: 0 <= j < |gs| && ChaveDoGrupo(gs[j]) == k)
    {
      OcorrenciasPositivas(ls, k);
      if Ocorrencias(ls, k) > 0 {
        CasosDeGrupoExistente(gs, k);
      }
      if j :| 0 <= j < |gs| && ChaveDoGrupo(gs[j]) == k {
        CasosDoProprioGrupo(gs, j);
      }
    }
    SomaCasosVazia(gs);
  }
}
