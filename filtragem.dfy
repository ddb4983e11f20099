/** The table of federative units at the top of algoritmos/filtragem.py:
    abbreviation to IBGE code, as used in the `sg_uf_not` column. */
module UnidadesFederativas {

  /** IBGE code of every federative unit, keyed by its abbreviation. */
  const UF_IBGE: map<string, int> := map[
    "AC" := 12, "AL" := 27, "AP" := 16, "AM" := 13, "BA" := 29, "CE" := 23,
    "DF" := 53, "ES" := 32, "GO" := 52, "MA" := 21, "MT" := 51, "MS" := 50,
    "MG" := 31, "PA" := 15, "PB" := 25, "PR" := 41, "PE" := 26, "PI" := 22,
    "RJ" := 33, "RN" := 24, "RS" := 43, "RO" := 11, "RR" := 14, "SC" := 42,
    "SP" := 35, "SE" := 28, "TO" := 17]

  /** The codes of the table, in increasing order. */
  const CODIGOS_UF: seq<int> := [11, 12, 13, 14, 15, 16, 17, 21, 22, 23, 24, 25, 26, 27, 28, 29,
                                 31, 32, 33, 35, 41, 42, 43, 50, 51, 52, 53]

  /** The abbreviation of the unit with a given IBGE code. */
  function SiglaDoCodigo(cod: int): string {
    if cod == 12 then "AC" else if cod == 27 then "AL" else if cod == 16 then "AP"
    else if cod == 13 then "AM" else if cod == 29 then "BA" else if cod == 23 then "CE"
    else if cod == 53 then "DF" else if cod == 32 then "ES" else if cod == 52 then "GO"
    else if cod == 21 then "MA" else if cod == 51 then "MT" else if cod == 50 then "MS"
    else if cod == 31 then "MG" else if cod == 15 then "PA" else if cod == 25 then "PB"
    else if cod == 41 then "PR" else if cod == 26 then "PE" else if cod == 22 then "PI"
    else if cod == 33 then "RJ" else if cod == 24 then "RN" else if cod == 43 then "RS"
    else if cod == 11 then "RO" else if cod == 14 then "RR" else if cod == 42 then "SC"
    else if cod == 35 then "SP" else if cod == 28 then "SE" else if cod == 17 then "TO"
    else ""
  }

  /** Every code of the table leads back to its own abbreviation, so no two
      units share a code. */
  lemma UfIbgeInjetiva()
    ensures forall a :: a in UF_IBGE ==> SiglaDoCodigo(UF_IBGE[a]) == a
    ensures forall a, b :: a in UF_IBGE && b in UF_IBGE && a != b ==> UF_IBGE[a] != UF_IBGE[b]
  {
    forall a | a in UF_IBGE
      ensures SiglaDoCodigo(UF_IBGE[a]) == a
    {
    }
  }

  /** A sequence increasing at every step has as many distinct elements as entries. */
  lemma {:induction false} TamanhoCrescente(s: seq<int>)
    requires forall i :: 0 <= i < |s| - 1 ==> s[i] < s[i + 1]
    ensures |set x | x in s| == |s|
    ensures forall i :: 0 < i < |s| ==> s[0] < s[i]
  {
    if s != [] {
      TamanhoCrescente(s[1..]);
      assert forall i :: 1 < i < |s| ==> s[1..][i - 1] == s[i];
      assert (set x | x in s) == (set x | x in s[1..]) + {s[0]};
    }
  }

  lemma CodigosUfTamanho()
    ensures |set x | x in CODIGOS_UF| == 27
  {
    TamanhoCrescente(CODIGOS_UF);
  }

  /** Exactly the listed codes have an abbreviation. */
  lemma SiglaDoCodigoListada(v: int)
    ensures SiglaDoCodigo(v) != "" <==> v in CODIGOS_UF
  {
  }

  /** The codes of the table are the 27 listed in `CODIGOS_UF`. */
  lemma UfIbgeCodigos()
    ensures UF_IBGE.Values == set x | x in CODIGOS_UF
  {
    var codigos := set x | x in CODIGOS_UF;
    UfIbgeInjetiva();
    forall v | v in UF_IBGE.Values
      ensures v in codigos
    {
      var k :| k in UF_IBGE && UF_IBGE[k] == v;
      assert SiglaDoCodigo(v) == k;
      SiglaDoCodigoListada(v);
    }
    forall v | v in codigos
      ensures v in UF_IBGE.Values
    {
      SiglaDoCodigoListada(v);
      SiglaDoCodigoNaTabela(v);
    }
  }

  lemma SiglaDoCodigoNaTabela(v: int)
    requires SiglaDoCodigo(v) != ""
    ensures SiglaDoCodigo(v) in UF_IBGE && UF_IBGE[SiglaDoCodigo(v)] == v
  {
  }

  /** The table holds 27 units, São Paulo with code 35. */
  lemma UfIbgeTamanho()
    ensures |UF_IBGE| == 27
    ensures UF_IBGE["SP"] == 35
  {
    UfIbgeCodigos();
    CodigosUfTamanho();
    UfIbgeInjetiva();
    TamanhoInjetiva(UF_IBGE);
  }

  /** A map that sends distinct keys to distinct values has as many values as keys. */
  lemma {:induction false} TamanhoInjetiva<K, V>(m: map<K, V>)
    requires forall a, b :: a in m && b in m && a != b ==> m[a] != m[b]
    ensures |m.Values| == |m|
    decreases |m|
  {
    if |m| > 0 {
      var a :| a in m;
      var m' := m - {a};
      TamanhoInjetiva(m');
      forall v | v in m.Values
        ensures v in m'.Values + {m[a]}
      {
        var b :| b in m && m[b] == v;
        if b != a {
          assert m'[b] == v;
        }
      }
      forall v | v in m'.Values
        ensures v in m.Values && v != m[a]
      {
        var b :| b in m' && m'[b] == v;
        assert m[b] == v;
      }
      assert m.Values == m'.Values + {m[a]};
    }
  }
}

/** The record filters of algoritmos/filtragem.py: dropping discarded cases
    and keeping one federative unit. Both overwrite the caller's column with
    its coerced values before selecting rows into a fresh frame, and both
    return the caller's own frame when the column is absent. */
module Filtragem {
  import opened Caracteres
  import opened Tabelas
  import opened Selecao
  import opened UnidadesFederativas

  /** The code used to classify a case as discarded. */
  const DESCARTADO := 5

  /** `UF_IBGE.get(uf_sigla.upper())`: a code exactly when the upper-cased
      abbreviation is a key, and then one of the 27 IBGE unit codes. */
  function CodigoUf(sigla: string): (r: Option<int>)
    ensures r.Some? <==> Maiusculas(sigla) in UF_IBGE
    ensures r.Some? ==> r.value in CODIGOS_UF
  {
    var chave := Maiusculas(sigla);
    UfIbgeCodigos();
    assert chave in UF_IBGE ==> UF_IBGE[chave] in UF_IBGE.Values;
    if chave in UF_IBGE then Some(UF_IBGE[chave]) else None
  }

  /** The lookup ignores the case of the abbreviation: any spelling that
      upper-cases to a key finds that key's code, and no other spelling
      finds anything. */
  lemma CodigoUfSemCaixa(sigla: string)
    ensures CodigoUf(sigla) == CodigoUf(Maiusculas(sigla))
    ensures CodigoUf(sigla).Some? <==> exists k :: k in UF_IBGE && Maiusculas(sigla) == k
    ensures forall k :: k in UF_IBGE && Maiusculas(sigla) == k ==> CodigoUf(sigla) == Some(UF_IBGE[k])
  {
    MaiusculasIdempotente(sigla);
  }

  /** "sp", "Sp" and "SP" all select code 35. */
  lemma CodigoUfSaoPaulo()
    ensures CodigoUf("sp") == Some(35) && CodigoUf("Sp") == Some(35) && CodigoUf("SP") == Some(35)
  {
    assert Maiusculas("sp") == "SP";
    assert Maiusculas("Sp") == "SP";
    assert Maiusculas("SP") == "SP";
  }

  /** Mask `quadro["classi_fin"] != 5`: NaN differs from 5, so a code that
      failed coercion passes. */
  predicate NaoDescartado(l: Linha) {
    Coagir(l.classiFin) != Some(DESCARTADO)
  }

  /** The frame `filtrar_classificados` returns, as a value. */
  function SemDescartados(t: Tabela): (r: Tabela)
    ensures r.colunas == t.colunas
    ensures |r.linhas| <= |t.linhas|
    ensures ClassiFin !in t.colunas ==> r == t
    ensures ClassiFin in t.colunas ==>
      forall l :: l in r.linhas ==> Coagir(l.classiFin) != Some(DESCARTADO) && !l.classiFin.Texto?
  {
    if ClassiFin !in t.colunas then t
    else Tabela(t.colunas, Filtro(CoagirClassiFin(t.linhas), NaoDescartado))
  }

  /** `filtrar_classificados` keeps, in their order, exactly the input rows
      whose coerced code is not 5, each with its code coerced; the rows
      whose code failed coercion are among them. */
  lemma SemDescartadosExatos(t: Tabela) returns (idx: seq<nat>)
    requires ClassiFin in t.colunas
    ensures IndicesCrescentes(idx, |t.linhas|) && |idx| == |SemDescartados(t).linhas|
    ensures forall k :: 0 <= k < |idx| ==>
      SemDescartados(t).linhas[k] == t.linhas[idx[k]].(classiFin := Coagida(t.linhas[idx[k]].classiFin))
    ensures forall i :: 0 <= i < |t.linhas| ==>
      (i in idx <==> Coagir(t.linhas[i].classiFin) != Some(DESCARTADO))
    ensures forall i :: 0 <= i < |t.linhas| && Coagir(t.linhas[i].classiFin) == None ==> i in idx
  {
    var coagidas := CoagirClassiFin(t.linhas);
    idx := PosicoesMantidas(coagidas, NaoDescartado);
    assert forall i :: 0 <= i < |t.linhas| ==> NaoDescartado(coagidas[i]) == NaoDescartado(t.linhas[i]);
  }

  /** Filtering discarded cases a second time removes nothing. */
  lemma SemDescartadosIdempotente(t: Tabela)
    ensures SemDescartados(SemDescartados(t)) == SemDescartados(t)
  {
    if ClassiFin in t.colunas {
      var f := Filtro(CoagirClassiFin(t.linhas), NaoDescartado);
      assert forall i :: 0 <= i < |f| ==> f[i] in f;
      CoagirClassiFinJaCoagido(f);
      FiltroIdempotente(CoagirClassiFin(t.linhas), NaoDescartado);
    }
  }

  /** `filtrar_classificados(quadro)`: returns `quadro` itself when it has no
      `classi_fin` column; otherwise overwrites that column with its coerced
      values and returns a fresh frame of the rows whose code is not 5. */
  method FiltrarClassificados(quadro: Quadro) returns (r: Quadro)
    modifies quadro
    ensures quadro.colunas == old(quadro.colunas)
    ensures ClassiFin !in quadro.colunas ==> r == quadro && quadro.linhas == old(quadro.linhas)
    ensures ClassiFin in quadro.colunas ==> fresh(r) && quadro.linhas == CoagirClassiFin(old(quadro.linhas))
    ensures r.Valor() == SemDescartados(old(quadro.Valor()))
  {
    if ClassiFin !in quadro.colunas {
      return quadro;
    }
    quadro.linhas := CoagirClassiFin(quadro.linhas);
    r := new Quadro(quadro.colunas, Filtro(quadro.linhas, NaoDescartado));
  }

  /** Mask `quadro["sg_uf_not"] == cod_uf`: NaN equals nothing, so a code that
      failed coercion fails it. */
  function DaUf(cod: int): Linha -> bool {
    (l: Linha) => Coagir(l.sgUfNot) == Some(cod)
  }

  /** The frame `filtrar_uf` returns, as a value. */
  function PorUf(t: Tabela, sigla: string): (r: Tabela)
    ensures r.colunas == t.colunas
    ensures |r.linhas| <= |t.linhas|
    ensures SgUfNot !in t.colunas || CodigoUf(sigla).None? ==> r == t
    ensures SgUfNot in t.colunas && CodigoUf(sigla).Some? ==>
      forall l :: l in r.linhas ==> l.sgUfNot == Num(CodigoUf(sigla).value)
  {
    if SgUfNot !in t.colunas then t
    else match CodigoUf(sigla)
      case None => t
      case Some(cod) => Tabela(t.colunas, Filtro(CoagirSgUfNot(t.linhas), DaUf(cod)))
  }

  /** When the unit is mapped, `filtrar_uf` keeps, in their order, exactly
      the input rows whose coerced code equals the unit's code, each with its
      code coerced; a row whose code failed coercion is dropped. */
  lemma PorUfExatos(t: Tabela, sigla: string, cod: int) returns (idx: seq<nat>)
    requires SgUfNot in t.colunas && CodigoUf(sigla) == Some(cod)
    ensures IndicesCrescentes(idx, |t.linhas|) && |idx| == |PorUf(t, sigla).linhas|
    ensures forall k :: 0 <= k < |idx| ==>
      PorUf(t, sigla).linhas[k] == t.linhas[idx[k]].(sgUfNot := Num(cod))
    ensures forall i :: 0 <= i < |t.linhas| ==> (i in idx <==> Coagir(t.linhas[i].sgUfNot) == Some(cod))
    ensures forall i :: 0 <= i < |t.linhas| && Coagir(t.linhas[i].sgUfNot) == None ==> i !in idx
  {
    var coagidas := CoagirSgUfNot(t.linhas);
    idx := PosicoesMantidas(coagidas, DaUf(cod));
    assert forall i :: 0 <= i < |t.linhas| ==> DaUf(cod)(coagidas[i]) == DaUf(cod)(t.linhas[i]);
    forall k | 0 <= k < |idx|
      ensures PorUf(t, sigla).linhas[k] == t.linhas[idx[k]].(sgUfNot := Num(cod))
    {
      assert DaUf(cod)(coagidas[idx[k]]);
    }
  }

  /** `filtrar_uf(quadro, uf_sigla)`: returns `quadro` itself when it has no
      `sg_uf_not` column or the abbreviation is not mapped; otherwise
      overwrites that column with its coerced values and returns a fresh
      frame of the rows of that unit. */
  method FiltrarUf(quadro: Quadro, sigla: string) returns (r: Quadro)
    modifies quadro
    ensures quadro.colunas == old(quadro.colunas)
    ensures SgUfNot !in quadro.colunas || CodigoUf(sigla).None? ==>
      r == quadro && quadro.linhas == old(quadro.linhas)
    ensures SgUfNot in quadro.colunas && CodigoUf(sigla).Some? ==>
      fresh(r) && quadro.linhas == CoagirSgUfNot(old(quadro.linhas))
    ensures r.Valor() == PorUf(old(quadro.Valor()), sigla)
  {
    if SgUfNot !in quadro.colunas {
      return quadro;
    }
    var codUf := CodigoUf(sigla);
    if codUf.None? {
      return quadro;
    }
    quadro.linhas := CoagirSgUfNot(quadro.linhas);
    r := new Quadro(quadro.colunas, Filtro(quadro.linhas, DaUf(codUf.value)));
  }
}
