/** The filter of src/padronizador.py: dropping the rows whose
    `classificados` text mentions "descartado", in any letter case. */
module Padronizador {
  import opened Caracteres
  import opened Tabelas
  import opened Selecao

  /** `s` contains `agulha` when both are compared with ASCII letters folded
      to lower case (`str.contains(agulha, case=False)`). */
  predicate ContemSemCaixa(s: string, agulha: string) {
    exists i | 0 <= i <= |s| :: CasaEm(s, agulha, i)
  }

  /** `agulha` occurs in `s` at position `i`, up to ASCII letter case. */
  predicate CasaEm(s: string, agulha: string, i: int) {
    0 <= i && i + |agulha| <= |s| && Minusculas(s[i..i + |agulha|]) == Minusculas(agulha)
  }

  /** The mask `quadro["classificados"].str.contains("descartado", case=False,
      na=False)` at one cell: a cell that is not a string gives NaN, which
      `na=False` turns into "does not contain". */
  predicate MarcadaDescartada(c: Celula) {
    c.Texto? && ContemSemCaixa(c.s, "descartado")
  }

  /** The negated mask `~ignorar_descl`. */
  predicate Mantida(l: Linha) {
    !MarcadaDescartada(l.classificados)
  }

  /** The model's approximation of the `.str` accessor's AttributeError:
      the frame has rows and none of its `classificados` cells is a string.
      Column types are not modelled, so an all-NaN text column counts as
      refused here and an empty numeric column does not. */
  predicate SemTextos(t: Tabela) {
    t.linhas != [] && forall i :: 0 <= i < |t.linhas| ==> !t.linhas[i].classificados.Texto?
  }

  /** `filtrar(quadro)`: without a `classificados` column the frame comes
      back as it is; otherwise the rows marked discarded are removed, unless
      the frame has rows and no cell of the column is a string, where `.str`
      is taken to raise (None). */
  function Filtrar(t: Tabela): (r: Option<Tabela>)
    ensures Classificados !in t.colunas ==> r == Some(t)
    ensures Classificados in t.colunas ==> (r.None? <==> SemTextos(t))
    ensures r.Some? ==> r.value.colunas == t.colunas && |r.value.linhas| <= |t.linhas|
    ensures Classificados in t.colunas && r.Some? ==>
      forall l :: l in r.value.linhas ==> l in t.linhas && !MarcadaDescartada(l.classificados)
  {
    if Classificados !in t.colunas then Some(t)
    else if SemTextos(t) then None
    else Some(Tabela(t.colunas, Filtro(t.linhas, Mantida)))
  }

  /** With the column present, `filtrar` fails exactly when the frame has
      rows and no cell of the column is a string; otherwise it keeps, in their order and unchanged, exactly
      the rows not marked discarded, and a missing or non-string value among
      strings is never marked, so its row stays. */
  lemma FiltrarExato(t: Tabela) returns (idx: seq<nat>)
    requires Classificados in t.colunas
    ensures Filtrar(t).None? <==> t.linhas != [] && forall l :: l in t.linhas ==> !l.classificados.Texto?
    ensures Filtrar(t).Some? ==>
      IndicesCrescentes(idx, |t.linhas|) && |idx| == |Filtrar(t).value.linhas|
      && (forall k :: 0 <= k < |idx| ==> Filtrar(t).value.linhas[k] == t.linhas[idx[k]])
      && (forall i :: 0 <= i < |t.linhas| ==> (i in idx <==> !MarcadaDescartada(t.linhas[i].classificados)))
      && (forall i :: 0 <= i < |t.linhas| && !t.linhas[i].classificados.Texto? ==> i in idx)
  {
    idx := PosicoesMantidas(t.linhas, Mantida);
    assert SemTextos(t) <==> t.linhas != [] && forall l :: l in t.linhas ==> !l.classificados.Texto?;
  }

  /** Filtering a second time removes nothing more, unless the first pass
      removed every string of the column, so that `.str` now raises. */
  lemma FiltrarIdempotente(t: Tabela, u: Tabela)
    requires Filtrar(t) == Some(u)
    ensures Filtrar(u) == if Classificados in u.colunas && SemTextos(u) then None else Some(u)
  {
    if Classificados in t.colunas {
      FiltroIdempotente(t.linhas, Mantida);
    }
  }

  /** A column holding one marked string and one number passes the first
      filter, which keeps only the number; filtering that result again
      raises, as the column is now numeric. */
  lemma FiltrarSegundaVezFalha()
    ensures var marcada := Linha(None, None, Vazia, Vazia, Texto("descartado"));
      var numero := Linha(None, None, Vazia, Vazia, Num(5));
      Filtrar(Tabela({Classificados}, [marcada, numero])) == Some(Tabela({Classificados}, [numero]))
      && Filtrar(Tabela({Classificados}, [numero])) == None
  {
    var marcada := Linha(None, None, Vazia, Vazia, Texto("descartado"));
    var numero := Linha(None, None, Vazia, Vazia, Num(5));
    assert Minusculas("descartado"[0..10]) == Minusculas("descartado");
    assert CasaEm("descartado", "descartado", 0);
    assert !Mantida(marcada) && Mantida(numero);
    assert [marcada, numero][1..] == [numero] && [numero][1..] == [];
    assert Filtro([numero], Mantida) == [numero];
    assert Filtro([marcada, numero], Mantida) == [numero];
  }

  /** The letter case of the mark does not matter: "Descartado" and
      "CASO DESCARTADO" are both removed, "Confirmado" is kept. */
  lemma MarcaSemCaixa()
    ensures MarcadaDescartada(Texto("Descartado"))
    ensures MarcadaDescartada(Texto("CASO DESCARTADO"))
    ensures !MarcadaDescartada(Texto("Confirmado"))
  {
    assert Minusculas("Descartado"[0..10]) == Minusculas("descartado");
    assert CasaEm("Descartado", "descartado", 0);
    assert Minusculas("CASO DESCARTADO"[5..15]) == Minusculas("descartado");
    assert CasaEm("CASO DESCARTADO", "descartado", 5);
    assert Minusculas("Confirmado")[0] == 'c';
    assert !CasaEm("Confirmado", "descartado", 0);
  }
}
