/** algoritmos/municipios.py: the parser that reads the São Paulo
    municipality list, a text with one entry per line, into (code, name)
    pairs, followed by the de-duplication by code. */
module Municipios {
  import opened Caracteres
  import opened Selecao

  /** The leading text of the heading line that the parser skips. */
  const CABECALHO := "Municípios de São Paulo"

  /** `str.strip()` on the left: drops leading whitespace. */
  function TirarInicio(s: string): (r: string)
    ensures |r| <= |s| && r == s[|s| - |r|..]
    ensures r != [] ==> !EhEspaco(r[0])
    ensures forall i :: 0 <= i < |s| - |r| ==> EhEspaco(s[i])
  {
    if s != [] && EhEspaco(s[0]) then TirarInicio(s[1..]) else s
  }

  /** `str.strip()` on the right: drops trailing whitespace. */
  function TirarFim(s: string): (r: string)
    ensures |r| <= |s| && r == s[..|r|]
    ensures r != [] ==> !EhEspaco(r[|r| - 1])
    ensures forall i :: |r| <= i < |s| ==> EhEspaco(s[i])
  {
    if s != [] && EhEspaco(s[|s| - 1]) then TirarFim(s[..|s| - 1]) else s
  }

  /** `str.strip()`: a slice of the line with no whitespace at either end,
      empty exactly when the line is all whitespace. */
  function Strip(s: string): (r: string)
    ensures |r| <= |s|
    ensures r != [] ==> !EhEspaco(r[0]) && !EhEspaco(r[|r| - 1])
    ensures r == [] <==> forall i :: 0 <= i < |s| ==> EhEspaco(s[i])
  {
    TirarFim(TirarInicio(s))
  }

  /** Every line of the file, stripped. */
  function Despidas(brutas: seq<string>): (r: seq<string>)
    ensures |r| == |brutas|
    ensures forall i :: 0 <= i < |brutas| ==> r[i] == Strip(brutas[i])
  {
    seq(|brutas|, i requires 0 <= i < |brutas| => Strip(brutas[i]))
  }

  predicate NaoVazia(l: string) {
    l != []
  }

  /** `[l.strip() for l in f if l.strip()]`: the stripped non-blank lines. */
  function Limpar(brutas: seq<string>): (ls: seq<string>)
    ensures |ls| <= |brutas|
    ensures forall k :: 0 <= k < |ls| ==> ls[k] != []
  {
    var ls := Filtro(Despidas(brutas), NaoVazia);
    assert forall k :: 0 <= k < |ls| ==> ls[k] in ls;
    ls
  }

  /** The cleaned lines are, in file order, exactly the stripped lines that
      are not blank: the input read at increasing positions, where a
      position is used exactly when its line has a non-space character. */
  lemma LimparExato(brutas: seq<string>) returns (idx: seq<nat>)
    ensures IndicesCrescentes(idx, |brutas|) && |idx| == |Limpar(brutas)|
    ensures forall k :: 0 <= k < |idx| ==> Limpar(brutas)[k] == Strip(brutas[idx[k]])
    ensures forall i :: 0 <= i < |brutas| ==>
      (i in idx <==> exists j :: 0 <= j < |brutas[i]| && !EhEspaco(brutas[i][j]))
  {
    idx := PosicoesMantidas(Despidas(brutas), NaoVazia);
  }

  /** A line the parser steps over: the heading, or a single letter
      (an alphabetical section marker). */
  predicate Ignorada(linha: string) {
    (|linha| >= |CABECALHO| && linha[..|CABECALHO|] == CABECALHO)
    || (|linha| == 1 && EhLetra(linha[0]))
  }

  /** `prox.isdigit() and len(prox) in (6, 7)`. */
  predicate EhCodigo(prox: string) {
    SoDigitos(prox) && (|prox| == 6 || |prox| == 7)
  }

  /** A municipality: `cod` holds the first six digits of the IBGE code. */
  datatype Municipio = Municipio(cod: string, nome: string)

  /** Whether the loop, standing at position `i`, takes a pair there. */
  predicate ParEm(ls: seq<string>, i: nat)
    requires i + 1 < |ls|
  {
    !Ignorada(ls[i]) && EhCodigo(ls[i + 1])
  }

  /** The positions of the names the parser pairs, walking from `i`: it
      stops when fewer than two lines remain, skips two lines after a pair
      and one line otherwise. */
  function Nomes(ls: seq<string>, i: nat): (r: seq<nat>)
    ensures forall k :: 0 <= k < |r| ==> i <= r[k] && r[k] + 1 < |ls| && ParEm(ls, r[k])
    decreases |ls| - i
  {
    if i + 1 >= |ls| then []
    else if ParEm(ls, i) then [i] + Nomes(ls, i + 2)
    else Nomes(ls, i + 1)
  }

  /** The pair read at name position `j`: the name and the first six
      characters of the code on the next line. */
  function Par(ls: seq<string>, j: nat): Municipio
    requires j + 1 < |ls| && EhCodigo(ls[j + 1])
  {
    Municipio(ls[j + 1][..6], ls[j])
  }

  /** The code of a pair is six digits. */
  lemma ParSeisDigitos(ls: seq<string>, j: nat)
    requires j + 1 < |ls| && EhCodigo(ls[j + 1])
    ensures |Par(ls, j).cod| == 6 && SoDigitos(Par(ls, j).cod)
  {
    var c := ls[j + 1];
    assert forall k :: 0 <= k < 6 ==> c[..6][k] == c[k];
  }

  /** The pairs read at the given name positions, in order. */
  function Pares(ls: seq<string>, nomes: seq<nat>): (ps: seq<Municipio>)
    requires forall k :: 0 <= k < |nomes| ==> nomes[k] + 1 < |ls| && EhCodigo(ls[nomes[k] + 1])
    ensures |ps| == |nomes|
    ensures forall k :: 0 <= k < |nomes| ==> ps[k] == Par(ls, nomes[k])
    ensures forall k :: 0 <= k < |nomes| ==>
      ps[k].nome == ls[nomes[k]] && |ps[k].cod| == 6 && SoDigitos(ps[k].cod)
  {
    assert forall k :: 0 <= k < |nomes| ==> |Par(ls, nomes[k]).cod| == 6 && SoDigitos(Par(ls, nomes[k]).cod) by {
      forall k | 0 <= k < |nomes| {
        ParSeisDigitos(ls, nomes[k]);
      }
    }
    seq(|nomes|, k requires 0 <= k < |nomes| => Par(ls, nomes[k]))
  }

  /** Reading one more name position appends its pair. */
  lemma ParesAcrescentar(ls: seq<string>, nomes: seq<nat>, j: nat)
    requires forall k :: 0 <= k < |nomes| ==> nomes[k] + 1 < |ls| && EhCodigo(ls[nomes[k] + 1])
    requires j + 1 < |ls| && EhCodigo(ls[j + 1])
    ensures Pares(ls, nomes + [j]) == Pares(ls, nomes) + [Par(ls, j)]
  {
    var a, b := Pares(ls, nomes + [j]), Pares(ls, nomes) + [Par(ls, j)];
    assert |a| == |b|;
    forall k | 0 <= k < |a|
      ensures a[k] == b[k]
    {
      if k < |nomes| {
        assert (nomes + [j])[k] == nomes[k];
      }
    }
  }

  /** A name position is paired exactly when the line before it was not
      consumed as a name, the line itself is not skipped, and the next line
      is a code. */
  lemma {:induction false} NomesExatos(ls: seq<string>, i: nat, j: nat)
    requires i <= j && j + 1 < |ls|
    ensures j in Nomes(ls, i) <==>
      (j == i || (j - 1 !in Nomes(ls, i))) && ParEm(ls, j)
    decreases |ls| - i
  {
    NomesPasso(ls, i);
    if i == j {
      assert ParEm(ls, i) ==> i in Nomes(ls, i);
      assert !ParEm(ls, i) ==> i !in Nomes(ls, i + 1);
    } else if ParEm(ls, i) {
      var resto := Nomes(ls, i + 2);
      assert i + 1 !in resto;
      if j == i + 1 {
        assert j !in Nomes(ls, i);
      } else {
        NomesExatos(ls, i + 2, j);
        assert j in Nomes(ls, i) <==> j in resto;
        assert j - 1 in Nomes(ls, i) <==> j - 1 in resto;
      }
    } else {
      NomesExatos(ls, i + 1, j);
      if j == i + 1 {
        assert i !in Nomes(ls, i + 1);
      }
    }
  }

  /** One step of the walk: a pair at `i` moves it two lines on, anything
      else one line. */
  lemma NomesPasso(ls: seq<string>, i: nat)
    requires i + 1 < |ls|
    ensures ParEm(ls, i) ==> Nomes(ls, i) == [i] + Nomes(ls, i + 2)
    ensures !ParEm(ls, i) ==> Nomes(ls, i) == Nomes(ls, i + 1)
  {
  }

  /** The name positions are read in input order, never overlapping a
      pair already read: each is at least two lines after the previous. */
  lemma {:induction false} NomesEmOrdem(ls: seq<string>, i: nat)
    ensures forall k, m :: 0 <= k < m < |Nomes(ls, i)| ==> Nomes(ls, i)[k] + 2 <= Nomes(ls, i)[m]
    decreases |ls| - i
  {
    if i + 1 < |ls| {
      NomesEmOrdem(ls, i + 1);
      NomesEmOrdem(ls, i + 2);
    }
  }

  /** Whether a municipality code already appears among the given pairs. */
  predicate CodigoVisto(ps: seq<Municipio>, cod: string) {
    exists k :: 0 <= k < |ps| && ps[k].cod == cod
  }

  /** `drop_duplicates(subset=["cod"], keep="first")`. */
  function SemDuplicatas(ps: seq<Municipio>): (r: seq<Municipio>)
    ensures |r| <= |ps|
    ensures forall m :: m in r ==> m in ps
    decreases |ps|
  {
    if ps == [] then []
    else
      var anterior := SemDuplicatas(ps[..|ps| - 1]);
      var m := ps[|ps| - 1];
      if CodigoVisto(ps[..|ps| - 1], m.cod) then anterior else anterior + [m]
  }

  /** After de-duplication the codes are pairwise distinct. */
  lemma {:induction false} SemDuplicatasDistintas(ps: seq<Municipio>)
    ensures forall a, b :: 0 <= a < b < |SemDuplicatas(ps)| ==>
      SemDuplicatas(ps)[a].cod != SemDuplicatas(ps)[b].cod
    decreases |ps|
  {
    if ps != [] {
      var ini := ps[..|ps| - 1];
      var m := ps[|ps| - 1];
      SemDuplicatasDistintas(ini);
      var r0 := SemDuplicatas(ini);
      var r := SemDuplicatas(ps);
      if !CodigoVisto(ini, m.cod) {
        assert r == r0 + [m];
        forall a, b | 0 <= a < b < |r|
          ensures r[a].cod != r[b].cod
        {
          if b == |r| - 1 {
            assert r[a] in r0;
            var k :| 0 <= k < |ini| && ini[k] == r[a];
          } else {
            assert r[a] == r0[a] && r[b] == r0[b];
          }
        }
      }
    }
  }

  /** Every code of the input survives de-duplication. */
  lemma {:induction false} SemDuplicatasCobre(ps: seq<Municipio>)
    ensures forall k :: 0 <= k < |ps| ==> CodigoVisto(SemDuplicatas(ps), ps[k].cod)
    decreases |ps|
  {
    if ps != [] {
      var ini := ps[..|ps| - 1];
      var m := ps[|ps| - 1];
      SemDuplicatasCobre(ini);
      var r0 := SemDuplicatas(ini);
      var r := SemDuplicatas(ps);
      if CodigoVisto(ini, m.cod) {
        var k :| 0 <= k < |ini| && ini[k].cod == m.cod;
        assert CodigoVisto(r0, ini[k].cod);
      } else {
        assert r == r0 + [m];
        forall k | 0 <= k < |ps|
          ensures CodigoVisto(r, ps[k].cod)
        {
          if k < |ini| {
            assert ini[k] == ps[k];
            var q :| 0 <= q < |r0| && r0[q].cod == ps[k].cod;
            assert r[q] == r0[q];
          } else {
            assert r[|r| - 1] == m;
          }
        }
      }
    }
  }

  /** Each pair kept is the first one in the input with its code. */
  lemma {:induction false} SemDuplicatasPrimeira(ps: seq<Municipio>)
    ensures forall m :: m in SemDuplicatas(ps) ==>
      exists k :: 0 <= k < |ps| && ps[k] == m && !CodigoVisto(ps[..k], m.cod)
    decreases |ps|
  {
    if ps != [] {
      var ini := ps[..|ps| - 1];
      var m := ps[|ps| - 1];
      SemDuplicatasPrimeira(ini);
      var r0 := SemDuplicatas(ini);
      var r := SemDuplicatas(ps);
      forall x | x in r
        ensures exists k :: 0 <= k < |ps| && ps[k] == x && !CodigoVisto(ps[..k], x.cod)
      {
        if x in r0 {
          var k :| 0 <= k < |ini| && ini[k] == x && !CodigoVisto(ini[..k], x.cod);
          assert ps[k] == x && ps[..k] == ini[..k];
        } else {
          assert !CodigoVisto(ini, m.cod) && r == r0 + [m];
          assert x == m && ps[..|ps| - 1] == ini;
        }
      }
    }
  }

  /** `keep="first"` keeps the input order: the result is the input read at
      increasing positions, and a position is kept exactly when no earlier
      pair has its code. */
  lemma {:induction false} SemDuplicatasOrdem(ps: seq<Municipio>) returns (idx: seq<nat>)
    ensures IndicesCrescentes(idx, |ps|) && |idx| == |SemDuplicatas(ps)|
    ensures forall k :: 0 <= k < |idx| ==> SemDuplicatas(ps)[k] == ps[idx[k]]
    ensures forall i :: 0 <= i < |ps| ==> (i in idx <==> !CodigoVisto(ps[..i], ps[i].cod))
    decreases |ps|
  {
    if ps == [] {
      idx := [];
    } else {
      var n := |ps| - 1;
      var ini := ps[..n];
      var idx0 := SemDuplicatasOrdem(ini);
      assert forall k :: 0 <= k < |idx0| ==> ini[idx0[k]] == ps[idx0[k]];
      assert forall i :: 0 <= i < n ==> ps[..i] == ini[..i] && ps[i] == ini[i];
      idx := IndicesPasso(ps, idx0);
      PassoElementos(ps, idx0);
      PassoPertence(ps, idx0);
    }
  }

  /** The positions kept once the last pair is read: it is appended when its
      code was not seen before. */
  function IndicesPasso(ps: seq<Municipio>, idx0: seq<nat>): (idx: seq<nat>)
    requires ps != [] && IndicesCrescentes(idx0, |ps| - 1)
    ensures IndicesCrescentes(idx, |ps|)
  {
    if CodigoVisto(ps[..|ps| - 1], ps[|ps| - 1].cod) then idx0 else idx0 + [|ps| - 1]
  }

  lemma PassoElementos(ps: seq<Municipio>, idx0: seq<nat>)
    requires ps != [] && IndicesCrescentes(idx0, |ps| - 1)
    requires |idx0| == |SemDuplicatas(ps[..|ps| - 1])|
    requires forall k :: 0 <= k < |idx0| ==> SemDuplicatas(ps[..|ps| - 1])[k] == ps[idx0[k]]
    ensures var idx := IndicesPasso(ps, idx0);
      |idx| == |SemDuplicatas(ps)| && forall k :: 0 <= k < |idx| ==> SemDuplicatas(ps)[k] == ps[idx[k]]
  {
  }

  lemma PassoPertence(ps: seq<Municipio>, idx0: seq<nat>)
    requires ps != [] && IndicesCrescentes(idx0, |ps| - 1)
    requires forall i :: 0 <= i < |ps| - 1 ==> (i in idx0 <==> !CodigoVisto(ps[..i], ps[i].cod))
    ensures forall i :: 0 <= i < |ps| ==> (i in IndicesPasso(ps, idx0) <==> !CodigoVisto(ps[..i], ps[i].cod))
  {
    assert |ps| - 1 !in idx0;
  }

  /** The parsing loop of `carregar_mapa_municipios_sp_de_txt`: walks the
      cleaned lines, reading a (name, code) pair wherever a line that is not
      skipped is followed by a code. */
  method LerPares(ls: seq<string>) returns (pares: seq<Municipio>)
    ensures pares == Pares(ls, Nomes(ls, 0))
  {
    pares := [];
    ghost var lidos: seq<nat> := [];
    var i := 0;
    while i < |ls| - 1
      invariant i <= |ls|
      invariant lidos + Nomes(ls, i) == Nomes(ls, 0)
      invariant forall k :: 0 <= k < |lidos| ==> lidos[k] + 1 < |ls| && EhCodigo(ls[lidos[k] + 1])
      invariant pares == Pares(ls, lidos)
      decreases |ls| - i
    {
      var linha := ls[i];
      var prox := ls[i + 1];
      NomesPasso(ls, i);
      if Ignorada(linha) {
        i := i + 1;
        continue;
      }
      if EhCodigo(prox) {
        assert (lidos + [i]) + Nomes(ls, i + 2) == lidos + Nomes(ls, i);
        ParesAcrescentar(ls, lidos, i);
        pares := pares + [Municipio(prox[..6], linha)];
        lidos := lidos + [i];
        i := i + 2;
      } else {
        i := i + 1;
      }
    }
    assert lidos == Nomes(ls, 0);
  }

  /** `carregar_mapa_municipios_sp_de_txt` over the lines of the file: the
      pairs read from the stripped non-blank lines, de-duplicated by code. */
  method CarregarMapaMunicipios(brutas: seq<string>) returns (df: seq<Municipio>)
    ensures var ls := Limpar(brutas); df == SemDuplicatas(Pares(ls, Nomes(ls, 0)))
  {
    var ls := Limpar(brutas);
    var pares := LerPares(ls);
    df := SemDuplicatas(pares);
  }

  /** Every pair read from non-empty lines has a six-digit code and a
      non-empty name that is not a skipped line. */
  lemma ParesBemFormados(ls: seq<string>)
    requires forall i :: 0 <= i < |ls| ==> ls[i] != []
    ensures forall m :: m in Pares(ls, Nomes(ls, 0)) ==>
      |m.cod| == 6 && SoDigitos(m.cod) && m.nome != [] && !Ignorada(m.nome)
  {
    var nomes := Nomes(ls, 0);
    var ps := Pares(ls, nomes);
    forall m | m in ps
      ensures |m.cod| == 6 && SoDigitos(m.cod) && m.nome != [] && !Ignorada(m.nome)
    {
      var k :| 0 <= k < |ps| && ps[k] == m;
      ParSeisDigitos(ls, nomes[k]);
    }
  }

  /** Every municipality the loader returns has a six-digit code and a
      non-empty name read from a line that is not skipped; the codes are
      pairwise distinct, and every code read survives. */
  lemma CarregarMapaMunicipiosCorreto(brutas: seq<string>, df: seq<Municipio>)
    requires var ls := Limpar(brutas); df == SemDuplicatas(Pares(ls, Nomes(ls, 0)))
    ensures forall m :: m in df ==> |m.cod| == 6 && SoDigitos(m.cod) && m.nome != [] && !Ignorada(m.nome)
    ensures forall a, b :: 0 <= a < b < |df| ==> df[a].cod != df[b].cod
    ensures var ls := Limpar(brutas); var ps := Pares(ls, Nomes(ls, 0));
      forall k :: 0 <= k < |ps| ==> CodigoVisto(df, ps[k].cod)
  {
    var ls := Limpar(brutas);
    var ps := Pares(ls, Nomes(ls, 0));
    ParesBemFormados(ls);
    SemDuplicatasDistintas(ps);
    SemDuplicatasCobre(ps);
  }
}
