/** The tabular data the filters and statistics work on: pandas cells before
    and after numeric coercion, record rows, tables as ordered row sequences,
    and the mutable data frame. */
module Tabelas {
  import opened Caracteres

  datatype Option<+T> = None | Some(value: T)

  /** One cell as read from the CSV: a number, a text, or missing (NaN). */
  datatype Celula = Num(n: int) | Texto(s: string) | Vazia

  /** The value of a string of decimal digits. */
  function ValorDecimal(s: string): (r: nat)
    requires forall i :: 0 <= i < |s| ==> EhDigito(s[i])
    decreases |s|
  {
    if s == [] then 0
    else
      assert EhDigito(s[|s| - 1]);
      ValorDecimal(s[..|s| - 1]) * 10 + (s[|s| - 1] as int - '0' as int)
  }

  /** `pd.to_numeric(cell, errors="coerce")`: a number stays, a text made of
      digits is parsed, everything else fails and becomes NaN (None here). */
  function Coagir(c: Celula): (r: Option<int>)
    ensures c.Num? ==> r == Some(c.n)
    ensures c.Vazia? ==> r == None
    ensures c.Texto? ==> (r.Some? <==> SoDigitos(c.s)) && (r.Some? ==> r.value >= 0)
  {
    match c
    case Num(n) => Some(n)
    case Texto(s) => if SoDigitos(s) then Some(ValorDecimal(s)) else None
    case Vazia => None
  }

  /** Digit strings parse to their decimal value, leading zeros included;
      an empty text or one with any other character becomes NaN. */
  lemma CoagirExemplos()
    ensures Coagir(Texto("12")) == Some(12)
    ensures Coagir(Texto("05")) == Some(5)
    ensures Coagir(Texto("")) == None
    ensures Coagir(Texto("1a")) == None
  {
    assert "12"[..1] == "1" && "1"[..0] == "";
    assert ValorDecimal("1") == 1;
    assert ValorDecimal("12") == 12;
    assert "05"[..1] == "0" && "0"[..0] == "";
    assert ValorDecimal("0") == 0;
    assert ValorDecimal("05") == 5;
    assert !EhDigito("1a"[1]);
  }

  /** The cell that coercion writes back into the column: the number, or NaN. */
  function Coagida(c: Celula): (r: Celula)
    ensures Coagir(r) == Coagir(c)
    ensures r.Num? || r.Vazia?
    ensures c.Num? ==> r == c
  {
    match Coagir(c)
    case Some(n) => Num(n)
    case None => Vazia
  }

  /** The columns the core reads, lower-cased as the readers leave them. */
  datatype Coluna = NuAno | SemNot | ClassiFin | SgUfNot | Classificados

  /** One case notification. The grouping keys `nu_ano` and `sem_not` are
      numbers or NaN; the coded columns keep their raw cell until a filter
      coerces them. A field whose column is absent from the table is unused. */
  datatype Linha = Linha(
    nuAno: Option<int>,
    semNot: Option<int>,
    classiFin: Celula,
    sgUfNot: Celula,
    classificados: Celula)

  /** A data frame as a value: its column set and its rows in order. */
  datatype Tabela = Tabela(colunas: set<Coluna>, linhas: seq<Linha>)

  /** A data frame object; the filters overwrite one of its columns in place. */
  class Quadro {
    var colunas: set<Coluna>
    var linhas: seq<Linha>

    constructor (colunas: set<Coluna>, linhas: seq<Linha>)
      ensures this.colunas == colunas && this.linhas == linhas
    {
      this.colunas := colunas;
      this.linhas := linhas;
    }

    function Valor(): Tabela
      reads this
    {
      Tabela(colunas, linhas)
    }
  }

  /** The rows after `quadro["classi_fin"] = pd.to_numeric(..., errors="coerce")`. */
  function CoagirClassiFin(ls: seq<Linha>): (r: seq<Linha>)
    ensures |r| == |ls|
    ensures forall i :: 0 <= i < |ls| ==> r[i] == ls[i].(classiFin := Coagida(ls[i].classiFin))
    ensures forall i :: 0 <= i < |ls| ==>
      Coagir(r[i].classiFin) == Coagir(ls[i].classiFin) && !r[i].classiFin.Texto?
  {
    seq(|ls|, i requires 0 <= i < |ls| => ls[i].(classiFin := Coagida(ls[i].classiFin)))
  }

  /** The rows after `quadro["sg_uf_not"] = pd.to_numeric(..., errors="coerce")`. */
  function CoagirSgUfNot(ls: seq<Linha>): (r: seq<Linha>)
    ensures |r| == |ls|
    ensures forall i :: 0 <= i < |ls| ==> r[i] == ls[i].(sgUfNot := Coagida(ls[i].sgUfNot))
    ensures forall i :: 0 <= i < |ls| ==>
      Coagir(r[i].sgUfNot) == Coagir(ls[i].sgUfNot) && !r[i].sgUfNot.Texto?
  {
    seq(|ls|, i requires 0 <= i < |ls| => ls[i].(sgUfNot := Coagida(ls[i].sgUfNot)))
  }

  /** Coercing a column that is already numeric changes nothing. */
  lemma CoagirClassiFinJaCoagido(ls: seq<Linha>)
    requires forall i :: 0 <= i < |ls| ==> ls[i].classiFin.Num? || ls[i].classiFin.Vazia?
    ensures CoagirClassiFin(ls) == ls
  {
  }
}
