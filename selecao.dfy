/** Order-preserving selection of the elements that satisfy a mask, the
    operation behind `quadro[mask]` and `serie[mask]`. */
module Selecao {

  /** Order-preserving selection of the elements that satisfy `p`
      (`quadro[mask].copy()`). */
  function Filtro<T>(s: seq<T>, p: T -> bool): (r: seq<T>)
    ensures |r| <= |s|
    ensures forall x :: x in r ==> x in s && p(x)
    decreases |s|
  {
    if s == [] then []
    else (if p(s[0]) then [s[0]] else []) + Filtro(s[1..], p)
  }

  /** `idx` is strictly increasing and lists positions below `n`. */
  ghost predicate IndicesCrescentes(idx: seq<nat>, n: nat) {
    (forall k :: 0 <= k < |idx| ==> idx[k] < n)
    && (forall k, m :: 0 <= k < m < |idx| ==> idx[k] < idx[m])
  }

  function Desloca(idx: seq<nat>): (r: seq<nat>)
    ensures |r| == |idx|
    ensures forall k :: 0 <= k < |idx| ==> r[k] == idx[k] + 1
  {
    seq(|idx|, k requires 0 <= k < |idx| => idx[k] + 1)
  }

  /** The positions `Filtro` keeps: `Filtro(s, p)` is `s` read at these
      increasing positions, and a position is among them exactly when its
      element satisfies `p`. */
  ghost function PosicoesMantidas<T>(s: seq<T>, p: T -> bool): (idx: seq<nat>)
    ensures |idx| == |Filtro(s, p)|
    ensures IndicesCrescentes(idx, |s|)
    ensures forall k :: 0 <= k < |idx| ==> Filtro(s, p)[k] == s[idx[k]]
    ensures forall i :: 0 <= i < |s| ==> (p(s[i]) <==> i in idx)
    decreases |s|
  {
    if s == [] then []
    else
      var cauda := PosicoesMantidas(s[1..], p);
      PosicoesPasso(s, p, cauda);
      (if p(s[0]) then [0] else []) + Desloca(cauda)
  }

  /** The step of `PosicoesMantidas`: the positions found in the tail, shifted
      by one and preceded by 0 when the head is kept. */
  lemma PosicoesPasso<T>(s: seq<T>, p: T -> bool, cauda: seq<nat>)
    requires s != []
    requires |cauda| == |Filtro(s[1..], p)|
    requires IndicesCrescentes(cauda, |s| - 1)
    requires forall k :: 0 <= k < |cauda| ==> Filtro(s[1..], p)[k] == s[1..][cauda[k]]
    requires forall i :: 0 <= i < |s| - 1 ==> (p(s[1..][i]) <==> i in cauda)
    ensures var idx := (if p(s[0]) then [0] else []) + Desloca(cauda);
      && |idx| == |Filtro(s, p)|
      && IndicesCrescentes(idx, |s|)
      && (forall k :: 0 <= k < |idx| ==> Filtro(s, p)[k] == s[idx[k]])
      && (forall i :: 0 <= i < |s| ==> (p(s[i]) <==> i in idx))
  {
    var cabeca: seq<nat> := if p(s[0]) then [0] else [];
    var idx := cabeca + Desloca(cauda);
    PosicoesPassoCrescentes(|s|, cabeca, cauda);
    PosicoesPassoElementos(s, p, cabeca, cauda);
    PosicoesPassoPertence(s, p, cabeca, cauda);
  }

  lemma PosicoesPassoCrescentes(n: nat, cabeca: seq<nat>, cauda: seq<nat>)
    requires n > 0
    requires cabeca == [] || cabeca == [0]
    requires IndicesCrescentes(cauda, n - 1)
    ensures IndicesCrescentes(cabeca + Desloca(cauda), n)
  {
  }

  lemma PosicoesPassoElementos<T>(s: seq<T>, p: T -> bool, cabeca: seq<nat>, cauda: seq<nat>)
    requires s != []
    requires cabeca == if p(s[0]) then [0] else []
    requires |cauda| == |Filtro(s[1..], p)|
    requires forall k :: 0 <= k < |cauda| ==> cauda[k] < |s| - 1 && Filtro(s[1..], p)[k] == s[1..][cauda[k]]
    ensures |cabeca + Desloca(cauda)| == |Filtro(s, p)|
    ensures forall k :: 0 <= k < |cabeca + Desloca(cauda)| ==>
      (cabeca + Desloca(cauda))[k] < |s| && Filtro(s, p)[k] == s[(cabeca + Desloca(cauda))[k]]
  {
    var d := Desloca(cauda);
    var resto := Filtro(s[1..], p);
    if p(s[0]) {
      assert Filtro(s, p) == [s[0]] + resto;
      forall k | 0 <= k < |cabeca + d|
        ensures (cabeca + d)[k] < |s| && Filtro(s, p)[k] == s[(cabeca + d)[k]]
      {
        if k > 0 {
          assert (cabeca + d)[k] == d[k - 1] == cauda[k - 1] + 1;
          assert s[cauda[k - 1] + 1] == s[1..][cauda[k - 1]];
        }
      }
    } else {
      assert Filtro(s, p) == resto;
      assert cabeca + d == d;
      forall k | 0 <= k < |d|
        ensures d[k] < |s| && resto[k] == s[d[k]]
      {
        assert s[cauda[k] + 1] == s[1..][cauda[k]];
      }
    }
  }

  lemma PosicoesPassoPertence<T>(s: seq<T>, p: T -> bool, cabeca: seq<nat>, cauda: seq<nat>)
    requires s != []
    requires cabeca == if p(s[0]) then [0] else []
    requires forall i :: 0 <= i < |s| - 1 ==> (p(s[1..][i]) <==> i in cauda)
    ensures forall i :: 0 <= i < |s| ==> (p(s[i]) <==> i in cabeca + Desloca(cauda))
  {
    var resto := Desloca(cauda);
    var idx := cabeca + resto;
    forall i | 0 <= i < |s|
      ensures p(s[i]) <==> i in idx
    {
      if i == 0 {
        assert 0 !in resto;
      } else {
        assert s[1..][i - 1] == s[i];
        if i - 1 in cauda {
          var k :| 0 <= k < |cauda| && cauda[k] == i - 1;
          assert resto[k] == i;
        }
        if i in resto {
          var k :| 0 <= k < |resto| && resto[k] == i;
          assert cauda[k] == i - 1;
        }
      }
    }
  }

  /** Selecting twice with the same mask selects nothing more. */
  lemma {:induction false} FiltroIdempotente<T>(s: seq<T>, p: T -> bool)
    ensures Filtro(Filtro(s, p), p) == Filtro(s, p)
    decreases |s|
  {
    if s != [] {
      FiltroIdempotente(s[1..], p);
      if p(s[0]) {
        var f := Filtro(s, p);
        assert f == [s[0]] + Filtro(s[1..], p);
        assert f[1..] == Filtro(s[1..], p);
        assert f[0] == s[0];
        assert Filtro(f, p) == [s[0]] + Filtro(f[1..], p);
        assert Filtro(f, p) == [s[0]] + Filtro(s[1..], p);
      } else {
        assert Filtro(s, p) == Filtro(s[1..], p);
      }
    }
  }

  /** The number of elements that satisfy `p`. */
  function Conta<T>(s: seq<T>, p: T -> bool): (r: nat)
    ensures r <= |s|
  {
    |Filtro(s, p)|
  }

  /** Selecting from a concatenation selects from each part in turn. */
  lemma {:induction false} FiltroConcatena<T>(a: seq<T>, b: seq<T>, p: T -> bool)
    ensures Filtro(a + b, p) == Filtro(a, p) + Filtro(b, p)
    decreases |a|
  {
    if a == [] {
      assert a + b == b;
    } else {
      var cabeca := if p(a[0]) then [a[0]] else [];
      var ab := a + b;
      assert ab[0] == a[0] && ab[1..] == a[1..] + b;
      FiltroConcatena(a[1..], b, p);
      calc {
        Filtro(ab, p);
        cabeca + Filtro(a[1..] + b, p);
        cabeca + (Filtro(a[1..], p) + Filtro(b, p));
        (cabeca + Filtro(a[1..], p)) + Filtro(b, p);
      }
    }
  }

  /** Counting one more element adds one exactly when it satisfies `p`. */
  lemma ContaUltimo<T>(s: seq<T>, p: T -> bool)
    requires s != []
    ensures Conta(s, p) == Conta(s[..|s| - 1], p) + (if p(s[|s| - 1]) then 1 else 0)
  {
    var n := |s| - 1;
    assert s == s[..n] + [s[n]];
    FiltroConcatena(s[..n], [s[n]], p);
    assert [s[n]][1..] == [];
  }

  /** An element is selected exactly when it occurs and satisfies the mask. */
  lemma FiltroPertence<T>(s: seq<T>, p: T -> bool, x: T)
    ensures x in Filtro(s, p) <==> x in s && p(x)
  {
    var idx := PosicoesMantidas(s, p);
    if x in s && p(x) {
      var i :| 0 <= i < |s| && s[i] == x;
      var k :| 0 <= k < |idx| && idx[k] == i;
      assert Filtro(s, p)[k] == x;
    }
  }
}
