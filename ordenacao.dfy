/** Sorting, extremes, sums and frequencies of a series of counts: the
    order statistics that `Series.median`, `Series.quantile` and
    `Series.mode` rest on. */
module Ordenacao {

  predicate Ordenada(s: seq<int>) {
    forall i, j :: 0 <= i <= j < |s| ==> s[i] <= s[j]
  }

  predicate EstritamenteCrescente(s: seq<int>) {
    forall i, j :: 0 <= i < j < |s| ==> s[i] < s[j]
  }

  /** Inserts `x` into a sorted sequence, keeping it sorted. */
  function InserirOrdenado(x: int, s: seq<int>): (r: seq<int>)
    requires Ordenada(s)
    ensures Ordenada(r)
    ensures |r| == |s| + 1 && (r[0] == x || (s != [] && r[0] == s[0]))
  {
    if s == [] || x <= s[0] then [x] + s
    else
      var t := InserirOrdenado(x, s[1..]);
      assert s[0] <= t[0];
      [s[0]] + t
  }

  /** Insertion adds exactly `x` to the multiset of values. */
  lemma {:induction false} InserirPermuta(x: int, s: seq<int>)
    requires Ordenada(s)
    ensures multiset(InserirOrdenado(x, s)) == multiset(s) + multiset{x}
    decreases |s|
  {
    if s != [] && x > s[0] {
      InserirPermuta(x, s[1..]);
      assert s == [s[0]] + s[1..];
    }
  }

  /** The series in ascending order (what `np.sort` gives). */
  function Ordenar(xs: seq<int>): (r: seq<int>)
    ensures Ordenada(r)
    ensures multiset(r) == multiset(xs)
  {
    if xs == [] then []
    else
      assert xs == [xs[0]] + xs[1..];
      InserirPermuta(xs[0], Ordenar(xs[1..]));
      InserirOrdenado(xs[0], Ordenar(xs[1..]))
  }

  /** Every entry of the sorted series is a value of the series. */
  lemma OrdenarPertence(xs: seq<int>)
    ensures |Ordenar(xs)| == |xs|
    ensures forall i :: 0 <= i < |xs| ==> Ordenar(xs)[i] in xs
  {
    var s := Ordenar(xs);
    assert |s| == |multiset(s)| == |multiset(xs)| == |xs|;
    forall i | 0 <= i < |xs|
      ensures s[i] in xs
    {
      assert s[i] in multiset(s);
    }
  }

  function Soma(xs: seq<int>): int {
    if xs == [] then 0 else Soma(xs[..|xs| - 1]) + xs[|xs| - 1]
  }

  /** A sum can be taken from the front as well as from the back. */
  lemma {:induction false} SomaCabeca(x: int, s: seq<int>)
    ensures Soma([x] + s) == x + Soma(s)
    decreases |s|
  {
    if s != [] {
      var t := [x] + s;
      assert t[..|t| - 1] == [x] + s[..|s| - 1];
      SomaCabeca(x, s[..|s| - 1]);
    }
  }

  /** The smallest value of a non-empty series. */
  function Minimo(xs: seq<int>): (r: int)
    requires xs != []
    ensures r in xs
    ensures forall x :: x in xs ==> r <= x
  {
    if |xs| == 1 then xs[0]
    else
      var m := Minimo(xs[1..]);
      assert xs == [xs[0]] + xs[1..];
      if xs[0] <= m then xs[0] else m
  }

  /** The largest value of a non-empty series. */
  function Maximo(xs: seq<int>): (r: int)
    requires xs != []
    ensures r in xs
    ensures forall x :: x in xs ==> x <= r
  {
    if |xs| == 1 then xs[0]
    else
      var m := Maximo(xs[1..]);
      assert xs == [xs[0]] + xs[1..];
      if xs[0] >= m then xs[0] else m
  }

  /** A series whose values lie in [lo, hi] sums to between n·lo and n·hi. */
  lemma {:induction false} SomaLimitada(xs: seq<int>, lo: int, hi: int)
    requires forall i :: 0 <= i < |xs| ==> lo <= xs[i] <= hi
    ensures |xs| * lo <= Soma(xs) <= |xs| * hi
    decreases |xs|
  {
    if xs != [] {
      var n := |xs|;
      SomaLimitada(xs[..n - 1], lo, hi);
      assert n * lo == (n - 1) * lo + lo;
      assert n * hi == (n - 1) * hi + hi;
    }
  }

  /** Collapses runs of equal values in a sorted series. */
  function Distintos(s: seq<int>): (r: seq<int>)
    requires Ordenada(s)
    ensures EstritamenteCrescente(r)
    ensures forall x :: x in r <==> x in s
    ensures r != [] && s != [] ==> r[0] == s[0]
    ensures s != [] ==> r != []
  {
    if |s| <= 1 then s
    else
      var resto := Distintos(s[1..]);
      assert s == [s[0]] + s[1..];
      if s[0] == s[1] then resto else [s[0]] + resto
  }

  /** The largest number of times any entry of `ys` occurs in `xs`. */
  function MaiorFrequencia(xs: seq<int>, ys: seq<int>): (m: nat)
    ensures forall i :: 0 <= i < |ys| ==> multiset(xs)[ys[i]] <= m
    ensures ys != [] ==> exists i :: 0 <= i < |ys| && multiset(xs)[ys[i]] == m
    ensures ys == [] ==> m == 0
  {
    if ys == [] then 0
    else
      var m := MaiorFrequencia(xs, ys[1..]);
      var f := multiset(xs)[ys[0]];
      assert forall i :: 1 <= i < |ys| ==> ys[i] == ys[1..][i - 1];
      if f >= m then f
      else
        var i :| 0 <= i < |ys[1..]| && multiset(xs)[ys[1..][i]] == m;
        assert ys[i + 1] == ys[1..][i];
        m
  }
}
