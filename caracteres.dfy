/** Character classes and case mapping used by the record filters and by the
    municipality-list parser. Strings are sequences of Unicode code points,
    as Python's `str` is. */
module Caracteres {

  /** `c.isdigit()` restricted to the ASCII digits '0'..'9'. */
  predicate EhDigito(c: char) {
    '0' <= c <= '9'
  }

  /** `s.isdigit()`: non-empty and every character a digit. */
  predicate SoDigitos(s: string) {
    |s| > 0 && forall i :: 0 <= i < |s| ==> EhDigito(s[i])
  }

  /** `c.isspace()`: exactly the code points Python treats as white space
      (bidirectional class WS, B or S, or general category Zs). */
  predicate EhEspaco(c: char) {
    var k := c as int;
    (0x09 <= k <= 0x0D) || (0x1C <= k <= 0x20) || k == 0x85 || k == 0xA0
    || k == 0x1680 || (0x2000 <= k <= 0x200A) || k == 0x2028 || k == 0x2029
    || k == 0x202F || k == 0x205F || k == 0x3000
  }

  /** `c.isalpha()` for the letters of the Basic Latin and Latin-1 blocks. */
  predicate EhLetra(c: char) {
    var k := c as int;
    ('A' <= c <= 'Z') || ('a' <= c <= 'z')
    || k == 0xAA || k == 0xB5 || k == 0xBA
    || (0xC0 <= k <= 0xD6) || (0xD8 <= k <= 0xF6) || (0xF8 <= k <= 0xFF)
  }

  /** ASCII upper case of one character; every other character is unchanged. */
  function Maiuscula(c: char): (r: char)
    ensures 'a' <= c <= 'z' ==> 'A' <= r <= 'Z' && r as int == c as int - 32
    ensures !('a' <= c <= 'z') ==> r == c
  {
    if 'a' <= c <= 'z' then (c as int - 32) as char else c
  }

  /** ASCII lower case of one character; every other character is unchanged. */
  function Minuscula(c: char): (r: char)
    ensures 'A' <= c <= 'Z' ==> 'a' <= r <= 'z' && r as int == c as int + 32
    ensures !('A' <= c <= 'Z') ==> r == c
  {
    if 'A' <= c <= 'Z' then (c as int + 32) as char else c
  }

  /** `s.upper()` on ASCII letters: no lower-case ASCII letter is left. */
  function Maiusculas(s: string): (r: string)
    ensures |r| == |s|
    ensures forall i :: 0 <= i < |s| ==> r[i] == Maiuscula(s[i])
    ensures forall i :: 0 <= i < |r| ==> !('a' <= r[i] <= 'z')
  {
    seq(|s|, i requires 0 <= i < |s| => Maiuscula(s[i]))
  }

  /** `s.lower()` on ASCII letters: no upper-case ASCII letter is left. */
  function Minusculas(s: string): (r: string)
    ensures |r| == |s|
    ensures forall i :: 0 <= i < |s| ==> r[i] == Minuscula(s[i])
    ensures forall i :: 0 <= i < |r| ==> !('A' <= r[i] <= 'Z')
  {
    seq(|s|, i requires 0 <= i < |s| => Minuscula(s[i]))
  }

  /** Upper-casing twice is upper-casing once. */
  lemma MaiusculasIdempotente(s: string)
    ensures Maiusculas(Maiusculas(s)) == Maiusculas(s)
  {
    assert forall i :: 0 <= i < |s| ==> Maiuscula(Maiuscula(s[i])) == Maiuscula(s[i]);
  }

  /** Changing the case first does not change what the other case mapping
      gives: a string and its upper case fold to the same lower case, and
      the other way round. */
  lemma CaixaComum(s: string)
    ensures Minusculas(Maiusculas(s)) == Minusculas(s)
    ensures Maiusculas(Minusculas(s)) == Maiusculas(s)
  {
    assert forall i :: 0 <= i < |s| ==> Minuscula(Maiuscula(s[i])) == Minuscula(s[i]);
    assert forall i :: 0 <= i < |s| ==> Maiuscula(Minuscula(s[i])) == Maiuscula(s[i]);
  }
}
