/** Decimal numerals: printing a natural number and reading it back. */
module Decimal {

  /** The digits of `n`, most significant first; "0" for zero. */
  function Digits(n: nat): (ds: seq<nat>)
    ensures |ds| > 0 && forall i :: 0 <= i < |ds| ==> ds[i] < 10
  {
    if n < 10 then [n] else Digits(n / 10) + [n % 10]
  }

  function Value(ds: seq<nat>): nat {
    if ds == [] then 0 else Value(ds[..|ds| - 1]) * 10 + ds[|ds| - 1]
  }

  lemma {:induction false} ValueOfDigits(n: nat)
    ensures Value(Digits(n)) == n
  {
    if n < 10 {
      assert Value([n]) == Value([]) * 10 + n;
    } else {
      ValueOfDigits(n / 10);
      assert Digits(n)[..|Digits(n)| - 1] == Digits(n / 10);
    }
  }

  function DigitChar(d: nat): char
    requires d < 10
  {
    '0' + d as char
  }

  predicate IsDigitChar(c: char) { '0' <= c <= '9' }

  function CharDigit(c: char): nat
    requires IsDigitChar(c)
  {
    (c - '0') as nat
  }

  /** `to_string`. */
  function Text(n: nat): (s: string)
    ensures |s| == |Digits(n)| && forall i :: 0 <= i < |s| ==> s[i] == DigitChar(Digits(n)[i])
    ensures forall i :: 0 <= i < |s| ==> IsDigitChar(s[i])
  {
    seq(|Digits(n)|, i requires 0 <= i < |Digits(n)| => DigitChar(Digits(n)[i]))
  }

  function ReadDigits(s: string): (ds: seq<nat>)
    requires forall i :: 0 <= i < |s| ==> IsDigitChar(s[i])
    ensures |ds| == |s| && forall i :: 0 <= i < |s| ==> ds[i] == CharDigit(s[i])
  {
    seq(|s|, i requires 0 <= i < |s| => CharDigit(s[i]))
  }

  /** Reading a printed number gives it back. */
  lemma TextReadsBack(n: nat)
    ensures Value(ReadDigits(Text(n))) == n
  {
    ValueOfDigits(n);
    assert ReadDigits(Text(n)) == Digits(n);
  }
}
