/** Naturals as decimal text: what str() writes, and what isdigit() and int() accept and read. */
module Decimal {

  predicate IsDigit(c: char) {
    '0' <= c <= '9'
  }

  function DigitOf(n: nat): (c: char)
    requires n < 10
    ensures IsDigit(c)
  {
    ('0' as int + n) as char
  }

  function DigitValue(c: char): nat
    requires IsDigit(c)
  {
    c as int - '0' as int
  }

  function Encode(n: nat): (text: string)
    ensures AllDigits(text)
  {
    if n < 10 then [DigitOf(n)] else Encode(n / 10) + [DigitOf(n % 10)]
  }

  /** At least one character, and every one a digit. */
  predicate AllDigits(text: string) {
    text != [] && forall i :: 0 <= i < |text| ==> IsDigit(text[i])
  }

  function Value(text: string): nat
    requires forall i :: 0 <= i < |text| ==> IsDigit(text[i])
  {
    if text == [] then 0
    else 10 * Value(text[..|text| - 1]) + DigitValue(text[|text| - 1])
  }

  lemma {:induction false} ValueOfEncode(n: nat)
    ensures Value(Encode(n)) == n
  {
    var text := Encode(n);
    if n < 10 {
      assert text[..0] == [];
    } else {
      ValueOfEncode(n / 10);
      assert text[..|text| - 1] == Encode(n / 10);
    }
  }

  /** A text of digits stands for nothing but zero exactly when all its digits are zeros. */
  lemma {:induction false} ZeroIsAllZeros(text: string)
    requires forall i :: 0 <= i < |text| ==> IsDigit(text[i])
    ensures Value(text) == 0 <==> forall i :: 0 <= i < |text| ==> text[i] == '0'
  {
    if text != [] {
      var n := |text| - 1;
      ZeroIsAllZeros(text[..n]);
      assert text == text[..n] + [text[n]];
      assert DigitValue(text[n]) == 0 <==> text[n] == '0';
    }
  }
}
