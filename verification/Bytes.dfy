/** Go strings as byte sequences, and numerals in them. */
module Bytes {

  type Byte = c: char | c as int < 256

  type Text = seq<Byte>

  predicate IsDigit(c: Byte) { '0' <= c <= '9' }

  function DigitOf(n: nat): Byte
    requires n < 10
  {
    (n + '0' as int) as char
  }

  function DigitValue(c: Byte): (n: nat)
    requires IsDigit(c)
    ensures n < 10 && DigitOf(n) == c
  {
    c as int - '0' as int
  }

  function HexDigit(n: nat): Byte
    requires n < 16
  {
    if n < 10 then DigitOf(n) else (n - 10 + 'A' as int) as char
  }

  predicate IsHex(c: Byte) {
    IsDigit(c) || 'A' <= c <= 'F' || 'a' <= c <= 'f'
  }

  function HexValue(c: Byte): (n: nat)
    requires IsHex(c)
    ensures n < 16
  {
    if IsDigit(c) then c as int - '0' as int
    else if c <= 'F' then c as int - 'A' as int + 10
    else c as int - 'a' as int + 10
  }

  /** The decimal numeral of `n`, without leading zeros. */
  function Decimal(n: nat): Text {
    if n < 10 then [DigitOf(n)] else Decimal(n / 10) + [DigitOf(n % 10)]
  }

  predicate AllDigits(s: Text) { forall i :: 0 <= i < |s| ==> IsDigit(s[i]) }

  function Numeral(s: Text): nat
    requires AllDigits(s)
  {
    if s == [] then 0 else 10 * Numeral(s[..|s| - 1]) + DigitValue(s[|s| - 1])
  }

  lemma {:induction false} DecimalIsNumeral(n: nat)
    ensures AllDigits(Decimal(n)) && Decimal(n) != [] && Numeral(Decimal(n)) == n
  {
    if n >= 10 {
      DecimalIsNumeral(n / 10);
      assert Decimal(n)[..|Decimal(n)| - 1] == Decimal(n / 10);
    } else {
      assert Decimal(n)[..0] == [];
    }
  }
}
