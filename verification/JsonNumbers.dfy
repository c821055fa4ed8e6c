/** Which numbers of RFC 8259 the decoder takes, and what it makes of them. */
module JsonNumbers {
  import opened Options
  import opened Bytes
  import opened JsonValue
  import opened JsonText
  import JsonSyntax

  datatype Power = Power(capital: bool, sign: Text, digits: Text)

  /** The parts of a number; a fraction without digits is none. */
  datatype Spelled = Spelled(negative: bool, whole: Text, fraction: Text, power: Option<Power>)

  /** RFC 8259 section 6. */
  predicate IsNumber(n: Spelled) {
    && n.whole != [] && AllDigits(n.whole) && (n.whole[0] == '0' ==> |n.whole| == 1)
    && AllDigits(n.fraction) && IsPower(n.power)
  }

  function PowerText(power: Option<Power>): Text {
    match power case None => [] case Some(p) => (if p.capital then "E" else "e") + (p.sign + p.digits)
  }

  function NumberText(n: Spelled): Text {
    var digits := n.whole + (FractionText(n.fraction) + PowerText(n.power));
    if n.negative then "-" + digits else digits
  }

  function Tenfold(power: Option<Power>): int
    requires power.Some? ==> AllDigits(power.value.digits)
  {
    match power
    case None => 0
    case Some(p) => if p.sign == "-" then 0 - Numeral(p.digits) else Numeral(p.digits)
  }

  /** Its digits and power of ten, the sign left out. */
  function Magnitude(n: Spelled): Scaled
    requires IsNumber(n)
  {
    Scaled(Numeral(n.whole + n.fraction), Tenfold(n.power) - |n.fraction|)
  }

  predicate IsInteger(n: Spelled) { n.fraction == [] && n.power.None? }

  function Integer(n: Spelled): int
    requires IsNumber(n)
  {
    if n.negative then 0 - Numeral(n.whole) else Numeral(n.whole)
  }

  /** Reading more digits. */
  function Extended(read: Scaled, digits: Text, pointed: bool): Scaled
    requires AllDigits(digits)
    decreases |digits|
  {
    if digits == [] then read else Extended(Grown(read, digits[0], pointed), digits[1..], pointed)
  }

  lemma {:induction false} MantissaDigits(digits: Text, s: Text, read: Scaled, any: bool, pointed: bool)
    requires AllDigits(digits)
    ensures Mantissa(digits + s, read, any, pointed) ==
            Mantissa(s, Extended(read, digits, pointed), any || digits != [], pointed)
    decreases |digits|
  {
    if digits == [] {
      assert digits + s == s;
    } else {
      assert (digits + s)[1..] == digits[1..] + s;
      MantissaDigits(digits[1..], s, Grown(read, digits[0], pointed), true, pointed);
    }
  }

  lemma {:induction false} ExtendedNumeral(before: Text, digits: Text, exponent: int, pointed: bool)
    requires AllDigits(before) && AllDigits(digits)
    ensures Extended(Scaled(Numeral(before), exponent), digits, pointed) ==
            Scaled(Numeral(before + digits), if pointed then exponent - |digits| else exponent)
    decreases |digits|
  {
    if digits == [] {
      assert before + digits == before;
    } else {
      var more := before + [digits[0]];
      assert more[..|before|] == before;
      assert more + digits[1..] == before + digits;
      ExtendedNumeral(more, digits[1..], if pointed then exponent - 1 else exponent, pointed);
    }
  }

  predicate IsPower(power: Option<Power>) {
    match power
    case None => true
    case Some(p) => p.sign in ["", "+", "-"] && p.digits != [] && AllDigits(p.digits)
  }

  lemma ExponentReads(p: Power)
    requires IsPower(Some(p))
    ensures Exponent(p.sign + p.digits) == Some(Tenfold(Some(p)))
  {
    var s := p.sign + p.digits;
    assert IsDigit(p.digits[0]);
    if p.sign == "" {
      assert s == p.digits;
    } else {
      assert s[1..] == p.digits && s[0] == p.sign[0];
    }
  }

  lemma MantissaPower(power: Option<Power>, read: Scaled, pointed: bool)
    requires IsPower(power)
    ensures Mantissa(PowerText(power), read, true, pointed) == Some(Scaled(read.digits, read.exponent + Tenfold(power)))
  {
    match power
    case None =>
    case Some(p) =>
      ExponentReads(p);
      assert PowerText(power)[1..] == p.sign + p.digits;
  }

  function FractionText(fraction: Text): Text { if fraction == [] then [] else "." + fraction }

  lemma PointThenDigits(digits: Text, s: Text, read: Scaled)
    requires AllDigits(digits)
    ensures Mantissa("." + (digits + s), read, true, false) == Mantissa(s, Extended(read, digits, true), true, true)
  {
    assert ("." + (digits + s))[1..] == digits + s;
    MantissaDigits(digits, s, read, true, true);
  }

  lemma MantissaPoint(fraction: Text, tail: Text, read: Scaled)
    requires AllDigits(fraction)
    ensures Mantissa(FractionText(fraction) + tail, read, true, false) ==
            Mantissa(tail, Extended(read, fraction, true), true, fraction != [])
  {
    if fraction == [] {
      assert FractionText(fraction) + tail == tail;
    } else {
      assert FractionText(fraction) + tail == "." + (fraction + tail);
      PointThenDigits(fraction, tail, read);
    }
  }

  lemma MantissaFraction(fraction: Text, power: Option<Power>, read: Scaled, all: Scaled)
    requires AllDigits(fraction) && IsPower(power) && all == Extended(read, fraction, true)
    ensures Mantissa(FractionText(fraction) + PowerText(power), read, true, false) ==
            Some(Scaled(all.digits, all.exponent + Tenfold(power)))
  {
    MantissaPoint(fraction, PowerText(power), read);
    MantissaPower(power, all, fraction != []);
  }

  lemma SignReads(n: Spelled)
    requires IsNumber(n)
    ensures AfterSign(NumberText(n)) == n.whole + (FractionText(n.fraction) + PowerText(n.power))
  {
    assert IsDigit(n.whole[0]);
  }

  /** What the digits come to, the point left out and put back. */
  function DigitsOf(n: Spelled, read: Scaled): Scaled
    requires IsNumber(n)
  {
    Extended(Extended(read, n.whole, false), n.fraction, true)
  }

  lemma DigitsRead(n: Spelled, read: Scaled)
    requires IsNumber(n) && read == Scaled(0, 0)
    ensures DigitsOf(n, read) == Scaled(Numeral(n.whole + n.fraction), -|n.fraction|)
  {
    ExtendedNumeral([], n.whole, 0, false);
    assert [] + n.whole == n.whole && Numeral([]) == 0;
    ExtendedNumeral(n.whole, n.fraction, 0, true);
  }

  lemma MantissaReads(n: Spelled, read: Scaled)
    requires IsNumber(n)
    ensures Mantissa(n.whole + (FractionText(n.fraction) + PowerText(n.power)), read, false, false) ==
            Some(Scaled(DigitsOf(n, read).digits, DigitsOf(n, read).exponent + Tenfold(n.power)))
  {
    var rest := FractionText(n.fraction) + PowerText(n.power);
    MantissaDigits(n.whole, rest, read, false, false);
    MantissaFraction(n.fraction, n.power, Extended(read, n.whole, false), DigitsOf(n, read));
  }

  lemma MagnitudeOf(n: Spelled, digits: Scaled)
    requires IsNumber(n) && digits == Scaled(Numeral(n.whole + n.fraction), -|n.fraction|)
    ensures Scaled(digits.digits, digits.exponent + Tenfold(n.power)) == Magnitude(n)
  {
  }

  /** A number of RFC 8259 reads as its magnitude. */
  lemma NumberReads(n: Spelled)
    requires IsNumber(n)
    ensures ReadDecimal(NumberText(n)) == Some(Magnitude(n))
  {
    var read := Scaled(0, 0);
    SignReads(n);
    MantissaReads(n, read);
    DigitsRead(n, read);
    MagnitudeOf(n, DigitsOf(n, read));
  }

  lemma NumberCharacters(n: Spelled)
    requires IsNumber(n)
    ensures NumberText(n) != [] && forall i :: 0 <= i < |NumberText(n)| ==> InNumber(NumberText(n)[i])
  {
    var fraction := FractionText(n.fraction);
    assert forall i :: 0 <= i < |fraction| ==> InNumber(fraction[i]);
    var power := PowerText(n.power);
    assert forall i :: 0 <= i < |power| ==> InNumber(power[i]);
  }

  lemma IntegerLiteral(n: Spelled)
    requires IsNumber(n)
    ensures IsIntLiteral(NumberText(n)) <==> IsInteger(n)
    ensures IsInteger(n) ==> IntOf(NumberText(n)) == Integer(n)
  {
    var rest := FractionText(n.fraction) + PowerText(n.power);
    var digits := n.whole + rest;
    assert IsDigit(n.whole[0]) && digits[0] == n.whole[0];
    if n.negative {
      assert NumberText(n)[1..] == digits;
    }
    if IsInteger(n) {
      assert digits == n.whole;
    } else {
      assert rest != [] && !IsDigit(rest[0]);
      assert digits[|n.whole|] == rest[0];
    }
  }

  /** Integers of 64 bits are kept exactly. Every other number is a double, and
      is refused exactly when it is too large for one. */
  lemma NumbersTaken(n: Spelled)
    requires IsNumber(n)
    ensures NumberOf(NumberText(n)) ==
            if IsInteger(n) && IsInt64(Integer(n)) then Some(Int(Integer(n)))
            else if FitsDouble(Magnitude(n)) then Some(Double(NumberText(n)))
            else None
  {
    IntegerLiteral(n);
    NumberReads(n);
  }

  /** Such a number by itself is a document, unless it is too large. */
  lemma NumberDocument(n: Spelled)
    requires IsNumber(n)
    ensures Decode(NumberText(n)) ==
            match NumberOf(NumberText(n)) case None => Err(InvalidNumber) case Some(value) => Ok(value, [])
  {
    var s := NumberText(n);
    NumberCharacters(n);
    JsonSyntax.NumberRunIs(s, []);
    assert s + [] == s && s[..|s|] == s;
    JsonSyntax.ValueIsNumber(s);
  }
}
