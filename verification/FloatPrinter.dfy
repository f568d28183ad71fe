/** The float printer as a whole: what it prints, read back, is the number it was given to
    within half a unit of its last significant digit. */
module FloatPrinter {
  import opened Decimal
  import opened FloatScaling
  import opened FloatLayout
  import opened Text

  function Abs(x: real): real {
    if x < 0.0 then -x else x
  }

  /** Zero, or within the magnitudes a double can hold. */
  predicate InRange(x: real) {
    x == 0.0 || Pow10R(-324) <= Abs(x) < Pow10R(309)
  }

  function DecodeSigned(s: string): real {
    if s != [] && s[0] == '-' then -Decode(s[1..]) else Decode(s)
  }

  lemma ScaledExponent(n: int, exponent: int, e: int, input: real, p: Precision)
    requires WellScaled(n, exponent, e, input, p) && Pow10R(-324) <= input < Pow10R(309)
    ensures -333 <= exponent <= 309 && MinScaled(p) as int <= n < MaxScaled(p) as int
  {
    Times10Mono(1.0, 1.0, MinScaled(p) as real, e);
    Pow10RLess(e, 309);
    assert Pow10R(9) == 1000000000.0;
    Pow10RAdd(9, e);
    Times10Mono(MaxScaled(p) as real, MaxScaled(p) as real, 1000000000.0, e);
    if 9 + e < -324 {
      Pow10RStrict(9 + e, -324);
    }
  }

  lemma Pow10RStrict(a: int, b: int)
    requires a < b
    ensures Pow10R(a) < Pow10R(b)
  {
    Pow10RMono(a + 1, b);
    Pow10RNext(a);
  }

  /** The input has its last significant digit at ten to the `e`, and `read` is within half
      of that. */
  predicate HalfUnit(read: real, input: real, p: Precision, e: int) {
    Times10(MinScaled(p) as real, e) <= Abs(input) <= Times10(MaxScaled(p) as real, e) &&
    Abs(read - input) <= Times10(0.5, e)
  }

  /** `read` is the input to within half a unit in the last significant digit; zero is exact. */
  ghost predicate Close(read: real, input: real, p: Precision) {
    if input == 0.0 then read == 0.0 else exists e :: HalfUnit(read, input, p, e)
  }

  lemma CloseNegated(read: real, input: real, p: Precision)
    requires Close(read, input, p)
    ensures Close(-read, -input, p)
  {
    if input != 0.0 {
      var e :| HalfUnit(read, input, p, e);
      assert HalfUnit(-read, -input, p, e);
    }
  }

  lemma CloseZero(p: Precision)
    ensures Close(0.0, 0.0, p)
  {
  }

  lemma TimesHalf(e: int)
    ensures Times10(-0.5, e) == -Times10(0.5, e) < 0.0
  {
  }

  /** Half a unit at the scaling exponent is half a unit in the last digit of the input. */
  lemma ScaledIsClose(n: int, exponent: int, e: int, input: real, p: Precision)
    requires input > 0.0 && WellScaled(n, exponent, e, input, p)
    ensures Close(Times10(n as real, exponent), input, p)
  {
    TimesHalf(e);
    hide Times10;
    assert HalfUnit(Times10(n as real, exponent), input, p, e);
  }

  lemma DecodeZero()
    ensures Decode("0") == 0.0
  {
    IndexOfNone("0", 'e');
    IndexOfNone("0", '.');
    ValueSingle('0');
  }

  predicate Whole(x: real) {
    x == x.Floor as real
  }

  lemma WholeNegated(x: real)
    requires Whole(x)
    ensures Whole(-x)
  {
    var k := x.Floor;
    assert -x == (-k) as real;
    assert (-x).Floor == -k;
  }

  /** The numbers that are printed without an exponent part. */
  predicate Plain(x: real, p: Precision) {
    Times10(1.0, -4) <= x < MaxScaled(p) as real
  }

  lemma ScaledEnds(p: Precision)
    ensures Times10(MinScaled(p) as real, -(SigDigits(p) as int + 3)) == Times10(1.0, -4)
    ensures Times10(MaxScaled(p) as real, -(SigDigits(p) as int + 4)) == Times10(1.0, -4)
  {
    ScaledPowers(p);
    var sig := SigDigits(p);
    Pow10RNat(sig);
    Pow10RNat(sig - 1);
    hide Pow10R;
    Pow10RAdd(sig, -(sig as int + 4));
    Pow10RAdd(sig - 1, -(sig as int + 3));
    assert sig + -(sig as int + 4) == -4 && sig - 1 + -(sig as int + 3) == -4;
  }

  lemma ExponentUp(x: real, a: int, b: int)
    requires x > 0.0 && a <= b
    ensures Times10(x, a) <= Times10(x, b)
  {
    Pow10RMono(a, b);
    hide Pow10R;
    MulBoundsR(Pow10R(a), Pow10R(a), Pow10R(b), x);
  }

  lemma Times10Less(x: real, y: real, e: int)
    requires x < y
    ensures Times10(x, e) < Times10(y, e)
  {
  }

  /** A scaled number is plain exactly by its exponent. */
  lemma PlainExactly(n: int, exponent: int, p: Precision)
    requires MinScaled(p) as int <= n < MaxScaled(p) as int
    ensures Plain(Times10(n as real, exponent), p) <==> -(SigDigits(p) as int + 3) <= exponent <= 0
  {
    ScaledEnds(p);
    Times10Zero(n as real);
    Times10Next(MinScaled(p) as real, 0);
    Times10Zero(10.0 * MinScaled(p) as real);
    hide Times10;
    var low := -(SigDigits(p) as int + 3);
    if exponent > 0 {
      ExponentUp(MinScaled(p) as real, 1, exponent);
      Times10Mono(MinScaled(p) as real, n as real, n as real, exponent);
    } else if exponent >= low {
      ExponentUp(n as real, exponent, 0);
      ExponentUp(MinScaled(p) as real, low, exponent);
      Times10Mono(MinScaled(p) as real, n as real, n as real, exponent);
    } else {
      Times10Less(n as real, MaxScaled(p) as real, exponent);
      ExponentUp(MaxScaled(p) as real, exponent, low - 1);
    }
  }

  method PrintPositive(number: real, p: Precision) returns (out: string)
    requires number > 0.0 && InRange(number)
    ensures Close(Decode(out), number, p)
    ensures Whole(number) && number <= MaxScaled(p) as real ==> Decode(out) == number
    ensures WellLaidOut(out) && ('e' !in out <==> Plain(Decode(out), p)) && out[0] != '-'
    ensures Decode(out) > 0.0
  {
    hide Decode, Times10, WellScaled, Close, Plain;
    var n, exponent, e := Scale(number, p);
    ScaledExponent(n as int, exponent, e, number, p);
    ScaledIsClose(n as int, exponent, e, number, p);
    WholeAtLeastOne(number);
    out := PrintScaled(n as nat, exponent, p);
    PlainExactly(n as int, exponent, p);
    Times10Positive(n as int, exponent);
  }

  lemma Times10Positive(n: int, exponent: int)
    requires n > 0
    ensures Times10(n as real, exponent) > 0.0
  {
  }

  lemma WholeAtLeastOne(x: real)
    requires x > 0.0
    ensures Whole(x) ==> x >= 1.0
  {
  }

  /** Every number in range prints as text that reads back as the number, to half a unit in
      the last of nine (or seven) significant digits; whole numbers that fit print exactly. */
  method UnityPrintFloat(input: real, p: Precision) returns (out: string)
    requires InRange(input)
    ensures (out != [] && out[0] == '-') <==> input < 0.0
    ensures Close(DecodeSigned(out), input, p)
    ensures Whole(input) && Abs(input) <= MaxScaled(p) as real ==> DecodeSigned(out) == input
    ensures input == 0.0 ==> out == "0"
    ensures input != 0.0 ==> WellLaidOut(if input < 0.0 then out[1..] else out)
    ensures input != 0.0 ==> ('e' !in out <==> Times10(1.0, -4) <= Abs(DecodeSigned(out)) < MaxScaled(p) as real)
  {
    hide Decode, Close, Times10;
    out := [];
    var number := input;
    if number < 0.0 {
      out := out + "-";
      number := -number;
    }
    if number == 0.0 {
      DecodeZero();
      CloseZero(p);
      out := out + "0";
      assert out == "0";
    } else {
      var text := PrintPositive(number, p);
      out := out + text;
      if input < 0.0 {
        assert out[1..] == text;
        CloseNegated(Decode(text), number, p);
        if Whole(input) { WholeNegated(input); }
      } else {
        assert out == text;
      }
    }
  }
}
