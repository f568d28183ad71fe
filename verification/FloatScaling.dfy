/** First half of the float printer: scaling a positive number to a fixed count of
    significant digits and rounding it.  Floating point is idealised as exact reals. */
module FloatScaling {
  import opened Arithmetic
  import opened Decimal

  newtype int32 = x: int | -0x8000_0000 <= x < 0x8000_0000

  datatype Precision = Single | Double

  function SigDigits(p: Precision): nat {
    if p == Double then 9 else 7
  }

  function MinScaled(p: Precision): int32 {
    if p == Double then 100000000 else 1000000
  }

  function MaxScaled(p: Precision): int32 {
    if p == Double then 1000000000 else 10000000
  }

  lemma ScaledPowers(p: Precision)
    ensures MinScaled(p) as nat == Pow10(SigDigits(p) - 1) && MaxScaled(p) as nat == Pow10(SigDigits(p))
  {
    assert Pow10(3) == 1000 && Pow10(6) == 1000000;
    assert Pow10(8) == 100000000;
    assert Pow10(9) == 1000000000;
  }

  // ---------- What a scaled number denotes ----------

  /** `x` times ten to the `e` is the input. */
  ghost predicate Denotes(x: real, e: int, input: real) {
    Times10(x, e) == input
  }

  lemma DenotesTen(x: real, e: int, input: real)
    requires Denotes(x, e, input)
    ensures Denotes(x * 10.0, e - 1, input)
  {
    Pow10RNext(e - 1);
    hide Pow10R;
    Regroup(x, 10.0, Pow10R(e - 1));
  }

  lemma DenotesTenth(x: real, e: int, input: real)
    requires Denotes(x, e, input)
    ensures Denotes(x / 10.0, e + 1, input)
  {
    Pow10RNext(e);
    hide Pow10R;
    Regroup(x / 10.0, 10.0, Pow10R(e));
  }

  lemma TenTens(e: int)
    ensures Pow10R(e + 10) == 10000000000.0 * Pow10R(e)
  {
    Pow10RNext(e); Pow10RNext(e + 1); Pow10RNext(e + 2); Pow10RNext(e + 3); Pow10RNext(e + 4);
    Pow10RNext(e + 5); Pow10RNext(e + 6); Pow10RNext(e + 7); Pow10RNext(e + 8); Pow10RNext(e + 9);
  }

  lemma DenotesTenTens(x: real, e: int, input: real)
    requires Denotes(x, e, input)
    ensures Denotes(x * 10000000000.0, e - 10, input)
    ensures Denotes(x / 10000000000.0, e + 10, input)
  {
    TenTens(e - 10);
    TenTens(e);
    hide Pow10R;
    Regroup(x, 10000000000.0, Pow10R(e - 10));
    Regroup(x / 10000000000.0, 10000000000.0, Pow10R(e));
  }

  lemma DenotesSelf(x: real)
    ensures Denotes(x, 0, x)
  {
  }

  lemma TenTimes(x: real, y: real)
    ensures x * (y * 10.0) == (x * y) * 10.0
  {
  }

  lemma OverTen(x: real, y: real)
    requires y > 0.0
    ensures x / (y * 10.0) == (x / y) / 10.0
  {
    var q := x / y;
    assert q * y == x;
    assert (q / 10.0) * (y * 10.0) == x;
  }

  /** The reciprocal shrinks by ten to the tenth, so the scaling loop ends. */
  lemma Reciprocal(number: real, inv: real)
    requires inv * number == 1.0 && 0.0 < number < 0.1
    ensures inv > 10.0
    ensures (inv / 10000000000.0) * (number * 10000000000.0) == 1.0
  {
    if inv <= 10.0 {
      MulBoundsR(inv, inv, 10.0, number);
    }
    Regroup(inv / 10000000000.0, 10000000000.0, number);
  }

  // ---------- The three magnitude branches ----------

  /** Below one: multiply up. */
  method ScaleSmall(input: real, p: Precision) returns (number: real, exponent: int)
    requires 0.0 < input < 1.0
    ensures MinScaled(p) as real <= number < MaxScaled(p) as real
    ensures Denotes(number, exponent, input)
  {
    var low := MaxScaled(p) as real / 10000000000.0;
    number, exponent := input, 0;
    ghost var inv := 1.0 / input;
    DenotesSelf(input);
    hide Denotes;
    while number < low
      invariant 0.0 < number < MaxScaled(p) as real && inv * number == 1.0
      invariant Denotes(number, exponent, input)
      decreases inv
    {
      Reciprocal(number, inv);
      DenotesTenTens(number, exponent, input);
      number, exponent := number * 10000000000.0, exponent - 10;
      inv := inv / 10000000000.0;
    }
    number, exponent := ScaleUp(number, exponent, p, input);
  }

  method ScaleUp(x: real, e: int, p: Precision, ghost input: real) returns (number: real, exponent: int)
    requires MaxScaled(p) as real / 10000000000.0 <= x < MaxScaled(p) as real && Denotes(x, e, input)
    ensures MinScaled(p) as real <= number < MaxScaled(p) as real
    ensures Denotes(number, exponent, input)
  {
    hide Denotes;
    number, exponent := x, e;
    var factor := 1.0;
    ghost var product := number;
    while number * factor < MinScaled(p) as real
      invariant product == number * factor && x <= product < MaxScaled(p) as real
      invariant Denotes(product, exponent, input)
      decreases (MinScaled(p) as real - product) * 1000.0
    {
      TenTimes(number, factor);
      DenotesTen(product, exponent, input);
      factor, exponent := factor * 10.0, exponent - 1;
      product := product * 10.0;
    }
    number := number * factor;
  }

  /** Above the largest scaled value: divide down. */
  method ScaleLarge(input: real, p: Precision) returns (number: real, exponent: int)
    requires input > MaxScaled(p) as real
    ensures MinScaled(p) as real <= number <= MaxScaled(p) as real
    ensures Denotes(number, exponent, input)
  {
    number, exponent := input, 0;
    DenotesSelf(input);
    hide Denotes;
    while number > MinScaled(p) as real * 10000000000.0
      invariant number > MinScaled(p) as real
      invariant Denotes(number, exponent, input)
      decreases number
    {
      DenotesTenTens(number, exponent, input);
      number, exponent := number / 10000000000.0, exponent + 10;
    }
    number, exponent := ScaleDown(number, exponent, p, input);
  }

  method ScaleDown(x: real, e: int, p: Precision, ghost input: real) returns (number: real, exponent: int)
    requires x > MinScaled(p) as real && Denotes(x, e, input)
    ensures MinScaled(p) as real <= number <= MaxScaled(p) as real
    ensures Denotes(number, exponent, input)
  {
    hide Denotes;
    number, exponent := x, e;
    var divisor := 1.0;
    ghost var quotient := number;
    while number / divisor > MaxScaled(p) as real
      invariant divisor > 0.0 && quotient == number / divisor && quotient > MinScaled(p) as real
      invariant Denotes(quotient, exponent, input)
      decreases quotient
    {
      OverTen(number, divisor);
      DenotesTenth(quotient, exponent, input);
      divisor, exponent := divisor * 10.0, exponent + 1;
      quotient := quotient / 10.0;
    }
    number := number / divisor;
  }

  /** In between: split off the integer part and scale it exactly. */
  method ScaleMiddle(input: real, p: Precision) returns (number: real, nInt: int32, exponent: int)
    requires 1.0 <= input <= MaxScaled(p) as real
    ensures MinScaled(p) <= nInt && 0.0 <= number && nInt as real + number <= MaxScaled(p) as real
    ensures Denotes(nInt as real + number, exponent, input)
    ensures input == input.Floor as real ==> number == 0.0
    ensures MinScaled(p) as real <= input ==> nInt as int == input.Floor && number == input - input.Floor as real
    ensures input < MinScaled(p) as real ==> nInt % 2 == 0
  {
    nInt := input.Floor as int32;
    number := input - nInt as real;
    exponent := 0;
    var factor := 1.0;
    ghost var n0, frac, k := nInt as nat, number, 0;
    MiddleStart(n0, frac, p, input);
    ScaledStart(n0, p);
    hide Middle, Scaled;
    while nInt < MinScaled(p)
      invariant 1 <= nInt && Middle(nInt as int, factor, exponent, n0, frac, k, p, input)
      invariant Scaled(nInt as int, factor, n0, k, p)
      decreases MinScaled(p) - nInt
    {
      MiddleStep(nInt as int, factor, exponent, n0, frac, k, p, input);
      ScaledStep(nInt as int, factor, n0, k, p);
      nInt := nInt * 10;
      factor := factor * 10.0;
      exponent := exponent - 1;
      k := k + 1;
    }
    MiddleEnd(nInt as int, factor, exponent, n0, frac, k, p, input);
    ScaledEnd(nInt as int, factor, n0, k, p, input);
    number := number * factor;
  }

  /** After `k` steps: both parts are scaled by ten to the `k`, with room for the fraction. */
  ghost predicate Middle(nInt: int, factor: real, exponent: int, n0: nat, frac: real, k: nat,
                         p: Precision, input: real) {
    k < SigDigits(p) && nInt == n0 * Pow10(k) && nInt >= Pow10(k) && factor == Pow10(k) as real &&
    0.0 <= frac < 1.0 && Denotes(nInt as real + frac * factor, exponent, input) &&
    (if k == 0 then nInt as real + frac <= MaxScaled(p) as real else nInt < MaxScaled(p) as int)
  }

  /** The integer part is as it was, or was too short and is now a multiple of ten. */
  ghost predicate Scaled(nInt: int, factor: real, n0: nat, k: nat, p: Precision) {
    if k == 0 then nInt == n0 && factor == 1.0 else n0 < MinScaled(p) as int && nInt % 2 == 0
  }

  lemma ScaledStart(n0: nat, p: Precision)
    ensures Scaled(n0, 1.0, n0, 0, p)
  {
  }

  lemma ScaledStep(nInt: int, factor: real, n0: nat, k: nat, p: Precision)
    requires Scaled(nInt, factor, n0, k, p) && nInt < MinScaled(p) as int
    ensures Scaled(nInt * 10, factor * 10.0, n0, k + 1, p)
  {
    hide MinScaled;
    TensAreEven(nInt);
  }

  lemma TensAreEven(x: int)
    ensures (x * 10) % 2 == 0
  {
    assert x * 10 == (x * 5) * 2;
  }

  lemma ScaledEnd(nInt: int, factor: real, n0: nat, k: nat, p: Precision, input: real)
    requires Scaled(nInt, factor, n0, k, p) && input.Floor == n0
    ensures MinScaled(p) as real <= input ==> nInt == n0 && factor == 1.0
    ensures input < MinScaled(p) as real && nInt >= MinScaled(p) as int ==> nInt % 2 == 0
  {
  }

  lemma MiddleStart(n0: nat, frac: real, p: Precision, input: real)
    requires n0 >= 1 && 0.0 <= frac < 1.0 && input == n0 as real + frac <= MaxScaled(p) as real
    ensures Middle(n0, 1.0, 0, n0, frac, 0, p, input)
  {
    DenotesSelf(input);
  }

  lemma MiddleStep(nInt: int, factor: real, exponent: int, n0: nat, frac: real, k: nat,
                   p: Precision, input: real)
    requires Middle(nInt, factor, exponent, n0, frac, k, p, input) && nInt < MinScaled(p) as int
    ensures Middle(nInt * 10, factor * 10.0, exponent - 1, n0, frac, k + 1, p, input)
  {
    ScaledPowers(p);
    PowerBelow(k, SigDigits(p) - 1);
    TensOut(n0, Pow10(k));
    hide Denotes;
    DenotesTen(nInt as real + frac * factor, exponent, input);
    TenTimes(frac, factor);
  }

  lemma MiddleEnd(nInt: int, factor: real, exponent: int, n0: nat, frac: real, k: nat,
                  p: Precision, input: real)
    requires Middle(nInt, factor, exponent, n0, frac, k, p, input)
    ensures 0.0 <= frac * factor && nInt as real + frac * factor <= MaxScaled(p) as real
    ensures Denotes(nInt as real + frac * factor, exponent, input)
  {
    if k > 0 { RoomAbove(nInt, n0, k, p); }
    FractionFits(nInt, frac, factor, MaxScaled(p) as int, Pow10(k), k == 0);
  }

  lemma RoomAbove(nInt: int, n0: nat, k: nat, p: Precision)
    requires k < SigDigits(p) && nInt == n0 * Pow10(k) && nInt < MaxScaled(p) as int
    ensures nInt + Pow10(k) <= MaxScaled(p) as int
  {
    ScaledPowers(p);
    RoomForFraction(n0, k, SigDigits(p));
  }

  lemma FractionFits(nInt: int, frac: real, factor: real, hi: int, f: int, whole: bool)
    requires 0.0 <= frac < 1.0 && factor == f as real && f >= 1
    requires if whole then f == 1 && nInt as real + frac <= hi as real else nInt + f <= hi
    ensures 0.0 <= frac * factor && nInt as real + frac * factor <= hi as real
  {
    MulBoundsR(0.0, frac, 1.0, factor);
  }

  lemma {:induction false} PowerBelow(k: nat, m: nat)
    requires Pow10(k) < Pow10(m)
    ensures k < m
  {
    if m == 0 {
    } else if k > 0 {
      PowerBelow(k - 1, m - 1);
    }
  }

  /** A multiple of ten to the `k` below ten to the `m` leaves room for one more. */
  lemma {:induction false} RoomForFraction(n: nat, k: nat, m: nat)
    requires k <= m && n * Pow10(k) < Pow10(m)
    ensures n * Pow10(k) + Pow10(k) <= Pow10(m)
  {
    if k > 0 {
      TensOut(n, Pow10(k - 1));
      RoomForFraction(n, k - 1, m - 1);
    }
  }

  // ---------- Rounding ----------

  /** `n` is an integer nearest to `x`, the even one when two are equally near. */
  ghost predicate NearestEven(n: int, x: real) {
    -0.5 <= n as real - x <= 0.5 && (n as real - x == 0.5 || n as real - x == -0.5 ==> n % 2 == 0)
  }

  method RoundToEven(number: real) returns (n: int32)
    requires 0.0 <= number <= 1000000000.0
    ensures NearestEven(n as int, number)
  {
    n := ((number + number).Floor as int32 + 1) / 2;
    ghost var twice := (number + number).Floor;
    assert n as int == (twice + 1) / 2;
    if n % 2 == 1 && n as real - number == 0.5 {
      n := n - 1;
    }
  }

  lemma NearestWithin(n: int, x: real, lo: int, hi: int)
    requires NearestEven(n, x) && lo as real <= x <= hi as real
    ensures lo <= n <= hi
  {
  }

  // ---------- Scaling as a whole ----------

  /** `n` times ten to `exponent` is within half of ten to `e` of the input, where `e` is
      the exponent before the carry; the carry itself changes no value. */
  ghost predicate WellScaled(n: int, exponent: int, e: int, input: real, p: Precision) {
    MinScaled(p) as int <= n < MaxScaled(p) as int &&
    (exponent == e || (exponent == e + 1 && n == MinScaled(p) as int)) &&
    Times10(-0.5, e) <= Times10(n as real, exponent) - input <= Times10(0.5, e) &&
    Times10(MinScaled(p) as real, e) <= input <= Times10(MaxScaled(p) as real, e)
  }

  /** The integer the scaled number was rounded to, before a carry moved a digit. */
  function BeforeCarry(n: int, exponent: int, e: int): int {
    if exponent == e then n else 10 * n
  }

  /** A whole odd number and a half, with as many digits as are kept. */
  predicate OddTie(input: real, p: Precision) {
    MinScaled(p) as real <= input <= MaxScaled(p) as real &&
    input - input.Floor as real == 0.5 && input.Floor % 2 == 1
  }

  /** One hundred million and one and a half goes to the odd neighbour below. */
  lemma OddTieExample()
    ensures OddTie(100000001.5, Double) && !NearestEven(100000001, 100000001.5)
  {
  }

  /** The number divided by ten to the `e` is what was rounded. */
  lemma DenotesUnique(x: real, e: int, input: real)
    requires Denotes(x, e, input)
    ensures Times10(input, -e) == x
  {
    hide Times10;
    Times10Twice(x, e, -e);
    Times10Zero(x);
  }

  /** Parity is tested before the integer part is added back, so an odd one spoils a tie. */
  lemma TieParity(r: int, number: real, whole: int)
    requires NearestEven(r, number)
    ensures NearestEven(whole + r, whole as real + number) <==>
            whole % 2 == 0 || !(r as real - number == 0.5 || r as real - number == -0.5)
  {
    assert (whole + r) as real - (whole as real + number) == r as real - number;
  }

  lemma HalfTie(r: int, number: real)
    requires NearestEven(r, number) && 0.0 <= number < 1.0
    ensures (r as real - number == 0.5 || r as real - number == -0.5) <==> number == 0.5
  {
  }

  /** Scaling and rounding: no 32-bit step overflows and the loops end for every input. */
  method Scale(input: real, p: Precision) returns (n: int32, exponent: int, ghost e: int)
    requires input > 0.0
    ensures WellScaled(n as int, exponent, e, input, p)
    ensures 1.0 <= input <= MaxScaled(p) as real && input == input.Floor as real ==>
      Times10(n as real, exponent) == input
    ensures NearestEven(BeforeCarry(n as int, exponent, e), Times10(input, -e)) <==> !OddTie(input, p)
  {
    hide WellScaled, Times10;
    var number: real;
    var nInt: int32 := 0;
    if input < 1.0 {
      number, exponent := ScaleSmall(input, p);
    } else if input > MaxScaled(p) as real {
      number, exponent := ScaleLarge(input, p);
    } else {
      number, nInt, exponent := ScaleMiddle(input, p);
    }
    e := exponent;
    n := RoundToEven(number);
    NearestWithin(n as int, number, MinScaled(p) as int - nInt as int, MaxScaled(p) as int - nInt as int);
    TieParity(n as int, number, nInt as int);
    if MinScaled(p) as real <= input <= MaxScaled(p) as real { HalfTie(n as int, number); }
    DenotesUnique(nInt as real + number, e, input);
    n := n + nInt;
    RoundedError(n as int, nInt as real + number, e, input, p);
    Times10Next(MinScaled(p) as real, e);
    if number == 0.0 {
      NearestWithin((n - nInt) as int, number, 0, 0);
    }
    if n >= MaxScaled(p) {
      assert n as real == 10.0 * MinScaled(p) as real;
      n := MinScaled(p);
      exponent := exponent + 1;
    }
  }

  /** Rounding errs by at most half a unit, and the carry keeps the value. */
  lemma RoundedError(n: int, x: real, e: int, input: real, p: Precision)
    requires Denotes(x, e, input) && -0.5 <= n as real - x <= 0.5
    requires MinScaled(p) as real <= x <= MaxScaled(p) as real
    requires MinScaled(p) as int <= n <= MaxScaled(p) as int
    ensures if n < MaxScaled(p) as int then WellScaled(n, e, e, input, p)
            else WellScaled(MinScaled(p) as int, e + 1, e, input, p)
  {
    hide Times10;
    Times10Minus(n as real, x, e);
    Times10Mono(-0.5, n as real - x, 0.5, e);
    Times10Mono(MinScaled(p) as real, x, MaxScaled(p) as real, e);
    Times10Next(MinScaled(p) as real, e);
  }

  lemma Times10Minus(x: real, y: real, e: int)
    ensures Times10(x - y, e) == Times10(x, e) - Times10(y, e)
  {
  }

  lemma Times10Next(x: real, e: int)
    ensures Times10(x, e + 1) == Times10(10.0 * x, e)
  {
    Pow10RNext(e);
    TenTimes(Pow10R(e), x);
  }

  lemma Times10Mono(a: real, x: real, b: real, e: int)
    requires a <= x <= b
    ensures Times10(a, e) <= Times10(x, e) <= Times10(b, e)
  {
    MulBoundsR(a, x, b, Pow10R(e));
  }

  lemma MulBoundsR(a: real, x: real, b: real, t: real)
    requires a <= x <= b && t > 0.0
    ensures a * t <= x * t <= b * t
  {
  }
}
