/** Integer printing: signed and unsigned numbers, by repeated division. */
module NumberPrinter {
  import opened Arithmetic
  import opened Decimal

  newtype uint64 = x: int | 0 <= x < 0x1_0000_0000_0000_0000
  newtype int64 = x: int | -0x8000_0000_0000_0000 <= x < 0x8000_0000_0000_0000

  /** What a printed number denotes. */
  function SignedValue(s: string): int {
    if s != [] && s[0] == '-' then -Value(s[1..]) else Value(s)
  }

  /** The largest power of ten in reach: no multiplication leaves 64 bits. */
  method InitialDivisor(number: uint64) returns (divisor: uint64, ghost k: nat)
    ensures divisor as int == Pow10(k) && (k == 0 || divisor <= number) && number / divisor <= 9
  {
    divisor, k := 1, 0;
    while number / divisor > 9
      invariant divisor as int == Pow10(k) && (k == 0 || divisor <= number)
      decreases number as int - divisor as int
    {
      TenTimesDivisor(number as nat, divisor as nat);
      divisor := divisor * 10;
      k := k + 1;
    }
  }

  /** Every step stays in 64 bits, and the output is the numeral of the number. */
  method UnityPrintNumberUnsigned(number: uint64) returns (out: string)
    ensures out == Numeral(number as nat)
  {
    var divisor, k := InitialDivisor(number);
    out := [];
    assert Printed(out, number as nat, divisor as nat, k);
    hide Printed, DigitAt;
    while divisor > 0
      invariant Printed(out, number as nat, divisor as nat, k)
      decreases divisor
    {
      NextPrinted(out, number, divisor, k);
      out := out + [DigitAt(number, divisor)];
      divisor := divisor / 10;
      if k > 0 { k := k - 1; }
    }
    PrintedEnd(out, number as nat, k);
  }

  /** `out` holds the digits of `n` above divisor `d`, the `k`-th power of ten. */
  ghost predicate Printed(out: string, n: nat, d: nat, k: nat) {
    if d == 0 then out == Numeral(n)
    else d == Pow10(k) && (k == 0 || d <= n) && out == NumeralAbove(n / d)
  }

  function DigitAt(number: uint64, divisor: uint64): char
    requires divisor > 0
  {
    Digit((number / divisor % 10) as nat)
  }

  lemma NextPrinted(out: string, number: uint64, divisor: uint64, k: nat)
    requires divisor > 0 && Printed(out, number as nat, divisor as nat, k)
    ensures Printed(out + [DigitAt(number, divisor)], number as nat, (divisor / 10) as nat,
                    if k > 0 then k - 1 else k)
  {
    hide Printed;
    PrintedStep(out, number as nat, divisor as nat, (number / divisor) as nat, k);
  }

  lemma PrintedStep(out: string, n: nat, d: nat, q: nat, k: nat)
    requires d > 0 && q == n / d && Printed(out, n, d, k)
    ensures Printed(out + [Digit(q % 10)], n, d / 10, if k > 0 then k - 1 else k)
  {
    AppendDigit(q);
    if k > 0 {
      var d' := Pow10(k - 1);
      assert d == 10 * d' && d / 10 == d';
      NextDivisor(n, d');
      hide Numeral, NumeralAbove, Pow10;
      AboveNext(n / d', q);
    }
  }

  lemma AppendDigit(q: nat)
    ensures NumeralAbove(q) + [Digit(q % 10)] == Numeral(q)
  {
  }

  lemma AboveNext(q': nat, q: nat)
    requires q' >= 10 && q' / 10 == q
    ensures NumeralAbove(q') == Numeral(q)
  {
  }

  lemma PrintedEnd(out: string, n: nat, k: nat)
    requires Printed(out, n, 0, k)
    ensures out == Numeral(n)
  {
  }

  lemma NextDivisor(n: nat, d: nat)
    requires d >= 1 && n >= 10 * d
    ensures n / d >= 10 && (n / d) / 10 == n / (10 * d) && d <= n
  {
    QuotientTwice(n, d);
    QuotientAtLeast(n, d, 10);
  }

  /** The digits already printed when `q` is the quotient about to be printed. */
  ghost function NumeralAbove(q: nat): string {
    if q < 10 then [] else Numeral(q / 10)
  }

  lemma TenTimesDivisor(n: nat, d: nat)
    requires d >= 1 && n / d > 9
    ensures n >= 10 * d
  {
    QuotientBounds(n, d);
    MulMono(10, n / d, d);
  }

  /** Every 64-bit number prints as a canonical decimal that denotes it, the least included. */
  method UnityPrintNumber(numberToPrint: int64) returns (out: string)
    ensures SignedValue(out) == numberToPrint as int
    ensures out == if numberToPrint < 0 then "-" + Numeral(-(numberToPrint as int))
                   else Numeral(numberToPrint as int)
  {
    out := [];
    var number: uint64 := if numberToPrint < 0
                          then (numberToPrint as int + 0x1_0000_0000_0000_0000) as uint64
                          else numberToPrint as uint64;
    if numberToPrint < 0 {
      out := out + "-";
      number := (0xFFFF_FFFF_FFFF_FFFF - number) + 1;
    }
    var digits := UnityPrintNumberUnsigned(number);
    NumeralMeans(number as nat);
    out := out + digits;
    if numberToPrint < 0 {
      assert out[1..] == digits;
    } else {
      assert out == digits && IsDigit(out[0]);
    }
  }
}
