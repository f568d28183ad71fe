/** Second half of the float printer: laying out the scaled digits, with a point, trailing
    zeros dropped, and an exponent part when the number is out of the plain range.  `Decode`
    is an independent reading of the printed text. */
module FloatLayout {
  import opened Arithmetic
  import opened Decimal
  import opened FloatScaling
  import opened Text

  const BUFFER := 16

  // ---------- Reading a printed number ----------

  /** Digits with an optional point. */
  function Mantissa(s: string): real {
    var k := IndexOf(s, '.');
    if k == |s| then Value(s) as real
    else Times10(Value(s[..k] + s[k + 1..]) as real, k + 1 - |s|)
  }

  /** A signed exponent, after the letter. */
  function ExponentPart(s: string): int {
    if s != [] && s[0] == '-' then -Value(s[1..])
    else if s != [] then Value(s[1..]) else 0
  }

  function Decode(s: string): real {
    var k := IndexOf(s, 'e');
    if k == |s| then Mantissa(s) else Times10(Mantissa(s[..k]), ExponentPart(s[k + 1..]))
  }

  // ---------- The text the printer lays out ----------

  /** `digits` with a point before the last `decimals` of them. */
  function Pointed(digits: string, decimals: nat): string
    requires decimals <= |digits|
  {
    if decimals == 0 then digits
    else digits[..|digits| - decimals] + "." + digits[|digits| - decimals..]
  }

  lemma DigitsNotIn(digits: string, c: char)
    requires AllDigits(digits) && !IsDigit(c)
    ensures c !in digits
  {
  }

  lemma PointedHasNoE(digits: string, decimals: nat)
    requires AllDigits(digits) && decimals < |digits|
    ensures 'e' !in Pointed(digits, decimals)
  {
    DigitsNotIn(digits, 'e');
  }

  lemma MantissaSplit(a: string, b: string)
    requires '.' !in a
    ensures Mantissa(a + ['.'] + b) == Times10(Value(a + b) as real, -|b|)
  {
    var s := a + ['.'] + b;
    IndexOfAfter(a, '.', b);
    assert s[..|a|] == a && s[|a| + 1..] == b;
  }

  lemma PointedSplits(digits: string, decimals: nat)
    requires AllDigits(digits) && 0 < decimals < |digits|
    ensures var k := |digits| - decimals;
            Pointed(digits, decimals) == digits[..k] + ['.'] + digits[k..] && '.' !in digits[..k]
  {
    DigitsNotIn(digits[..|digits| - decimals], '.');
  }

  lemma PointedMeans(digits: string, decimals: nat)
    requires AllDigits(digits) && decimals < |digits|
    ensures Mantissa(Pointed(digits, decimals)) == Times10(Value(digits) as real, -(decimals as int))
  {
    if decimals == 0 {
      DigitsNotIn(digits, '.');
      IndexOfNone(digits, '.');
      Times10Zero(Value(digits) as real);
    } else {
      PointedSplits(digits, decimals);
      hide Mantissa, Times10, AllDigits, Pointed, Value;
      var k := |digits| - decimals;
      MantissaSplit(digits[..k], digits[k..]);
      assert digits[..k] + digits[k..] == digits;
    }
  }

  lemma DecodePlain(digits: string, decimals: nat)
    requires AllDigits(digits) && decimals < |digits|
    ensures Decode(Pointed(digits, decimals)) == Times10(Value(digits) as real, -(decimals as int))
  {
    hide Mantissa, Times10;
    PointedHasNoE(digits, decimals);
    PointedMeans(digits, decimals);
    var s := Pointed(digits, decimals);
    IndexOfNone(s, 'e');
  }

  function SignedPower(exponent: int, power: string): string {
    (if exponent < 0 then "-" else "+") + power
  }

  predicate PowerOf(exponent: int, power: string) {
    AllDigits(power) && Value(power) == (if exponent < 0 then -exponent else exponent)
  }

  lemma ExponentReads(exponent: int, power: string)
    requires PowerOf(exponent, power)
    ensures ExponentPart(SignedPower(exponent, power)) == exponent
  {
    assert SignedPower(exponent, power)[1..] == power;
  }

  lemma DecodeSplit(m: string, tail: string)
    requires 'e' !in m
    ensures Decode(m + "e" + tail) == Times10(Mantissa(m), ExponentPart(tail))
    ensures IndexOf(m + "e" + tail, 'e') == |m|
  {
    hide Mantissa, ExponentPart, Times10;
    var out := m + ['e'] + tail;
    assert m + "e" + tail == out;
    IndexOfAfter(m, 'e', tail);
    assert out[..|m|] == m && out[|m| + 1..] == tail;
  }

  lemma DecodeExponent(digits: string, decimals: nat, exponent: int, power: string)
    requires AllDigits(digits) && decimals < |digits| && PowerOf(exponent, power)
    ensures var out := Pointed(digits, decimals) + "e" + SignedPower(exponent, power);
            Decode(out) == Times10(Times10(Value(digits) as real, -(decimals as int)), exponent) &&
            IndexOf(out, 'e') == |Pointed(digits, decimals)|
  {
    hide Decode, Mantissa, ExponentPart, Times10;
    PointedHasNoE(digits, decimals);
    PointedMeans(digits, decimals);
    ExponentReads(exponent, power);
    DecodeSplit(Pointed(digits, decimals), SignedPower(exponent, power));
  }

  // ---------- Filling the buffer ----------

  /** The buffer holds the low `digits` digits of `value`, lowest first, and `n` is the rest. */
  ghost predicate Filled(low: string, n: nat, value: nat) {
    AllDigits(low) && Value(Reversed(low)) + n * Pow10(|low|) == value &&
    (|low| > 0 ==> low[0] == Digit(value % 10))
  }

  lemma FillStep(low: string, n: nat, value: nat)
    requires Filled(low, n, value)
    ensures Filled(low + [Digit(n % 10)], n / 10, value)
  {
    var c := Digit(n % 10);
    assert (low + [c])[..|low|] == low;
    assert Reversed(low + [c]) == [c] + Reversed(low);
    ValueConcat([c], Reversed(low));
    ValueSingle(c);
    SplitDigit(n, Pow10(|low|));
    if low == [] {
      assert Pow10(0) == 1;
    }
  }

  lemma SplitDigit(n: nat, p: nat)
    ensures n * p == (n % 10) * p + (n / 10) * (10 * p)
  {
    assert n == n % 10 + 10 * (n / 10);
    TensOut(n / 10, p);
    Distribute(n % 10, 10 * (n / 10), p);
  }

  lemma Distribute(a: int, b: int, p: int)
    ensures (a + b) * p == a * p + b * p
  {
  }

  lemma ReversedDigits(s: string)
    requires AllDigits(s)
    ensures AllDigits(Reversed(s))
  {
  }

  /** Digits still to come mean the buffer is not full: `value` has at most `bound` digits. */
  lemma FillRoom(low: string, n: nat, value: nat, bound: nat)
    requires Filled(low, n, value) && value < Pow10(bound) && n != 0
    ensures |low| < bound
  {
    ReversedDigits(low);
    ValueBounds(Reversed(low));
    MulMono(1, n, Pow10(|low|));
    PowerBelow(|low|, bound);
  }

  /** Writes `value` in reverse, padded with zeros to at least `least` digits.  The buffer
      is never overrun. */
  method FillDigits(buf: array<char>, value: nat, least: nat, ghost bound: nat) returns (digits: nat)
    requires buf.Length == BUFFER && least <= bound <= BUFFER && value < Pow10(bound)
    modifies buf
    ensures least <= digits <= bound && Filled(buf[..digits], 0, value)
    ensures digits > least ==> value >= Pow10(digits - 1)
  {
    digits := 0;
    var n: nat := value;
    FillStart(value);
    assert buf[..0] == [];
    hide Filled, Pow10;
    while n != 0 || digits < least
      invariant digits <= bound && Filled(buf[..digits], n, value)
      invariant digits > least ==> value >= Pow10(digits - 1)
      decreases n + (if digits < least then least - digits else 0)
    {
      ghost var low := buf[..digits];
      if n != 0 {
        FillRoom(low, n, value, bound);
        LastDigit(low, n, value);
      }
      FillStep(low, n, value);
      buf[digits] := Digit(n % 10);
      assert buf[..digits + 1] == low + [Digit(n % 10)];
      n := n / 10;
      digits := digits + 1;
    }
  }

  lemma FillStart(value: nat)
    ensures Filled([], value, value)
  {
    assert Reversed([]) == [];
  }

  lemma LastDigit(low: string, n: nat, value: nat)
    requires Filled(low, n, value) && n > 0
    ensures value >= Pow10(|low|)
  {
    ReversedDigits(low);
    ValueBounds(Reversed(low));
    MulMono(1, n, Pow10(|low|));
  }

  /** The first `i` digits of a text with a point before the last `decimals`. */
  ghost function Shown(all: string, decimals: nat, i: nat): string
    requires decimals < |all| && i <= |all|
  {
    var k := |all| - decimals;
    if i <= k then all[..i] else all[..k] + "." + all[k..i]
  }

  lemma ShownNext(all: string, decimals: nat, i: nat)
    requires decimals < |all| && i < |all|
    ensures Shown(all, decimals, i + 1) ==
            Shown(all, decimals, i) + (if |all| - i == decimals then "." else []) + [all[i]]
  {
    var k := |all| - decimals;
    if i < k {
      assert all[..i + 1] == all[..i] + [all[i]];
    } else {
      assert all[k..i + 1] == all[k..i] + [all[i]];
    }
  }

  lemma ShownAll(all: string, decimals: nat)
    requires decimals < |all|
    ensures Shown(all, decimals, |all|) == Pointed(all, decimals)
  {
    assert all[..|all|] == all;
  }

  /** Prints the buffer backwards, with a point before the last `decimals` digits. */
  method PrintBuffer(buf: array<char>, count: nat, decimals: nat) returns (out: string)
    requires decimals < count <= buf.Length
    ensures out == Pointed(Reversed(buf[..count]), decimals)
  {
    out := [];
    var digits := count;
    ghost var all := Reversed(buf[..count]);
    while digits > 0
      invariant 0 <= digits <= count && out == Shown(all, decimals, count - digits)
    {
      ShownNext(all, decimals, count - digits);
      hide Shown;
      if digits == decimals {
        out := out + ".";
      }
      digits := digits - 1;
      out := out + [buf[digits]];
    }
    ShownAll(all, decimals);
  }

  // ---------- The layout ----------

  /** Zeros dropped after the point, with what they were worth moved into the count. */
  method TruncateZeros(n0: nat, decimals0: nat) returns (n: nat, decimals: nat)
    requires n0 > 0
    ensures decimals <= decimals0 && n > 0 && n * Pow10(decimals0 - decimals) == n0 && n <= n0
    ensures decimals > 0 ==> n % 10 != 0
  {
    n, decimals := n0, decimals0;
    while decimals > 0 && n % 10 == 0
      invariant decimals <= decimals0 && 0 < n <= n0 && n * Pow10(decimals0 - decimals) == n0
    {
      TensOut(n / 10, Pow10(decimals0 - decimals));
      n := n / 10;
      decimals := decimals - 1;
    }
  }

  function Decimals(p: Precision, exponent: int): nat {
    if exponent <= 0 && exponent >= -(SigDigits(p) as int + 3) then -exponent else SigDigits(p) - 1
  }

  /** Digits with at most one point: no spare zero in front, no zero last after a point. */
  predicate MantissaForm(m: string) {
    m != [] && (forall i :: 0 <= i < |m| ==> IsDigit(m[i]) || m[i] == '.') &&
    (forall i, j :: 0 <= i < j < |m| ==> !(m[i] == '.' && m[j] == '.')) &&
    IsDigit(m[0]) && (m[0] == '0' ==> |m| > 1 && m[1] == '.') &&
    ('.' in m ==> IsDigit(m[|m| - 1]) && m[|m| - 1] != '0')
  }

  /** A sign and at least two digits, more only when needed. */
  predicate ExponentForm(t: string) {
    |t| >= 3 && (t[0] == '+' || t[0] == '-') && AllDigits(t[1..]) && (|t| > 3 ==> t[1] != '0')
  }

  /** With an exponent part there is exactly one digit before the point, and that one not zero. */
  predicate WellLaidOut(out: string) {
    var k := IndexOf(out, 'e');
    MantissaForm(out[..k]) &&
    (k < |out| ==> out[0] != '0' && (k == 1 || out[1] == '.') && ExponentForm(out[k + 1..]))
  }

  lemma StripValue(n: nat, drop: nat, n0: nat, decimals: nat, decimals0: nat, exponent: int)
    requires n * Pow10(drop) == n0 && decimals0 == decimals + drop
    ensures Times10(Times10(n as real, -(decimals as int)), exponent + decimals0) == Times10(n0 as real, exponent)
  {
    Times10Nat(n, drop);
    hide Times10;
    Times10Twice(n as real, -(decimals as int), exponent + decimals0);
    Times10Twice(n as real, drop, exponent);
    assert -(decimals as int) + (exponent + decimals0) == drop + exponent;
  }

  /** Stripped of zeros, a number with all its significant digits keeps one before the point. */
  lemma OneDigitBeforePoint(n: nat, drop: nat, n0: nat, p: Precision, decimals: nat)
    requires n * Pow10(drop) == n0 && decimals + drop == SigDigits(p) - 1
    requires MinScaled(p) as int <= n0 < MaxScaled(p) as int
    ensures Pow10(decimals) <= n < Pow10(decimals + 1)
  {
    ScaledPowers(p);
    PowerSplit(decimals, drop);
    PowerSplit(decimals + 1, drop);
    var d := Pow10(drop);
    if n < Pow10(decimals) { MulLess(n, Pow10(decimals), d); }
    if n >= Pow10(decimals + 1) { MulMono(Pow10(decimals + 1), n, d); }
  }

  lemma MulLess(x: int, y: int, k: int)
    requires x < y && k >= 1
    ensures x * k < y * k
  {
    MulMono(x + 1, y, k);
    Distribute(x, 1, k);
  }

  lemma {:induction false} PowerSplit(a: nat, b: nat)
    ensures Pow10(a + b) == Pow10(a) * Pow10(b)
  {
    if b > 0 {
      PowerSplit(a, b - 1);
      TensOut(Pow10(a), Pow10(b - 1));
    }
  }

  /** `text` holds the digits of `n`, enough of them for the decimals, none spare. */
  ghost predicate DigitsOf(text: string, n: nat, decimals: nat) {
    AllDigits(text) && Value(text) == n && decimals < |text| && text[|text| - 1] == Digit(n % 10) &&
    (|text| > decimals + 1 ==> n >= Pow10(|text| - 1))
  }

  method PrintDigits(buf: array<char>, n: nat, decimals: nat, ghost bound: nat)
    returns (out: string, ghost text: string)
    requires buf.Length == BUFFER && decimals < bound <= BUFFER && n < Pow10(bound)
    modifies buf
    ensures decimals < |text| && out == Pointed(text, decimals) && DigitsOf(text, n, decimals) && |text| <= bound
  {
    var digits := FillDigits(buf, n, decimals + 1, bound);
    text := Reversed(buf[..digits]);
    ReversedDigits(buf[..digits]);
    assert text[|text| - 1] == buf[0];
    out := PrintBuffer(buf, digits, decimals);
  }

  method PrintExponent(buf: array<char>, exponent: int) returns (out: string, ghost power: string)
    requires buf.Length == BUFFER && -10000 < exponent < 10000
    modifies buf
    ensures out == "e" + SignedPower(exponent, power) && PowerOf(exponent, power)
    ensures ExponentForm(SignedPower(exponent, power))
  {
    var magnitude := if exponent < 0 then -exponent else exponent;
    assert Pow10(2) == 100 && Pow10(4) == 10000;
    var digits := FillDigits(buf, magnitude, 2, 4);
    power := Reversed(buf[..digits]);
    ReversedDigits(buf[..digits]);
    if digits > 2 { LeadingDigit(power); }
    assert SignedPower(exponent, power)[1..] == power;
    var tail := PrintBuffer(buf, digits, 0);
    out := "e" + ((if exponent < 0 then "-" else "+") + tail);
  }

  /** Prints `n` times ten to `exponent`: what is read back is exactly that. */
  method PrintScaled(n0: nat, exponent0: int, p: Precision) returns (out: string)
    requires MinScaled(p) as int <= n0 < MaxScaled(p) as int && -1000 <= exponent0 <= 1000
    ensures Decode(out) == Times10(n0 as real, exponent0) && WellLaidOut(out)
    ensures 'e' !in out <==> -(SigDigits(p) as int + 3) <= exponent0 <= 0
  {
    var buf := new char[BUFFER](_ => '\0');
    var decimals0 := Decimals(p, exponent0);
    var exponent := exponent0 + decimals0;
    var n, decimals := TruncateZeros(n0, decimals0);
    ghost var bound := DigitBound(n, n0, decimals, decimals0, exponent0, p);
    ghost var text, power;
    out, text := PrintDigits(buf, n, decimals, bound);
    if exponent == 0 {
      PlainOutcome(text, n, decimals, n0, decimals0, exponent0);
      PointedHasNoE(text, decimals);
    } else {
      var tail;
      tail, power := PrintExponent(buf, exponent);
      out := out + tail;
      assert out == Pointed(text, decimals) + "e" + SignedPower(exponent, power);
      assert out[|Pointed(text, decimals)|] == 'e';
      ExponentOutcome(text, n, decimals, n0, decimals0, exponent0, power);
    }
  }

  /** The buffer is large enough, and exactly filled when an exponent part follows. */
  lemma DigitBound(n: nat, n0: nat, decimals: nat, decimals0: nat, exponent: int, p: Precision)
    returns (bound: nat)
    requires MinScaled(p) as int <= n0 < MaxScaled(p) as int && 0 < n <= n0 && decimals <= decimals0
    requires decimals0 == Decimals(p, exponent) && n * Pow10(decimals0 - decimals) == n0
    ensures decimals < bound <= 13 && n < Pow10(bound)
    ensures exponent + decimals0 != 0 ==> bound == decimals + 1 && n >= Pow10(decimals)
  {
    if exponent + decimals0 != 0 {
      OneDigitBeforePoint(n, decimals0 - decimals, n0, p, decimals);
      bound := decimals + 1;
    } else {
      ScaledPowers(p);
      PowerMono(SigDigits(p), 13);
      bound := 13;
    }
  }

  lemma PlainOutcome(text: string, n: nat, decimals: nat, n0: nat, decimals0: nat, exponent: int)
    requires DigitsOf(text, n, decimals) && n > 0 && (decimals > 0 ==> n % 10 != 0)
    requires decimals <= decimals0 && n * Pow10(decimals0 - decimals) == n0 && exponent + decimals0 == 0
    ensures var out := Pointed(text, decimals);
            Decode(out) == Times10(n0 as real, exponent) && WellLaidOut(out)
  {
    hide Decode, Mantissa, Times10, WellLaidOut;
    DecodePlain(text, decimals);
    StripValue(n, decimals0 - decimals, n0, decimals, decimals0, exponent);
    Times10Zero(Times10(n as real, -(decimals as int)));
    LaidOutPlain(text, decimals, n);
  }

  lemma ExponentOutcome(text: string, n: nat, decimals: nat, n0: nat, decimals0: nat, exponent: int,
                        power: string)
    requires DigitsOf(text, n, decimals) && |text| == decimals + 1 && n >= Pow10(decimals)
    requires decimals > 0 ==> n % 10 != 0
    requires decimals <= decimals0 && n * Pow10(decimals0 - decimals) == n0
    requires PowerOf(exponent + decimals0, power) && ExponentForm(SignedPower(exponent + decimals0, power))
    ensures var out := Pointed(text, decimals) + "e" + SignedPower(exponent + decimals0, power);
            Decode(out) == Times10(n0 as real, exponent) && WellLaidOut(out)
  {
    hide Decode, Mantissa, Times10, WellLaidOut, ExponentForm;
    var out := Pointed(text, decimals) + "e" + SignedPower(exponent + decimals0, power);
    DecodeExponent(text, decimals, exponent + decimals0, power);
    StripValue(n, decimals0 - decimals, n0, decimals, decimals0, exponent);
    LeadingDigit(text);
    LaidOutExponent(text, decimals, n, SignedPower(exponent + decimals0, power));
  }

  lemma {:induction false} PowerMono(a: nat, b: nat)
    requires a <= b
    ensures Pow10(a) <= Pow10(b)
  {
    if a < b { PowerMono(a, b - 1); }
  }

  /** The top digit of a numeral with as many digits as its size asks for is not zero. */
  lemma LeadingDigit(text: string)
    requires AllDigits(text) && |text| > 0 && Value(text) >= Pow10(|text| - 1)
    ensures text[0] != '0'
  {
    assert text == [text[0]] + text[1..];
    ValueConcat([text[0]], text[1..]);
    ValueSingle(text[0]);
    ValueBounds(text[1..]);
  }

  lemma PointedForm(text: string, decimals: nat, n: nat)
    requires AllDigits(text) && decimals < |text| && text[|text| - 1] == Digit(n % 10)
    requires decimals > 0 ==> n % 10 != 0
    requires text[0] != '0' || |text| == decimals + 1
    requires text[0] == '0' ==> decimals > 0
    ensures MantissaForm(Pointed(text, decimals)) && Pointed(text, decimals)[0] == text[0]
  {
    var m := Pointed(text, decimals);
    var k := |text| - decimals;
    if decimals == 0 {
      DigitsNotIn(text, '.');
    } else {
      assert forall i :: 0 <= i < |m| ==> m[i] == if i < k then text[i] else if i == k then '.' else text[i - 1];
      assert m[|m| - 1] == text[|text| - 1];
    }
  }

  lemma LaidOutPlain(text: string, decimals: nat, n: nat)
    requires DigitsOf(text, n, decimals) && n > 0 && (decimals > 0 ==> n % 10 != 0)
    ensures WellLaidOut(Pointed(text, decimals))
  {
    PointedHasNoE(text, decimals);
    IndexOfNone(Pointed(text, decimals), 'e');
    if |text| > decimals + 1 {
      LeadingDigit(text);
    } else if decimals == 0 {
      ValueSingle(text[0]);
      assert text == [text[0]];
    }
    hide Pointed, MantissaForm;
    PointedForm(text, decimals, n);
    assert Pointed(text, decimals)[..|Pointed(text, decimals)|] == Pointed(text, decimals);
  }

  lemma LaidOutExponent(text: string, decimals: nat, n: nat, tail: string)
    requires AllDigits(text) && |text| == decimals + 1 && text[|text| - 1] == Digit(n % 10)
    requires decimals > 0 ==> n % 10 != 0
    requires text[0] != '0' && ExponentForm(tail)
    requires IndexOf(Pointed(text, decimals) + "e" + tail, 'e') == |Pointed(text, decimals)|
    ensures WellLaidOut(Pointed(text, decimals) + "e" + tail)
  {
    var m := Pointed(text, decimals);
    var out := m + "e" + tail;
    PointedForm(text, decimals, n);
    assert decimals > 0 ==> m[1] == '.';
    hide Pointed, MantissaForm, ExponentForm;
    assert out[..|m|] == m && out[|m| + 1..] == tail;
    assert out[0] == m[0];
    assert decimals > 0 ==> out[1] == m[1];
  }
}
