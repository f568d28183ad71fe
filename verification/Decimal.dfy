/** Decimal numerals: what a string of digits denotes, and powers of ten. */
module Decimal {
  import opened Arithmetic

  function Pow10(k: nat): (p: nat)
    ensures p >= 1
  {
    if k == 0 then 1 else 10 * Pow10(k - 1)
  }

  predicate IsDigit(c: char) {
    '0' <= c <= '9'
  }

  predicate AllDigits(s: string) {
    forall i :: 0 <= i < |s| ==> IsDigit(s[i])
  }

  function Digit(d: nat): (c: char)
    requires d < 10
    ensures IsDigit(c) && DigitValue(c) == d
  {
    ('0' as int + d) as char
  }

  function DigitValue(c: char): int {
    c as int - '0' as int
  }

  /** The number a digit string denotes, most significant digit first. */
  function Value(s: string): int {
    if s == [] then 0 else 10 * Value(s[..|s| - 1]) + DigitValue(s[|s| - 1])
  }

  /** The canonical numeral of `n`. */
  function Numeral(n: nat): string {
    if n < 10 then [Digit(n)] else Numeral(n / 10) + [Digit(n % 10)]
  }

  /** How many digits a string starts with. */
  function DigitPrefix(s: string): (n: nat)
    ensures n <= |s| && (forall i :: 0 <= i < n ==> IsDigit(s[i])) && (n < |s| ==> !IsDigit(s[n]))
  {
    if s == [] || !IsDigit(s[0]) then 0 else 1 + DigitPrefix(s[1..])
  }

  predicate NoLeadingZero(s: string) {
    |s| > 0 && (|s| > 1 ==> s[0] != '0')
  }

  lemma {:induction false} NumeralMeans(n: nat)
    ensures AllDigits(Numeral(n)) && NoLeadingZero(Numeral(n)) && Value(Numeral(n)) == n
    ensures n > 0 ==> Numeral(n)[0] != '0'
  {
    if n < 10 {
      assert Numeral(n)[..0] == [];
    } else {
      NumeralMeans(n / 10);
      assert Numeral(n)[..|Numeral(n)| - 1] == Numeral(n / 10);
    }
  }

  lemma {:induction false} ValueBounds(s: string)
    requires AllDigits(s)
    ensures 0 <= Value(s) < Pow10(|s|)
  {
    if s != [] {
      ValueBounds(s[..|s| - 1]);
    }
  }

  /** A nonempty digit string without a leading zero is the numeral of its value. */
  lemma {:induction false} NumeralUnique(s: string)
    requires AllDigits(s) && NoLeadingZero(s)
    ensures Value(s) >= 0 && s == Numeral(Value(s))
    ensures s[0] != '0' ==> Value(s) > 0
  {
    var init, last := s[..|s| - 1], s[|s| - 1];
    assert s == init + [last];
    if |s| == 1 {
      assert Value(init) == 0;
    } else {
      assert init[0] == s[0];
      NumeralUnique(init);
      LastDigitOf(Value(init), DigitValue(last));
    }
  }

  lemma LastDigitOf(n: nat, d: nat)
    requires d < 10
    ensures (10 * n + d) / 10 == n && (10 * n + d) % 10 == d
  {
  }

  lemma {:induction false} ValueConcat(a: string, b: string)
    ensures Value(a + b) == Value(a) * Pow10(|b|) + Value(b)
  {
    if b == [] {
      assert a + b == a;
    } else {
      var init := b[..|b| - 1];
      ValueConcat(a, init);
      assert (a + b)[..|a + b| - 1] == a + init;
      TensOut(Value(a), Pow10(|init|));
    }
  }

  lemma ValueSingle(c: char)
    ensures Value([c]) == DigitValue(c)
  {
    assert [c][..0] == [];
  }

  function Reversed(s: string): (r: string)
    ensures |r| == |s| && forall i :: 0 <= i < |s| ==> r[i] == s[|s| - 1 - i]
  {
    if s == [] then [] else [s[|s| - 1]] + Reversed(s[..|s| - 1])
  }

  // ---------- Powers of ten as reals ----------

  function Pow10R(e: int): (r: real)
    ensures r > 0.0
    decreases if e < 0 then -e else e
  {
    if e == 0 then 1.0
    else if e > 0 then 10.0 * Pow10R(e - 1)
    else Pow10R(e + 1) / 10.0
  }

  lemma Pow10RNext(e: int)
    ensures Pow10R(e + 1) == 10.0 * Pow10R(e)
  {
  }

  ghost predicate Adds(a: int, b: int) {
    Pow10R(a + b) == Pow10R(a) * Pow10R(b)
  }

  lemma AddsShift(a: int, b: int)
    ensures Adds(a, b + 1) <==> Adds(a, b)
  {
    Pow10RNext(a + b);
    Pow10RNext(b);
    hide Pow10R;
    TimesTen(Pow10R(a), Pow10R(b));
    assert a + (b + 1) == a + b + 1;
  }

  lemma AddsZero(a: int)
    ensures Adds(a, 0)
  {
  }

  lemma {:induction false} AddsAll(a: int, b: int)
    ensures Adds(a, b)
    decreases if b < 0 then -b else b
  {
    hide Adds, Pow10R;
    if b == 0 {
      AddsZero(a);
    } else if b > 0 {
      AddsAll(a, b - 1);
      AddsShift(a, b - 1);
    } else {
      AddsAll(a, b + 1);
      AddsShift(a, b);
    }
  }

  lemma Pow10RAdd(a: int, b: int)
    ensures Pow10R(a + b) == Pow10R(a) * Pow10R(b)
  {
    hide Pow10R;
    AddsAll(a, b);
  }

  lemma {:induction false} Pow10RNat(k: nat)
    ensures Pow10R(k) == Pow10(k) as real
  {
    if k > 0 { Pow10RNat(k - 1); }
  }

  lemma {:induction false} Pow10RMono(a: int, b: int)
    requires a <= b
    ensures Pow10R(a) <= Pow10R(b)
    decreases b - a
  {
    if a < b {
      Pow10RMono(a, b - 1);
      Pow10RNext(b - 1);
    }
  }

  lemma Pow10RLess(a: int, b: int)
    requires Pow10R(a) < Pow10R(b)
    ensures a < b
  {
    if a >= b { Pow10RMono(b, a); }
  }

  // ---------- Scaling by a power of ten ----------

  /** `x` times ten to the `e`. */
  function Times10(x: real, e: int): real {
    x * Pow10R(e)
  }

  lemma Times10Twice(x: real, a: int, b: int)
    ensures Times10(Times10(x, a), b) == Times10(x, a + b)
  {
    Pow10RAdd(a, b);
    Regroup(x, Pow10R(a), Pow10R(b));
  }

  lemma Times10Zero(x: real)
    ensures Times10(x, 0) == x
  {
  }

  lemma Times10Nat(n: nat, k: nat)
    ensures Times10(n as real, k) == (n * Pow10(k)) as real
  {
    Pow10RNat(k);
  }
}
