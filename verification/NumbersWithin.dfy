/** The "within delta" checks: wrapping unsigned subtraction, one pair or two arrays. */
module NumbersWithin {
  import opened Arithmetic
  import opened Bytes

  const TWO63 := 0x8000_0000_0000_0000
  const TWO64 := 0x1_0000_0000_0000_0000

  /** UNITY_INT and UNITY_UINT with 64-bit support. */
  type Int64 = x: int | -TWO63 <= x < TWO63
  type Uint64 = x: int | 0 <= x < TWO64 witness 0

  function ToUint(x: int): Uint64 { x % TWO64 }

  function WrapSub(a: Uint64, b: Uint64): Uint64 { (a - b) % TWO64 }

  function Abs(x: int): nat { if x < 0 then -x else x }

  /** The comparison as it is coded. */
  predicate DeltaExceeded(delta: Uint64, expected: Int64, actual: Int64, signed: bool) {
    if signed then
      if actual > expected then WrapSub(ToUint(actual), ToUint(expected)) > delta
      else WrapSub(ToUint(expected), ToUint(actual)) > delta
    else
      if ToUint(actual) > ToUint(expected) then WrapSub(ToUint(actual), ToUint(expected)) > delta
      else WrapSub(ToUint(expected), ToUint(actual)) > delta
  }

  lemma ModOf(x: int, k: int, r: int)
    requires x == k * TWO64 + r && 0 <= r < TWO64
    ensures x % TWO64 == r
  {
  }

  lemma ToUintIs(x: Int64)
    ensures ToUint(x) == if x < 0 then x + TWO64 else x
  {
    ModOf(x, if x < 0 then -1 else 0, if x < 0 then x + TWO64 else x);
  }

  /** Subtraction wraps once at most, so the larger minus the smaller is the true distance. */
  lemma WrapSubExact(a: Int64, b: Int64)
    requires a >= b
    ensures WrapSub(ToUint(a), ToUint(b)) == a - b
  {
    ToUintIs(a);
    ToUintIs(b);
    var u := ToUint(a) - ToUint(b);
    ModOf(u, if u < 0 then -1 else 0, a - b);
  }

  /** For all operands: the check fails exactly when the mathematical distance exceeds delta,
      between the signed values or between the unsigned ones, by style. */
  lemma DeltaExact(delta: Uint64, expected: Int64, actual: Int64, signed: bool)
    ensures DeltaExceeded(delta, expected, actual, signed) <==>
            (if signed then Abs(actual - expected) else Abs(ToUint(actual) - ToUint(expected))) > delta
  {
    if signed {
      if actual > expected { WrapSubExact(actual, expected); } else { WrapSubExact(expected, actual); }
    } else {
      UnsignedSub(ToUint(actual), ToUint(expected));
      UnsignedSub(ToUint(expected), ToUint(actual));
    }
  }

  lemma UnsignedSub(a: Uint64, b: Uint64)
    ensures a >= b ==> WrapSub(a, b) == a - b
  {
    if a >= b { ModOf(a - b, 0, a - b); }
  }

  // ---------- Arrays ----------

  /** The element width: 1, 2 and 8 are as the style says, anything else is 4. */
  function Width(style: nat): nat {
    var length := style % 16;
    if length == 1 || length == 2 || length == 8 then length else 4
  }

  function IsSigned(style: nat): bool {
    style / 16 % 2 == 1
  }

  /** A style is a range, a multiple of 16, and an element size below that.  The ranges are
      signed (0x10, also with the mark for characters, 0x80), unsigned and hexadecimal. */
  lemma Styles(range: nat, size: nat)
    requires range == 0x10 || range == 0x90 || range == 0x20 || range == 0x40
    requires size < 16
    ensures Width(range + size) == if size == 1 || size == 2 || size == 8 then size else 4
    ensures IsSigned(range + size) <==> range == 0x10 || range == 0x90
  {
    assert (range + size) % 16 == size && (range + size) / 16 == range / 16;
  }

  /** The number an element of an array is, as a signed or an unsigned integer. */
  function TrueValue(b: seq<byte>, signed: bool): int {
    if signed && 2 * Unword(b) >= Pow256(|b|) then Unword(b) - Pow256(|b|) else Unword(b)
  }

  /** The element as loaded into a UNITY_INT: a 64-bit unsigned one is reinterpreted. */
  function Loaded(b: seq<byte>, signed: bool): int {
    var v := TrueValue(b, signed);
    if v >= TWO63 then v - TWO64 else v
  }

  /** Two's complement for signed styles, and the plain number otherwise. */
  lemma TrueValueIs(b: seq<byte>, signed: bool)
    requires b != []
    ensures var v := TrueValue(b, signed);
            if signed then -(Pow256(|b|) as int) <= 2 * v < Pow256(|b|) && (v == Unword(b) || v == Unword(b) - Pow256(|b|))
            else v == Unword(b)
  {
    UnwordBound(b);
  }

  lemma LoadedFits(b: seq<byte>, signed: bool)
    requires |b| == 1 || |b| == 2 || |b| == 4 || |b| == 8
    ensures -TWO63 <= Loaded(b, signed) < TWO63
    ensures signed ==> Loaded(b, signed) == TrueValue(b, signed)
    ensures !signed ==> ToUint(Loaded(b, signed)) == TrueValue(b, signed)
  {
    UnwordBound(b);
    assert Pow256(1) == 0x100 && Pow256(2) == 0x1_0000 && Pow256(4) == 0x1_0000_0000;
    assert Pow256(6) == 0x1_0000_0000_0000;
    assert Pow256(8) == TWO64;
    if !signed {
      ToUintIs(Loaded(b, signed));
    }
  }

  /** What the array check reports; indices count elements. */
  datatype Outcome = Within | Pointless | ExpectedNull | ActualNull | Offends(index: nat)

  datatype Pointer = Null | To(memory: seq<byte>)

  /** Where element `i` of the expected side is: a single value is compared with every element. */
  function ExpectedAt(i: nat, width: nat, toArray: bool): nat {
    if toArray then i * width else 0
  }

  /** Element `i` is further from its expected element than delta, as true numbers. */
  predicate Bad(expected: seq<byte>, actual: seq<byte>, i: nat, width: nat, signed: bool, toArray: bool,
                delta: nat) {
    var e, a := ExpectedAt(i, width, toArray), i * width;
    e + width <= |expected| && a + width <= |actual| &&
    Abs(TrueValue(actual[a..a + width], signed) - TrueValue(expected[e..e + width], signed)) > delta
  }

  /** Against an array each element has its own partner, against a single value all have that. */
  lemma BadMeans(expected: seq<byte>, actual: seq<byte>, i: nat, width: nat, signed: bool, delta: nat)
    requires i * width + width <= |actual|
    ensures i * width + width <= |expected| ==>
      (Bad(expected, actual, i, width, signed, true, delta) <==>
       Abs(TrueValue(actual[i * width..i * width + width], signed) -
           TrueValue(expected[i * width..i * width + width], signed)) > delta)
    ensures width <= |expected| ==>
      (Bad(expected, actual, i, width, signed, false, delta) <==>
       Abs(TrueValue(actual[i * width..i * width + width], signed) - TrueValue(expected[..width], signed)) > delta)
  {
    assert width <= |expected| ==> expected[..width] == expected[0..width];
  }

  lemma NextElement(i: nat, n: nat, width: nat)
    requires i < n
    ensures i * width + width <= n * width && (i + 1) * width == i * width + width
  {
    MulMono(i + 1, n, width);
  }

  lemma BadExact(expected: seq<byte>, actual: seq<byte>, i: nat, width: nat, signed: bool, toArray: bool,
                 delta: Uint64, e: nat, a: nat)
    requires width == 1 || width == 2 || width == 4 || width == 8
    requires e == ExpectedAt(i, width, toArray) && a == i * width
    requires e + width <= |expected| && a + width <= |actual|
    ensures -TWO63 <= Loaded(expected[e..e + width], signed) < TWO63
    ensures -TWO63 <= Loaded(actual[a..a + width], signed) < TWO63
    ensures DeltaExceeded(delta, Loaded(expected[e..e + width], signed), Loaded(actual[a..a + width], signed),
                          signed)
            <==> Bad(expected, actual, i, width, signed, toArray, delta)
  {
    hide Loaded, TrueValue, DeltaExceeded;
    ElementsExact(delta, expected[e..e + width], actual[a..a + width], signed);
  }

  lemma ElementsExact(delta: Uint64, expected: seq<byte>, actual: seq<byte>, signed: bool)
    requires |expected| == |actual|
    requires |actual| == 1 || |actual| == 2 || |actual| == 4 || |actual| == 8
    ensures -TWO63 <= Loaded(expected, signed) < TWO63 && -TWO63 <= Loaded(actual, signed) < TWO63
    ensures DeltaExceeded(delta, Loaded(expected, signed), Loaded(actual, signed), signed)
            <==> Abs(TrueValue(actual, signed) - TrueValue(expected, signed)) > delta
  {
    hide Loaded, TrueValue, DeltaExceeded, ToUint;
    LoadedFits(expected, signed);
    LoadedFits(actual, signed);
    DeltaExact(delta, Loaded(expected, signed), Loaded(actual, signed), signed);
  }

  /** Walks both arrays, or one array against a single value, and finds the least offending
      element. */
  method FirstOffending(delta: Uint64, expected: seq<byte>, actual: seq<byte>, count: nat, width: nat,
                        signed: bool, toArray: bool) returns (outcome: Outcome)
    requires width == 1 || width == 2 || width == 4 || width == 8
    requires count * width <= |actual| && (if toArray then count * width else width) <= |expected|
    ensures outcome.Within? || (outcome.Offends? && outcome.index < count &&
                                Bad(expected, actual, outcome.index, width, signed, toArray, delta))
    ensures forall i :: 0 <= i < (if outcome.Offends? then outcome.index else count) ==>
      !Bad(expected, actual, i, width, signed, toArray, delta)
  {
    hide Bad, DeltaExceeded, Loaded;
    var elements := count;
    var e, a := 0, 0;
    while elements > 0
      invariant 0 <= elements <= count
      invariant a == (count - elements) * width && e == ExpectedAt(count - elements, width, toArray)
      invariant forall i :: 0 <= i < count - elements ==> !Bad(expected, actual, i, width, signed, toArray, delta)
    {
      NextElement(count - elements, count, width);
      BadExact(expected, actual, count - elements, width, signed, toArray, delta, e, a);
      elements := elements - 1;
      var expectVal := Loaded(expected[e..e + width], signed);
      var actualVal := Loaded(actual[a..a + width], signed);
      if DeltaExceeded(delta, expectVal, actualVal, signed) {
        return Offends(count - elements - 1);
      }
      if toArray { e := e + width; }
      a := a + width;
    }
    return Within;
  }

  /** The memory the elements are read from is there. */
  predicate Sized(expected: Pointer, actual: Pointer, count: nat, width: nat, toArray: bool) {
    (actual.To? ==> count * width <= |actual.memory|) &&
    (expected.To? ==> (if toArray then count * width else width) <= |expected.memory|)
  }

  /** Zero elements fail, equal pointers pass unread, one null pointer fails, and otherwise
      the least offending element is reported. */
  method UnityAssertNumbersArrayWithin(delta: Uint64, expected: Pointer, actual: Pointer, samePointer: bool,
                                       count: nat, style: nat, toArray: bool)
    returns (outcome: Outcome)
    requires samePointer ==> expected == actual
    requires expected.Null? && actual.Null? ==> samePointer
    requires Sized(expected, actual, count, Width(style), toArray)
    ensures outcome.Pointless? <==> count == 0
    ensures outcome.ExpectedNull? <==> count > 0 && !samePointer && expected.Null?
    ensures outcome.ActualNull? <==> count > 0 && !samePointer && actual.Null?
    ensures count > 0 && samePointer ==> outcome.Within?
    ensures outcome.Offends? ==>
      outcome.index < count && expected.To? && actual.To? &&
      Bad(expected.memory, actual.memory, outcome.index, Width(style), IsSigned(style), toArray, delta)
    ensures (outcome.Within? && !samePointer) || outcome.Offends? ==>
      expected.To? && actual.To? &&
      forall i :: 0 <= i < (if outcome.Offends? then outcome.index else count) ==>
        !Bad(expected.memory, actual.memory, i, Width(style), IsSigned(style), toArray, delta)
  {
    if count == 0 { return Pointless; }
    if samePointer { return Within; }
    if expected.Null? { return ExpectedNull; }
    if actual.Null? { return ActualNull; }
    outcome := FirstOffending(delta, expected.memory, actual.memory, count, Width(style), IsSigned(style), toArray);
  }
}
