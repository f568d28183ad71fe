/** Names of day folders and part files, and the parsing that undoes them. */
module FileNames {
  import opened Decimal
  import opened LogTree
  import opened Text

  const PREFIX := "logger-"
  const SUFFIX := ".log"

  function Noughts(k: nat): string {
    if k == 0 then [] else Noughts(k - 1) + ['0']
  }

  /** `n` with at least `width` digits. */
  function Padded(n: nat, width: nat): string {
    if |Numeral(n)| >= width then Numeral(n) else Noughts(width - |Numeral(n)|) + Numeral(n)
  }

  function Dashed(year: string, month: string, day: string): string {
    PREFIX + (year + ['-'] + (month + ['-'] + day))
  }

  function FolderName(d: Date): string {
    Dashed(Padded(d.year, 4), Padded(d.month, 2), Padded(d.day, 2))
  }

  function FileName(d: Date, part: nat): string {
    FolderName(d) + "-p" + Numeral(part) + SUFFIX
  }

  // ---------- The library calls ----------

  /** The last position of `c`, or -1. */
  function LastIndexOf(s: string, c: char): (k: int)
    ensures -1 <= k < |s| && (k >= 0 ==> s[k] == c) && forall i :: k < i < |s| ==> s[i] != c
  {
    if s == [] then -1 else if s[|s| - 1] == c then |s| - 1 else LastIndexOf(s[..|s| - 1], c)
  }

  function SkipAll(s: string, c: char): string {
    if s != [] && s[0] == c then SkipAll(s[1..], c) else s
  }

  /** One call of strtok: the next token, and what is left after its separator. */
  function Token(s: string, c: char): (string, string) {
    var t := SkipAll(s, c);
    var k := IndexOf(t, c);
    (t[..k], if k == |t| then [] else t[k + 1..])
  }

  function Atoi(s: string): int {
    Value(s[..DigitPrefix(s)])
  }

  function PartNumber(name: string): int
    requires LastIndexOf(name, '-') + 2 <= |name|
  {
    Atoi(Token(name[LastIndexOf(name, '-') + 2..], '.').0)
  }

  /** The year, month and day texts of a folder name. */
  function FolderTexts(name: string): (string, string, string) {
    var (first, rest0) := Token(name, '-');
    var (year, rest1) := Token(rest0, '-');
    var (month, rest2) := Token(rest1, '-');
    (year, month, Token(rest2, '-').0)
  }

  function FolderDate(name: string): (int, int, int) {
    var (y, m, d) := FolderTexts(name);
    (Atoi(y), Atoi(m), Atoi(d))
  }

  predicate StartsWith(s: string, prefix: string) {
    |prefix| <= |s| && s[..|prefix|] == prefix
  }

  predicate EndsWith(s: string, suffix: string) {
    |suffix| <= |s| && s[|s| - |suffix|..] == suffix
  }

  // ---------- Reading back ----------

  lemma AtoiOfDigits(s: string)
    requires AllDigits(s)
    ensures Atoi(s) == Value(s)
  {
    assert DigitPrefix(s) == |s|;
    assert s[..|s|] == s;
  }

  lemma {:induction false} NoughtsMean(k: nat)
    ensures AllDigits(Noughts(k)) && Value(Noughts(k)) == 0
  {
    if k > 0 {
      NoughtsMean(k - 1);
      assert Noughts(k)[..|Noughts(k)| - 1] == Noughts(k - 1);
    }
  }

  lemma PaddedValue(k: nat, n: nat)
    ensures AllDigits(Noughts(k) + Numeral(n)) && Value(Noughts(k) + Numeral(n)) == n
  {
    NumeralMeans(n);
    NoughtsMean(k);
    ValueConcat(Noughts(k), Numeral(n));
    hide Value, Numeral, Noughts, Pow10;
  }

  lemma PaddedMeans(n: nat, width: nat)
    ensures AllDigits(Padded(n, width)) && Padded(n, width) != [] && Atoi(Padded(n, width)) == n
  {
    NumeralMeans(n);
    if |Numeral(n)| < width { PaddedValue(width - |Numeral(n)|, n); }
    AtoiOfDigits(Padded(n, width));
    hide Value, Numeral, Noughts, Atoi;
  }

  /** A token before a separator, and the rest after it. */
  lemma TokenSplits(a: string, c: char, rest: string)
    requires a != [] && c !in a
    ensures Token(a + [c] + rest, c) == (a, rest)
  {
    var s := a + [c] + rest;
    assert s[0] == a[0];
    IndexOfAfter(a, c, rest);
    assert SkipAll(s, c) == s;
    assert s[..|a|] == a && s[|a| + 1..] == rest;
  }

  lemma LastToken(a: string, c: char)
    requires a != [] && c !in a
    ensures Token(a, c) == (a, [])
  {
    IndexOfNone(a, c);
    assert SkipAll(a, c) == a;
    assert a[..|a|] == a;
  }

  /** Splitting a dated folder name gives back the three texts it was made of, so joining
      them again is the identity. */
  lemma DashedSplits(year: string, month: string, day: string)
    requires year != [] && month != [] && day != []
    requires '-' !in year && '-' !in month && '-' !in day
    ensures FolderTexts(Dashed(year, month, day)) == (year, month, day)
  {
    var rest := year + ['-'] + (month + ['-'] + day);
    assert Dashed(year, month, day) == "logger" + ['-'] + rest;
    TokenSplits("logger", '-', rest);
    TokenSplits(year, '-', month + ['-'] + day);
    TokenSplits(month, '-', day);
    LastToken(day, '-');
  }

  lemma DigitsHaveNo(s: string, c: char)
    requires AllDigits(s) && !IsDigit(c)
    ensures c !in s
  {
  }

  /** The date read from a folder name is the date it was named after. */
  lemma FolderRoundTrip(d: Date)
    ensures FolderDate(FolderName(d)) == (d.year, d.month, d.day)
    ensures var (y, m, day) := FolderTexts(FolderName(d)); Dashed(y, m, day) == FolderName(d)
  {
    PaddedMeans(d.year, 4);
    PaddedMeans(d.month, 2);
    PaddedMeans(d.day, 2);
    DigitsHaveNo(Padded(d.year, 4), '-');
    DigitsHaveNo(Padded(d.month, 2), '-');
    DigitsHaveNo(Padded(d.day, 2), '-');
    hide Padded, Atoi, Dashed;
    DashedSplits(Padded(d.year, 4), Padded(d.month, 2), Padded(d.day, 2));
  }

  lemma {:induction false} LastDash(folder: string, tail: string)
    requires '-' !in tail
    ensures LastIndexOf(folder + ['-'] + tail, '-') == |folder|
  {
    var name := folder + ['-'] + tail;
    if tail != [] {
      var init := tail[..|tail| - 1];
      assert name[..|name| - 1] == folder + ['-'] + init;
      LastDash(folder, init);
    }
  }

  lemma PartOf(folder: string, digits: string)
    requires AllDigits(digits) && digits != []
    ensures var name := folder + "-p" + digits + SUFFIX;
            LastIndexOf(name, '-') + 2 <= |name| && PartNumber(name) == Value(digits)
  {
    var name := folder + "-p" + digits + SUFFIX;
    var tail := "p" + digits + SUFFIX;
    DigitsHaveNo(digits, '-');
    DigitsHaveNo(digits, '.');
    assert name == folder + ['-'] + tail;
    LastDash(folder, tail);
    assert name[|folder| + 2..] == digits + ['.'] + "log";
    hide Token, LastIndexOf, AllDigits, Value, Atoi;
    TokenSplits(digits, '.', "log");
    AtoiOfDigits(digits);
  }

  /** Parsing a part file's name gives the part number it was formatted from. */
  lemma PartRoundTrip(d: Date, part: nat)
    ensures LastIndexOf(FileName(d, part), '-') + 2 <= |FileName(d, part)|
    ensures PartNumber(FileName(d, part)) == part
  {
    NumeralMeans(part);
    PartOf(FolderName(d), Numeral(part));
  }

  /** Different days get different folders, and different parts of a day different files. */
  lemma NamesDistinct(a: Date, b: Date, m: nat, n: nat)
    ensures FolderName(a) == FolderName(b) ==> a == b
    ensures FileName(a, m) == FileName(a, n) ==> m == n
  {
    FolderRoundTrip(a);
    FolderRoundTrip(b);
    PartRoundTrip(a, m);
    PartRoundTrip(a, n);
  }

  /** The names the logger makes are the ones its scans recognise. */
  lemma NamesRecognised(d: Date, part: nat)
    ensures StartsWith(FolderName(d), PREFIX) && StartsWith(FileName(d, part), PREFIX)
    ensures EndsWith(FileName(d, part), SUFFIX)
  {
    var body := FolderName(d) + "-p" + Numeral(part);
    assert FileName(d, part) == body + SUFFIX;
    assert FolderName(d)[..|PREFIX|] == PREFIX;
    assert FileName(d, part)[..|PREFIX|] == FolderName(d)[..|PREFIX|];
  }

  lemma SomeNumerals()
    ensures Numeral(2024) == "2024" && Numeral(12) == "12" && Numeral(1) == "1" && Numeral(5) == "5"
  {
    assert Numeral(20) == "20";
    assert Numeral(202) == Numeral(20) + "2";
    assert Numeral(2024) == Numeral(202) + "4";
  }

  lemma SomePadded()
    ensures Padded(2024, 4) == "2024" && Padded(1, 2) == "01" && Padded(5, 2) == "05"
  {
    SomeNumerals();
    assert Noughts(1) == "0";
    hide Numeral, Noughts;
  }

  /** The format itself, by example. */
  lemma NameExample()
    ensures FileName(Date(2024, 1, 5), 12) == "logger-2024-01-05-p12.log"
  {
    SomeNumerals();
    SomePadded();
    hide Numeral, Padded;
  }
}
