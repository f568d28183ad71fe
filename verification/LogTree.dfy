/** The folder tree kept under the logger folder, and the scan for the oldest day.

    A day folder is named by a date and holds numbered part files with their sizes
    in bytes.  A directory listing enumerates a set in an order nobody promises, so
    every statement below is about all orders. */
module LogTree {
  import opened Arithmetic

  datatype Date = Date(year: nat, month: nat, day: nat)

  type Parts = map<nat, nat>
  type Tree = map<Date, Parts>

  // ---------- Dates and listings ----------

  predicate Before(a: Date, b: Date) {
    a.year < b.year ||
    (a.year == b.year && (a.month < b.month || (a.month == b.month && a.day < b.day)))
  }

  predicate NotAfter(a: Date, b: Date) {
    a == b || Before(a, b)
  }

  /** Every field of `a` is at most the same field of `b`. */
  predicate FieldwiseLeq(a: Date, b: Date) {
    a.year <= b.year && a.month <= b.month && a.day <= b.day
  }

  /** The scan starts from 3000-12-31, so it can only recognise dates up to those fields. */
  const SCAN_START := Date(3000, 12, 31)

  predicate Scannable(dates: set<Date>) {
    forall d :: d in dates ==> FieldwiseLeq(d, SCAN_START)
  }

  ghost predicate FieldwiseLeast(m: Date, dates: set<Date>) {
    m in dates && forall d :: d in dates ==> FieldwiseLeq(m, d)
  }

  ghost predicate Oldest(m: Date, dates: set<Date>) {
    m in dates && forall d :: d in dates ==> NotAfter(m, d)
  }

  ghost predicate Newest(m: Date, dates: set<Date>) {
    m in dates && forall d :: d in dates ==> NotAfter(d, m)
  }

  /** Any two dates are comparable in all three fields at once. */
  ghost predicate Comparable(dates: set<Date>) {
    forall a, b :: a in dates && b in dates ==> FieldwiseLeq(a, b) || FieldwiseLeq(b, a)
  }

  ghost predicate IsListing<T(!new)>(listing: seq<T>, s: set<T>) {
    (forall x :: x in listing <==> x in s) &&
    (forall i, j :: 0 <= i < j < |listing| ==> listing[i] != listing[j])
  }

  /** Reads a directory: all entries, each once, in any order. */
  method ReadDir<T(==,!new)>(s: set<T>) returns (listing: seq<T>)
    ensures IsListing(listing, s)
    ensures |listing| == |s|
  {
    listing := [];
    var rest := s;
    while rest != {}
      invariant rest <= s && IsListing(listing, s - rest) && |listing| + |rest| == |s|
      decreases rest
    {
      var x :| x in rest;
      listing := listing + [x];
      rest := rest - {x};
    }
    assert s - rest == s;
  }

  // ---------- The scan for the oldest day ----------

  function ScanStep(acc: Date, d: Date): Date {
    if d.year <= acc.year then
      if d.month <= acc.month then
        if d.day <= acc.day then d else Date(d.year, d.month, acc.day)
      else Date(d.year, acc.month, acc.day)
    else acc
  }

  function ScanFrom(acc: Date, listing: seq<Date>): Date
    decreases listing
  {
    if listing == [] then acc else ScanFrom(ScanStep(acc, listing[0]), listing[1..])
  }

  function Scan(listing: seq<Date>): Date {
    ScanFrom(SCAN_START, listing)
  }

  lemma {:induction false} ScanFromAppend(acc: Date, listing: seq<Date>, d: Date)
    ensures ScanFrom(acc, listing + [d]) == ScanStep(ScanFrom(acc, listing), d)
    decreases listing
  {
    if listing == [] {
      assert [d][1..] == [];
    } else {
      assert (listing + [d])[1..] == listing[1..] + [d];
      ScanFromAppend(ScanStep(acc, listing[0]), listing[1..], d);
    }
  }

  /** Fields only go down, and the year never stays above a listed year. */
  lemma {:induction false} ScanFromBounds(acc: Date, listing: seq<Date>)
    ensures FieldwiseLeq(ScanFrom(acc, listing), acc)
    ensures forall d :: d in listing ==> ScanFrom(acc, listing).year <= d.year
    decreases listing
  {
    if listing != [] {
      ScanFromBounds(ScanStep(acc, listing[0]), listing[1..]);
    }
  }

  /** When no listed year is above the final one, every month and day field is met. */
  lemma {:induction false} ScanFromOneYear(acc: Date, listing: seq<Date>, y: nat)
    requires y <= acc.year && forall d :: d in listing ==> d.year == y
    ensures forall d :: d in listing ==> ScanFrom(acc, listing).month <= d.month
    decreases listing
  {
    if listing != [] {
      ScanFromOneYear(ScanStep(acc, listing[0]), listing[1..], y);
      ScanFromBounds(ScanStep(acc, listing[0]), listing[1..]);
    }
  }

  lemma {:induction false} ScanFromOneMonth(acc: Date, listing: seq<Date>, y: nat, m: nat)
    requires y <= acc.year && m <= acc.month
    requires forall d :: d in listing ==> d.year == y && d.month == m
    ensures forall d :: d in listing ==> ScanFrom(acc, listing).day <= d.day
    decreases listing
  {
    if listing != [] {
      ScanFromOneMonth(ScanStep(acc, listing[0]), listing[1..], y, m);
      ScanFromBounds(ScanStep(acc, listing[0]), listing[1..]);
    }
  }

  lemma {:induction false} ScanFromLeast(acc: Date, listing: seq<Date>, m: Date)
    requires FieldwiseLeq(m, acc) && forall d :: d in listing ==> FieldwiseLeq(m, d)
    ensures FieldwiseLeq(m, ScanFrom(acc, listing))
    ensures m in listing || m == acc ==> ScanFrom(acc, listing) == m
    decreases listing
  {
    if listing != [] {
      assert FieldwiseLeq(m, listing[0]) by { assert listing[0] in listing; }
      ScanFromLeast(ScanStep(acc, listing[0]), listing[1..], m);
    }
  }

  // ---------- What the scan gives for one order ----------

  /** Entry `i` is no later in its year than 3000 and any entry before it. */
  predicate YearLeads(listing: seq<Date>, i: nat)
    requires i < |listing|
  {
    listing[i].year <= 3000 && forall j :: 0 <= j < i ==> listing[i].year <= listing[j].year
  }

  /** Its month is compared too: it is no later than 12 and than those compared before. */
  predicate MonthLeads(listing: seq<Date>, i: nat)
    requires i < |listing|
  {
    YearLeads(listing, i) && listing[i].month <= 12 &&
    forall j :: 0 <= j < i && YearLeads(listing, j) ==> listing[i].month <= listing[j].month
  }

  /** Its day is compared too: it is no later than 31 and than those compared before. */
  predicate DayLeads(listing: seq<Date>, i: nat)
    requires i < |listing|
  {
    MonthLeads(listing, i) && listing[i].day <= 31 &&
    forall j :: 0 <= j < i && MonthLeads(listing, j) ==> listing[i].day <= listing[j].day
  }

  /** The year is the least of 3000 and all years; the month the least of 12 and those of the
      entries that lead in the year; the day the least of 31 and those that lead in the month. */
  ghost predicate ScanFields(listing: seq<Date>, r: Date) {
    (r.year <= 3000 && (forall i :: 0 <= i < |listing| ==> r.year <= listing[i].year) &&
     (r.year == 3000 || exists i :: 0 <= i < |listing| && YearLeads(listing, i) && r.year == listing[i].year)) &&
    (r.month <= 12 && (forall i :: 0 <= i < |listing| && YearLeads(listing, i) ==> r.month <= listing[i].month) &&
     (r.month == 12 || exists i :: 0 <= i < |listing| && MonthLeads(listing, i) && r.month == listing[i].month)) &&
    (r.day <= 31 && (forall i :: 0 <= i < |listing| && MonthLeads(listing, i) ==> r.day <= listing[i].day) &&
     (r.day == 31 || exists i :: 0 <= i < |listing| && DayLeads(listing, i) && r.day == listing[i].day))
  }

  lemma LeadsPrefix(listing: seq<Date>, d: Date, i: nat)
    requires i < |listing|
    ensures YearLeads(listing + [d], i) <==> YearLeads(listing, i)
    ensures MonthLeads(listing + [d], i) <==> MonthLeads(listing, i)
    ensures DayLeads(listing + [d], i) <==> DayLeads(listing, i)
  {
    assert forall j :: 0 <= j <= i ==> (listing + [d])[j] == listing[j];
    assert forall j :: 0 <= j <= i ==> (YearLeads(listing + [d], j) <==> YearLeads(listing, j));
    assert forall j :: 0 <= j <= i ==> (MonthLeads(listing + [d], j) <==> MonthLeads(listing, j));
  }

  /** The last entry leads exactly when it is no later than what the scan has so far. */
  lemma LastLeads(listing: seq<Date>, d: Date, r: Date)
    requires ScanFields(listing, r)
    ensures var n := |listing|;
            (YearLeads(listing + [d], n) <==> d.year <= r.year) &&
            (MonthLeads(listing + [d], n) <==> d.year <= r.year && d.month <= r.month) &&
            (DayLeads(listing + [d], n) <==> d.year <= r.year && d.month <= r.month && d.day <= r.day)
  {
    forall i | 0 <= i < |listing|
      ensures (listing + [d])[i] == listing[i]
      ensures YearLeads(listing + [d], i) <==> YearLeads(listing, i)
      ensures MonthLeads(listing + [d], i) <==> MonthLeads(listing, i)
    {
      LeadsPrefix(listing, d, i);
    }
  }

  lemma FieldsYear(listing: seq<Date>, d: Date, r: Date, r': Date)
    requires ScanFields(listing, r) && r'.year == if d.year <= r.year then d.year else r.year
    ensures r'.year <= 3000 && forall i :: 0 <= i < |listing + [d]| ==> r'.year <= (listing + [d])[i].year
    ensures r'.year == 3000 ||
      exists i :: 0 <= i < |listing + [d]| && YearLeads(listing + [d], i) && r'.year == (listing + [d])[i].year
  {
    LastLeads(listing, d, r);
    var all := listing + [d];
    assert all[|listing|] == d;
    if d.year > r.year && r.year != 3000 {
      var i :| 0 <= i < |listing| && YearLeads(listing, i) && r.year == listing[i].year;
      LeadsPrefix(listing, d, i);
      assert all[i] == listing[i];
    }
  }

  lemma FieldsMonth(listing: seq<Date>, d: Date, r: Date, r': Date)
    requires ScanFields(listing, r)
    requires r'.month == if d.year <= r.year && d.month <= r.month then d.month else r.month
    ensures r'.month <= 12
    ensures forall i :: 0 <= i < |listing + [d]| && YearLeads(listing + [d], i) ==> r'.month <= (listing + [d])[i].month
    ensures r'.month == 12 ||
      exists i :: 0 <= i < |listing + [d]| && MonthLeads(listing + [d], i) && r'.month == (listing + [d])[i].month
  {
    LastLeads(listing, d, r);
    var all := listing + [d];
    assert all[|listing|] == d;
    hide YearLeads, MonthLeads;
    forall i | 0 <= i < |all| && YearLeads(all, i) ensures r'.month <= all[i].month {
      if i < |listing| {
        LeadsPrefix(listing, d, i);
        assert all[i] == listing[i];
      }
    }
    if !(d.year <= r.year && d.month <= r.month) && r.month != 12 {
      var i :| 0 <= i < |listing| && MonthLeads(listing, i) && r.month == listing[i].month;
      LeadsPrefix(listing, d, i);
      assert all[i] == listing[i];
    }
  }

  lemma FieldsDay(listing: seq<Date>, d: Date, r: Date, r': Date)
    requires ScanFields(listing, r)
    requires r'.day == if d.year <= r.year && d.month <= r.month && d.day <= r.day then d.day else r.day
    ensures r'.day <= 31
    ensures forall i :: 0 <= i < |listing + [d]| && MonthLeads(listing + [d], i) ==> r'.day <= (listing + [d])[i].day
    ensures r'.day == 31 ||
      exists i :: 0 <= i < |listing + [d]| && DayLeads(listing + [d], i) && r'.day == (listing + [d])[i].day
  {
    LastLeads(listing, d, r);
    var all := listing + [d];
    assert all[|listing|] == d;
    hide YearLeads, MonthLeads, DayLeads;
    forall i | 0 <= i < |all| && MonthLeads(all, i) ensures r'.day <= all[i].day {
      if i < |listing| {
        LeadsPrefix(listing, d, i);
        assert all[i] == listing[i];
      }
    }
    if !(d.year <= r.year && d.month <= r.month && d.day <= r.day) && r.day != 31 {
      var i :| 0 <= i < |listing| && DayLeads(listing, i) && r.day == listing[i].day;
      LeadsPrefix(listing, d, i);
      assert all[i] == listing[i];
    }
  }

  lemma FieldsStep(listing: seq<Date>, d: Date, r: Date)
    requires ScanFields(listing, r)
    ensures ScanFields(listing + [d], ScanStep(r, d))
  {
    var r' := ScanStep(r, d);
    FieldsYear(listing, d, r, r');
    FieldsMonth(listing, d, r, r');
    FieldsDay(listing, d, r, r');
    hide YearLeads, MonthLeads, DayLeads;
  }

  /** What the scan gives, for any listing at all. */
  lemma {:induction false} ScanGives(listing: seq<Date>)
    ensures ScanFields(listing, Scan(listing))
    decreases |listing|
  {
    if listing != [] {
      var init, d := listing[..|listing| - 1], listing[|listing| - 1];
      assert listing == init + [d];
      ScanGives(init);
      FieldsStep(init, d, Scan(init));
      ScanFromAppend(SCAN_START, init, d);
    }
  }

  /** And nothing else has those fields. */
  lemma ScanFieldsUnique(listing: seq<Date>, r: Date, r': Date)
    requires ScanFields(listing, r) && ScanFields(listing, r')
    ensures r == r'
  {
  }

  /** A folder minimal in year, month and day at once is found whatever the listing order. */
  lemma ScanFindsLeast(listing: seq<Date>, dates: set<Date>, m: Date)
    requires Scannable(dates) && IsListing(listing, dates) && FieldwiseLeast(m, dates)
    ensures Scan(listing) == m && Oldest(m, dates)
  {
    ScanFromLeast(SCAN_START, listing, m);
  }

  /** The scan never names the newest folder, unless it is the only one. */
  lemma ScanSparesNewest(listing: seq<Date>, dates: set<Date>, today: Date)
    requires IsListing(listing, dates) && Newest(today, dates) && Scan(listing) == today
    ensures dates == {today}
  {
    ScanFromBounds(SCAN_START, listing);
    ScanFromOneYear(SCAN_START, listing, today.year);
    ScanFromOneMonth(SCAN_START, listing, today.year, today.month);
  }

  /** Lists `first`, and then everything else. */
  lemma ListingStartingWith(dates: set<Date>, first: seq<Date>) returns (listing: seq<Date>)
    requires IsListing(first, set d | d in first) && forall d :: d in first ==> d in dates
    ensures IsListing(listing, dates) && first <= listing
  {
    listing := first;
    var rest := dates - set d | d in first;
    while rest != {}
      invariant rest <= dates && first <= listing && IsListing(listing, dates - rest)
      decreases rest
    {
      var x :| x in rest;
      listing := listing + [x];
      rest := rest - {x};
    }
    assert dates - rest == dates;
  }

  /** Where the scan goes wrong for some order: a later date with a smaller month or day. */
  lemma ScanMissesOldest(dates: set<Date>, m: Date, d: Date) returns (listing: seq<Date>)
    requires Scannable(dates) && Oldest(m, dates) && d in dates && !FieldwiseLeq(m, d)
    ensures IsListing(listing, dates) && Scan(listing) != m
  {
    listing := ListingStartingWith(dates, [d]);
    assert listing[0] == d && ScanStep(SCAN_START, d) == d;
    ScanFromBounds(d, listing[1..]);
  }

  /** Exactly when the scan can be trusted: it returns the oldest day for every listing
      order if and only if the oldest day is least in each field separately. */
  lemma ScanExact(dates: set<Date>, m: Date)
    requires Scannable(dates) && Oldest(m, dates)
    ensures (forall listing :: IsListing(listing, dates) ==> Scan(listing) == m)
       <==> FieldwiseLeast(m, dates)
  {
    if FieldwiseLeast(m, dates) {
      forall listing | IsListing(listing, dates) ensures Scan(listing) == m {
        ScanFindsLeast(listing, dates, m);
      }
    } else {
      var d :| d in dates && !FieldwiseLeq(m, d);
      var listing := ScanMissesOldest(dates, m, d);
    }
  }

  lemma FieldwiseKeepsBefore(a: Date, b: Date, m: Date)
    requires FieldwiseLeq(a, b) && Before(b, m)
    ensures Before(a, m)
  {
  }

  /** Such a later date listed first and the oldest day second mix into an earlier date,
      and the fields only go down from there: the folder that is named does not exist. */
  lemma ScanNamesAbsent(dates: set<Date>, m: Date, d: Date) returns (listing: seq<Date>)
    requires Scannable(dates) && Oldest(m, dates) && d in dates && !FieldwiseLeq(m, d)
    ensures IsListing(listing, dates) && Scan(listing) !in dates
  {
    listing := ListingStartingWith(dates, [d, m]);
    assert listing[0] == d && listing[1] == m;
    var mixed := ScanStep(ScanStep(SCAN_START, d), m);
    assert Before(mixed, m);
    assert listing[1..] != [] && listing[1..][0] == m;
    assert Scan(listing) == ScanFrom(ScanStep(SCAN_START, d), listing[1..]);
    assert Scan(listing) == ScanFrom(mixed, listing[1..][1..]);
    ScanFromBounds(mixed, listing[1..][1..]);
    FieldwiseKeepsBefore(Scan(listing), mixed, m);
  }

  /** Exactly when the named folder exists whatever the order: under the same condition. */
  lemma ScanStaysInside(dates: set<Date>, m: Date)
    requires Scannable(dates) && Oldest(m, dates)
    ensures (forall listing :: IsListing(listing, dates) ==> Scan(listing) in dates)
       <==> FieldwiseLeast(m, dates)
  {
    if FieldwiseLeast(m, dates) {
      ScanExact(dates, m);
    } else {
      var d :| d in dates && !FieldwiseLeq(m, d);
      var listing := ScanNamesAbsent(dates, m, d);
    }
  }

  /** Any two days that straddle a turn of month or year, as long as the day of the month
      is smaller after the turn. */
  lemma ScanAcross(a: Date, b: Date)
    requires FieldwiseLeq(a, SCAN_START) && FieldwiseLeq(b, SCAN_START)
    requires Before(a, b) && !FieldwiseLeq(a, b)
    ensures exists listing :: IsListing(listing, {a, b}) && Scan(listing) !in {a, b}
  {
    var listing := ScanNamesAbsent({a, b}, a, b);
  }

  /** New Year. */
  lemma ScanAcrossNewYear()
    ensures var dates := {Date(2023, 12, 31), Date(2024, 1, 1)};
            exists listing :: IsListing(listing, dates) && Scan(listing) !in dates
  {
    ScanAcross(Date(2023, 12, 31), Date(2024, 1, 1));
  }

  /** The end of a January. */
  lemma ScanAcrossMonths()
    ensures var dates := {Date(2024, 1, 31), Date(2024, 2, 1)};
            exists listing :: IsListing(listing, dates) && Scan(listing) !in dates
  {
    ScanAcross(Date(2024, 1, 31), Date(2024, 2, 1));
  }

  lemma {:induction false} ComparableHasLeast(dates: set<Date>) returns (m: Date)
    requires dates != {} && Comparable(dates)
    ensures FieldwiseLeast(m, dates)
    decreases |dates|
  {
    var x :| x in dates;
    var rest := dates - {x};
    if rest == {} {
      m := x;
      assert dates == {x};
    } else {
      var n := ComparableHasLeast(rest);
      m := if FieldwiseLeq(n, x) then n else x;
      assert FieldwiseLeq(m, x) && FieldwiseLeq(m, n);
      forall d | d in dates ensures FieldwiseLeq(m, d) {
        assert d == x || d in rest;
      }
    }
  }

  // ---------- Counting files ----------

  function Files(t: Tree): set<(Date, nat)> {
    set d, p | d in t && p in t[d] :: (d, p)
  }

  /** What that many files are taken to occupy: each counts as a full one. */
  function Megabytes(files: nat, mbForFile: int): int {
    files * mbForFile
  }

  /** How many files to drop: C division, which truncates towards zero. */
  function Excess(files: nat, mbForFile: int, mbToSave: int): int
    requires mbForFile != 0
  {
    TruncDiv(Megabytes(files, mbForFile) - mbToSave, mbForFile)
  }

  function TruncDiv(a: int, b: int): int
    requires b != 0
  {
    var q := (if a < 0 then -a else a) / (if b < 0 then -b else b);
    if (a < 0) == (b < 0) then q else -q
  }

  lemma TruncDivPositive(a: int, b: int)
    requires b > 0
    ensures a < 0 ==> TruncDiv(a, b) <= 0
    ensures a >= 0 ==> TruncDiv(a, b) >= 0 && TruncDiv(a, b) * b <= a < TruncDiv(a, b) * b + b
  {
    QuotientBounds(if a < 0 then -a else a, b);
  }

  /** C division: towards zero, for any signs. */
  lemma Truncates(a: int, b: int)
    requires b != 0
    ensures var p := TruncDiv(a, b) * b;
            (if a >= 0 then 0 <= p <= a else a <= p <= 0) &&
            -(if b < 0 then -b else b) < a - p < (if b < 0 then -b else b)
  {
    var (x, y) := (if a < 0 then -a else a, if b < 0 then -b else b);
    var q := x / y;
    QuotientBounds(x, y);
    NotBelowZero(q, y);
    NegatedProduct(q, b);
    TruncatedProduct(a, b, q);
  }

  lemma NotBelowZero(q: int, y: int)
    requires q >= 0 && y > 0
    ensures q * y >= 0
  {
  }

  lemma TruncatedProduct(a: int, b: int, q: int)
    requires b != 0 && q == (if a < 0 then -a else a) / (if b < 0 then -b else b)
    ensures TruncDiv(a, b) * b == if a < 0 then -(q * (if b < 0 then -b else b)) else q * (if b < 0 then -b else b)
  {
    NegatedProduct(q, b);
  }

  /** The excess is positive exactly when the files overrun the limit by a whole file. */
  lemma ExcessPositive(files: nat, mb: int, save: int)
    requires mb >= 1
    ensures Excess(files, mb, save) > 0 <==> Megabytes(files, mb) >= save + mb
    ensures files == 0 && save > 0 ==> Excess(files, mb, save) <= 0
  {
    var a := files * mb - save;
    TruncDivPositive(a, mb);
    if a >= 0 {
      var q := TruncDiv(a, mb);
      if q > 0 { assert q * mb >= mb by { MulMono(1, q, mb); } }
    }
  }

  /** Dropping files one for one lowers the excess one for one, down to zero. */
  lemma ExcessAfterDrop(files: nat, dropped: nat, mb: int, save: int)
    requires mb >= 1 && dropped <= files && dropped <= Excess(files, mb, save)
    ensures Excess(files - dropped, mb, save) == Excess(files, mb, save) - dropped
  {
    if dropped > 0 {
      var a := files * mb - save;
      var q := Excess(files, mb, save);
      TruncDivPositive(a, mb);
      var a' := (files - dropped) * mb - save;
      assert a' == a - dropped * mb;
      assert (q - dropped) * mb == q * mb - dropped * mb;
      MulMono(0, q - dropped, mb);
      QuotientUnique(a', mb, q - dropped);
    }
  }

  /** With room for more than one file, at least two files survive a trim. */
  lemma ExcessLeavesTwo(files: nat, mb: int, save: int)
    requires mb >= 1 && save > mb
    ensures Excess(files, mb, save) > 0 ==> Excess(files, mb, save) <= files - 2
  {
    var q := Excess(files, mb, save);
    TruncDivPositive(files * mb - save, mb);
    if q > 0 && q > files - 2 {
      MulMono(files - 1, q, mb);
    }
  }

  /** The files kept when as many go as the quotient asks for. */
  function Kept(files: nat, mbForFile: int, mbToSave: int): int
    requires mbForFile != 0
  {
    var e := Excess(files, mbForFile, mbToSave);
    if e > 0 then files - e else files
  }

  /** Exactly when the total limit itself is met: it was met before, or it is a multiple of
      the limit for one file.  Otherwise the truncated quotient keeps one file too many. */
  lemma TotalMetExactly(files: nat, mb: int, save: int)
    requires mb >= 1 && save > mb
    ensures Kept(files, mb, save) >= 0
    ensures Megabytes(Kept(files, mb, save), mb) <= save <==> Megabytes(files, mb) <= save || save % mb == 0
    ensures Megabytes(Kept(files, mb, save), mb) < save + mb
  {
    ExcessLeavesTwo(files, mb, save);
    var e := Excess(files, mb, save);
    var a := files * mb - save;
    TruncDivPositive(a, mb);
    MultipleOf(files, mb, save);
    if e > 0 {
      assert (files - e) * mb == files * mb - e * mb;
      MultipleOf(files - e, mb, save);
      assert a >= 0;
      MulMono(1, e, mb);
    }
  }

  /** What exceeds a multiple of `mb` by less than `mb` is a multiple only if equal. */
  lemma MultipleOf(k: int, mb: int, save: int)
    requires mb >= 1
    ensures save <= k * mb < save + mb && save % mb == 0 ==> k * mb == save
    ensures k * mb == save ==> save % mb == 0
  {
    var q := save / mb;
    assert save == q * mb + save % mb;
    if save % mb == 0 && save <= k * mb < save + mb {
      if k < q { MulMono(k + 1, q, mb); }
      if k > q { MulMono(q + 1, k, mb); }
    }
    if k * mb == save { QuotientUnique(save, mb, k); }
  }

  /** Three files of two megabytes each stay, though five is the limit. */
  lemma TotalMissedExample()
    ensures Kept(3, 2, 5) == 3 && Megabytes(3, 2) > 5
  {
  }
}
