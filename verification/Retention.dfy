/** One retention round as a function on folder trees, and what a round keeps.

    A round may drop one whole folder because there are too many days, and then
    trims lowest-numbered part files of the named folder because there are too many
    files.  `Logger` below runs these rounds on its own tree. */
module Retention {
  import opened Arithmetic
  import opened LogTree

  /** The number the scan for the lowest part file starts from. */
  const MAX_PART := 100000

  function PartsOf(t: Tree, name: Date): Parts {
    if name in t then t[name] else map[]
  }

  predicate Has(t: Tree, d: Date, p: nat) {
    d in t && p in t[d]
  }

  function AfterDeleteFolder(t: Tree, maxFileDay: int, name: Date): Tree {
    if maxFileDay < |t| && name in t then t - {name} else t
  }

  /** `lo` is the lowest part number, if any part is numbered below the starting value. */
  ghost predicate IsLowest(lo: nat, parts: Parts) {
    lo <= MAX_PART && (forall p :: p in parts ==> lo <= p) && (lo == MAX_PART || lo in parts)
  }

  function Without(parts: Parts, lo: int, hi: int): Parts {
    map p | p in parts && !(lo <= p < hi) :: parts[p]
  }

  /** Part files the trim loop goes over: it may be negative, and then it trims nothing. */
  function TrimCount(t: Tree, name: Date, excess: int): int {
    if excess > |PartsOf(t, name)| then |PartsOf(t, name)| else excess
  }

  function AfterDeleteFiles(t: Tree, name: Date, excess: int, lo: nat): Tree {
    var n := TrimCount(t, name, excess);
    if name !in t then t
    else if n == |t[name]| && Without(t[name], lo, lo + n) == map[] then t - {name}
    else t[name := Without(t[name], lo, lo + n)]
  }

  /** What is left of the count of files to drop after the trim loop. */
  function ExcessLeft(t: Tree, name: Date, excess: int): int {
    var n := TrimCount(t, name, excess);
    if n > 0 then excess - n else excess
  }

  function TreeExcess(t: Tree, mb: int, save: int): int
    requires mb != 0
  {
    Excess(|Files(t)|, mb, save)
  }

  function AfterRound(t: Tree, maxFileDay: int, mb: int, save: int, name: Date, lo: nat): Tree
    requires mb != 0
  {
    var t1 := AfterDeleteFolder(t, maxFileDay, name);
    AfterDeleteFiles(t1, name, TreeExcess(t1, mb, save), lo)
  }

  /** Some days or part files are gone; what is left is unchanged. */
  ghost predicate OnlyRemoves(before: Tree, after: Tree) {
    forall d :: d in after ==>
      d in before && forall p :: p in after[d] ==> p in before[d] && after[d][p] == before[d][p]
  }

  /** What is gone is older than everything left: earlier day, or same day and lower part. */
  ghost predicate OnlyOldestGone(before: Tree, after: Tree) {
    forall d, p, e, q ::
      Has(after, d, p) && Has(before, e, q) && FileBefore(d, p, e, q) ==> Has(after, e, q)
  }

  predicate FileBefore(d: Date, p: nat, e: Date, q: nat) {
    Before(d, e) || (d == e && p <= q)
  }

  // ---------- Hypotheses on the tree ----------

  ghost predicate PartRange(parts: Parts, lo: nat) {
    lo + |parts| <= MAX_PART + 1 && forall p :: p in parts <==> lo <= p < lo + |parts|
  }

  /** Part numbers of a folder are contiguous and at most 100000. */
  ghost predicate Contiguous(parts: Parts) {
    exists lo :: PartRange(parts, lo)
  }

  ghost predicate WellNumbered(t: Tree) {
    Scannable(t.Keys) && forall d :: d in t ==> Contiguous(t[d])
  }

  // ---------- Counting ----------

  ghost function Pairs(d: Date, s: set<nat>): set<(Date, nat)> {
    set p | p in s :: (d, p)
  }

  lemma {:induction false} PairsCount(d: Date, s: set<nat>)
    ensures |Pairs(d, s)| == |s|
    decreases |s|
  {
    if s == {} {
      assert Pairs(d, s) == {};
    } else {
      var x :| x in s;
      var rest := s - {x};
      PairsCount(d, rest);
      assert Pairs(d, s) == Pairs(d, rest) + {(d, x)};
      assert (d, x) !in Pairs(d, rest);
    }
  }

  lemma FilesAre(t: Tree, d: Date)
    requires d in t
    ensures Files(t) == Files(t - {d}) + Pairs(d, t[d].Keys)
    ensures Files(t - {d}) !! Pairs(d, t[d].Keys)
  {
  }

  lemma FilesSplit(t: Tree, d: Date)
    requires d in t
    ensures |Files(t)| == |Files(t - {d})| + |t[d]|
  {
    PairsCount(d, t[d].Keys);
    FilesAre(t, d);
    hide Files, Pairs;
    assert |t[d].Keys| == |t[d]|;
  }

  /** The part of a tree that the first `i` entries of a listing name. */
  ghost function Listed(t: Tree, dirs: seq<Date>, i: nat): Tree
    requires i <= |dirs|
  {
    map d | d in t && d in dirs[..i] :: t[d]
  }

  lemma ListedEnds(t: Tree, dirs: seq<Date>)
    requires IsListing(dirs, t.Keys)
    ensures |Files(Listed(t, dirs, 0))| == 0 && Listed(t, dirs, |dirs|) == t
  {
    assert Files(Listed(t, dirs, 0)) == {};
    assert dirs[..|dirs|] == dirs;
  }

  lemma ListedNext(t: Tree, dirs: seq<Date>, i: nat)
    requires IsListing(dirs, t.Keys) && i < |dirs|
    ensures dirs[i] in t
    ensures |Files(Listed(t, dirs, i + 1))| == |Files(Listed(t, dirs, i))| + |t[dirs[i]].Keys|
  {
    var d, next := dirs[i], Listed(t, dirs, i + 1);
    assert dirs[..i + 1] == dirs[..i] + [d];
    FilesSplit(next, d);
    assert next - {d} == Listed(t, dirs, i);
    assert |t[d].Keys| == |t[d]|;
  }

  lemma FilesUpdate(t: Tree, d: Date, parts: Parts)
    requires d in t
    ensures |Files(t[d := parts])| == |Files(t)| - |t[d]| + |parts|
  {
    FilesSplit(t, d);
    FilesSplit(t[d := parts], d);
    assert t[d := parts] - {d} == t - {d};
  }

  function Range(lo: nat, hi: nat): (s: set<nat>)
    requires lo <= hi
    ensures |s| == hi - lo && forall p :: p in s <==> lo <= p < hi
    decreases hi - lo
  {
    if lo == hi then {} else Range(lo, hi - 1) + {hi - 1}
  }

  /** Trimming the `n` lowest parts of a contiguous folder leaves a contiguous folder. */
  lemma TrimRange(parts: Parts, lo: nat, n: nat)
    requires PartRange(parts, lo) && n <= |parts|
    ensures PartRange(Without(parts, lo, lo + n), lo + n)
    ensures |Without(parts, lo, lo + n)| == |parts| - n
  {
    var left := Without(parts, lo, lo + n);
    assert left.Keys == Range(lo + n, lo + |parts|);
    assert |left.Keys| == |left|;
  }

  lemma LowestOfRange(parts: Parts, lo: nat, l: nat)
    requires PartRange(parts, l) && IsLowest(lo, parts) && parts != map[]
    ensures lo == l
  {
    assert parts.Keys != {};
    assert |parts| > 0;
    assert l in parts;
  }

  // ---------- A round in a well-numbered tree ----------

  /** Dropping the oldest folder leaves a well-numbered tree and drops only the oldest files. */
  lemma DropFolderKeeps(t: Tree, name: Date)
    requires WellNumbered(t) && Oldest(name, t.Keys)
    ensures WellNumbered(t - {name}) && OnlyRemoves(t, t - {name}) && OnlyOldestGone(t, t - {name})
    ensures |t - {name}| == |t| - 1
  {
    assert (t - {name}).Keys == t.Keys - {name};
  }

  lemma TrimKeeps(t: Tree, name: Date, n: nat, lo: nat)
    requires WellNumbered(t) && Oldest(name, t.Keys) && n <= |t[name]| && PartRange(t[name], lo)
    ensures var t' := t[name := Without(t[name], lo, lo + n)];
            WellNumbered(t') && OnlyRemoves(t, t') && OnlyOldestGone(t, t') && |t'| == |t| &&
            |Files(t')| == |Files(t)| - n
  {
    var left := Without(t[name], lo, lo + n);
    TrimRange(t[name], lo, n);
    FilesUpdate(t, name, left);
    assert Contiguous(left);
    assert t[name := left].Keys == t.Keys;
  }

  /** What a trim leaves, given how many part files it went over. */
  ghost predicate TrimOutcome(t: Tree, t': Tree, name: Date, e: int) {
    var n := TrimCount(t, name, e);
    WellNumbered(t') && OnlyRemoves(t, t') && OnlyOldestGone(t, t') &&
    |Files(t')| == |Files(t)| - (if n > 0 then n else 0) &&
    (if name in t && n == |t[name]| then |t'| == |t| - 1 else |t'| == |t|)
  }

  lemma TrimAll(t: Tree, name: Date, e: int, lo: nat)
    requires WellNumbered(t) && name in t && Oldest(name, t.Keys) && IsLowest(lo, t[name])
    requires e >= |t[name]|
    ensures TrimOutcome(t, AfterDeleteFiles(t, name, e, lo), name, e)
  {
    var l :| PartRange(t[name], l);
    if t[name] != map[] { LowestOfRange(t[name], lo, l); }
    assert Without(t[name], lo, lo + |t[name]|) == map[];
    DropFolderKeeps(t, name);
    FilesSplit(t, name);
  }

  lemma LowestStarts(t: Tree, name: Date, lo: nat)
    requires WellNumbered(t) && name in t && IsLowest(lo, t[name]) && |t[name]| > 0
    ensures PartRange(t[name], lo)
  {
    var l :| PartRange(t[name], l);
    assert l in t[name];
    LowestOfRange(t[name], lo, l);
  }

  lemma TrimIs(t: Tree, name: Date, e: int, lo: nat)
    requires name in t && 0 <= e < |t[name]|
    ensures TrimCount(t, name, e) == e
    ensures AfterDeleteFiles(t, name, e, lo) == t[name := Without(t[name], lo, lo + e)]
  {
  }

  lemma TrimSome(t: Tree, name: Date, e: int, lo: nat)
    requires WellNumbered(t) && name in t && Oldest(name, t.Keys) && IsLowest(lo, t[name])
    requires 0 <= e < |t[name]|
    ensures TrimOutcome(t, AfterDeleteFiles(t, name, e, lo), name, e)
  {
    LowestStarts(t, name, lo);
    TrimIs(t, name, e, lo);
    hide WellNumbered, OnlyRemoves, OnlyOldestGone, PartRange, Files, Without, AfterDeleteFiles, TrimCount;
    TrimKeeps(t, name, e, lo);
  }

  lemma TrimNone(t: Tree, name: Date, e: int, lo: nat)
    requires WellNumbered(t) && (name !in t || e < 0)
    ensures TrimOutcome(t, AfterDeleteFiles(t, name, e, lo), name, e)
  {
    if name in t {
      assert Without(t[name], lo, lo + e) == t[name];
      assert t[name := t[name]] == t;
    }
  }

  lemma TrimSpec(t: Tree, name: Date, e: int, lo: nat)
    requires WellNumbered(t) && (name in t ==> Oldest(name, t.Keys)) && IsLowest(lo, PartsOf(t, name))
    ensures TrimOutcome(t, AfterDeleteFiles(t, name, e, lo), name, e)
  {
    if name !in t || e < 0 {
      TrimNone(t, name, e, lo);
    } else if e < |t[name]| {
      TrimSome(t, name, e, lo);
    } else {
      TrimAll(t, name, e, lo);
    }
  }

  /** The limits after a trim: the excess falls by the files trimmed. */
  lemma TrimLimits(files: nat, parts: nat, mb: int, save: int)
    requires mb >= 1 && save > mb && parts <= files
    ensures var e := Excess(files, mb, save);
            var n := if e > parts then parts else e;
            var kept := files - (if n > 0 then n else 0);
            kept >= 0 && Excess(kept, mb, save) == (if n > 0 then e - n else e) &&
            (n > 0 ==> Megabytes(kept, mb) >= save)
  {
    var e := Excess(files, mb, save);
    var n := if e > parts then parts else e;
    if n > 0 {
      ExcessAfterDrop(files, n, mb, save);
      TruncDivPositive(files * mb - save, mb);
      MulMono(n, e, mb);
      assert (files - n) * mb == files * mb - n * mb;
    }
  }

  lemma RemovesTransitive(a: Tree, b: Tree, c: Tree)
    requires OnlyRemoves(a, b) && OnlyRemoves(b, c)
    ensures OnlyRemoves(a, c)
    ensures OnlyOldestGone(a, b) && OnlyOldestGone(b, c) ==> OnlyOldestGone(a, c)
  {
    if OnlyOldestGone(a, b) && OnlyOldestGone(b, c) {
      forall d, p, e, q | Has(c, d, p) && Has(a, e, q) && FileBefore(d, p, e, q)
        ensures Has(c, e, q)
      {
        assert Has(b, d, p);
        assert Has(b, e, q);
      }
    }
  }

  lemma TrimRound(t: Tree, mb: int, save: int, name: Date, lo: nat)
    requires WellNumbered(t) && mb >= 1 && save > mb && name in t && |t[name]| <= |Files(t)|
    requires Oldest(name, t.Keys) && IsLowest(lo, PartsOf(t, name))
    ensures var e := TreeExcess(t, mb, save);
            var t' := AfterDeleteFiles(t, name, e, lo);
            TrimOutcome(t, t', name, e) && TreeExcess(t', mb, save) == ExcessLeft(t, name, e) &&
            (TreeExcess(t', mb, save) <= 0 || |t'| == |t| - 1) &&
            TrimExact(|Files(t)|, |Files(t')|, mb, save)
  {
    hide WellNumbered, OnlyRemoves, OnlyOldestGone, TruncDiv;
    TrimSpec(t, name, TreeExcess(t, mb, save), lo);
    TrimLimits(|Files(t)|, |t[name]|, mb, save);
  }

  /** With too many days exactly the oldest one goes; otherwise oldest files go, as many as
      the excess falls by, and a day goes or the excess is gone. */
  ghost predicate Progress(t: Tree, t': Tree, maxFileDay: int, mb: int, save: int)
    requires mb != 0
  {
    WellNumbered(t') && OnlyRemoves(t, t') && OnlyOldestGone(t, t') &&
    (if |t| > maxFileDay then OldestDropped(t, t')
     else |t'| <= |t| && (TreeExcess(t', mb, save) <= 0 || |t'| == |t| - 1) &&
          TrimExact(|Files(t)|, |Files(t')|, mb, save))
  }

  ghost predicate OldestDropped(t: Tree, t': Tree) {
    |t'| == |t| - 1 && exists m :: Oldest(m, t.Keys) && t' == t - {m}
  }

  /** From `files` down to `left`: nothing goes without an excess, and the excess falls one
      for one and never below zero. */
  ghost predicate TrimExact(files: nat, left: nat, mb: int, save: int)
    requires mb != 0
  {
    var e := Excess(files, mb, save);
    left <= files && (e <= 0 ==> left == files) &&
    (e > 0 ==> Excess(left, mb, save) == e - (files - left) >= 0)
  }

  /** A round makes progress, and the running count of files to drop stays exact. */
  ghost predicate RoundOutcome(t: Tree, maxFileDay: int, mb: int, save: int, name: Date, lo: nat)
    requires mb != 0
  {
    var t1 := AfterDeleteFolder(t, maxFileDay, name);
    var t' := AfterRound(t, maxFileDay, mb, save, name, lo);
    TreeExcess(t', mb, save) == ExcessLeft(t1, name, TreeExcess(t1, mb, save)) &&
    Progress(t, t', maxFileDay, mb, save)
  }

  lemma RoundDropsDay(t: Tree, maxFileDay: int, mb: int, save: int, name: Date, lo: nat)
    requires WellNumbered(t) && mb >= 1 && name in t && Oldest(name, t.Keys) && |t| > maxFileDay
    ensures RoundOutcome(t, maxFileDay, mb, save, name, lo)
    ensures AfterRound(t, maxFileDay, mb, save, name, lo) == t - {name}
  {
    DropFolderKeeps(t, name);
    assert AfterRound(t, maxFileDay, mb, save, name, lo) == t - {name};
  }

  lemma RoundTrims(t: Tree, maxFileDay: int, mb: int, save: int, name: Date, lo: nat)
    requires WellNumbered(t) && mb >= 1 && save > mb && name in t && Oldest(name, t.Keys)
    requires |t| <= maxFileDay && IsLowest(lo, PartsOf(t, name))
    ensures RoundOutcome(t, maxFileDay, mb, save, name, lo)
  {
    FilesSplit(t, name);
    TrimRound(t, mb, save, name, lo);
    assert AfterDeleteFolder(t, maxFileDay, name) == t;
  }

  /** A trim touches one folder only. */
  lemma TrimLocal(t: Tree, name: Date, e: int, lo: nat)
    ensures AfterDeleteFiles(t, name, e, lo) - {name} == t - {name}
  {
  }

  lemma IdleTree(t: Tree, name: Date, e: int, lo: nat)
    requires WellNumbered(t) && e <= 0
    ensures TrimOutcome(t, AfterDeleteFiles(t, name, e, lo), name, e)
  {
    if name in t && e == 0 {
      assert Without(t[name], lo, lo) == t[name];
      if t[name] == map[] {
        FilesSplit(t, name);
        assert (t - {name}).Keys == t.Keys - {name};
        assert AfterDeleteFiles(t, name, e, lo) == t - {name};
      } else {
        assert |t[name].Keys| == |t[name]| > 0;
        assert t[name := t[name]] == t;
      }
    } else {
      TrimNone(t, name, e, lo);
    }
  }

  /** With nothing to do a round keeps all files, whatever folder it names: at most an empty
      folder goes. */
  lemma RoundIdle(t: Tree, maxFileDay: int, mb: int, save: int, name: Date, lo: nat)
    requires WellNumbered(t) && mb != 0 && |t| <= maxFileDay && TreeExcess(t, mb, save) <= 0
    ensures RoundOutcome(t, maxFileDay, mb, save, name, lo)
  {
    hide WellNumbered, OnlyRemoves, OnlyOldestGone, Excess, AfterDeleteFiles;
    IdleTree(t, name, TreeExcess(t, mb, save), lo);
  }

  /** When the scan names a folder that does not exist, a round removes nothing at all, and
      with too many days that is the only way to remove nothing. */
  lemma RoundStuck(t: Tree, maxFileDay: int, mb: int, save: int, name: Date, lo: nat)
    requires mb != 0
    ensures name !in t ==> AfterRound(t, maxFileDay, mb, save, name, lo) == t
    ensures |t| > maxFileDay ==> (AfterRound(t, maxFileDay, mb, save, name, lo) == t <==> name !in t)
  {
  }

  /** What a trim does to any folder, gaps in its numbers included: of the numbers from the
      lowest on it goes over as many as there are files to drop, or files in the folder. */
  lemma TrimExactly(t: Tree, name: Date, e: int, lo: nat)
    ensures var t' := AfterDeleteFiles(t, name, e, lo);
            var count := |PartsOf(t, name)|;
            var n := if e > count then count else e;
            (forall d, p: nat :: Has(t', d, p) <==> Has(t, d, p) && !(d == name && lo <= p < lo + n)) &&
            (forall d, p: nat :: Has(t', d, p) ==> t'[d][p] == t[d][p]) &&
            (forall d :: d in t' <==> d in t && !(d == name && n == count && forall p :: p in t[d] ==> lo <= p < lo + n)) &&
            ExcessLeft(t, name, e) == if n > 0 then e - n else e
  {
    if name in t {
      var n := TrimCount(t, name, e);
      assert Without(t[name], lo, lo + n) == map[] <==> forall p :: p in t[name] ==> lo <= p < lo + n by {
        if forall p :: p in t[name] ==> lo <= p < lo + n {
          assert Without(t[name], lo, lo + n).Keys == {};
        } else {
          var p :| p in t[name] && !(lo <= p < lo + n);
          assert p in Without(t[name], lo, lo + n);
        }
      }
    }
  }

  /** A round on any tree and for any name: with too many days the named folder goes whole and
      nothing else, otherwise it is trimmed. */
  lemma RoundExactly(t: Tree, maxFileDay: int, mb: int, save: int, name: Date, lo: nat)
    requires mb != 0
    ensures var t' := AfterRound(t, maxFileDay, mb, save, name, lo);
            if |t| > maxFileDay
            then t'.Keys == t.Keys - {name} && forall d :: d in t' ==> t'[d] == t[d]
            else t' == AfterDeleteFiles(t, name, TreeExcess(t, mb, save), lo)
  {
  }

  // ---------- The files that are to stay ----------

  ghost function Later(t: Tree, d: Date): set<Date> {
    set e | e in t && Before(d, e)
  }

  /** The `k` newest days. */
  ghost function NewestDays(t: Tree, k: int): Tree {
    map d | d in t && |Later(t, d)| < k :: t[d]
  }

  /** How many files the two limits leave: those of the newest days, less their excess. */
  ghost function Goal(t: Tree, maxFileDay: int, mb: int, save: int): int
    requires mb != 0
  {
    Kept(|Files(NewestDays(t, maxFileDay))|, mb, save)
  }

  lemma NewestAreAll(t: Tree, k: int)
    requires |t| <= k
    ensures NewestDays(t, k) == t
  {
    forall d | d in t ensures |Later(t, d)| < k {
      SubsetCount(Later(t, d), t.Keys - {d});
      assert |t.Keys| == |t|;
    }
  }

  lemma LaterThanOldest(t: Tree, m: Date)
    requires Oldest(m, t.Keys)
    ensures |Later(t, m)| == |t| - 1
    ensures forall d :: d in t && d != m ==> Later(t - {m}, d) == Later(t, d)
  {
    assert Later(t, m) == t.Keys - {m};
    assert |t.Keys| == |t|;
  }

  lemma NewestWithoutOldest(t: Tree, m: Date, k: int)
    requires Oldest(m, t.Keys) && |t| > k
    ensures NewestDays(t - {m}, k) == NewestDays(t, k)
  {
    LaterThanOldest(t, m);
    hide Later, Oldest;
  }

  /** Exactly the `k` newest days, and all later ones of each of them. */
  lemma {:induction false} NewestDaysCount(t: Tree, k: nat)
    ensures |NewestDays(t, k)| == if k <= |t| then k else |t|
    decreases |t|
  {
    if |t| <= k {
      NewestAreAll(t, k);
    } else {
      assert |t.Keys| == |t| > 0;
      var m := OldestExists(t.Keys);
      assert (t - {m}).Keys == t.Keys - {m};
      NewestWithoutOldest(t, m, k);
      NewestDaysCount(t - {m}, k);
    }
  }

  lemma {:induction false} OldestExists(dates: set<Date>) returns (m: Date)
    requires dates != {}
    ensures Oldest(m, dates)
    decreases |dates|
  {
    var x :| x in dates;
    var rest := dates - {x};
    if rest == {} {
      m := x;
      assert dates == {x};
    } else {
      var n := OldestExists(rest);
      m := if NotAfter(n, x) then n else x;
      forall d | d in dates ensures NotAfter(m, d) {
        assert d == x || d in rest;
      }
    }
  }

  /** A round never changes which number of files is to stay. */
  lemma GoalStays(t: Tree, t': Tree, maxFileDay: int, mb: int, save: int)
    requires mb >= 1 && save > mb && Progress(t, t', maxFileDay, mb, save)
    ensures Goal(t', maxFileDay, mb, save) == Goal(t, maxFileDay, mb, save)
  {
    hide WellNumbered, OnlyRemoves, OnlyOldestGone, Excess, Files, NewestDays;
    if |t| > maxFileDay {
      var m :| Oldest(m, t.Keys) && t' == t - {m};
      NewestWithoutOldest(t, m, maxFileDay);
    } else {
      NewestAreAll(t, maxFileDay);
      NewestAreAll(t', maxFileDay);
    }
  }

  /** The newest `n` files, with nothing said of empty folders. */
  ghost predicate NewestFiles(before: Tree, after: Tree, n: int) {
    OnlyRemoves(before, after) && OnlyOldestGone(before, after) && |Files(after)| == n
  }

  lemma FilesOrdered(d: Date, p: nat, e: Date, q: nat)
    ensures FileBefore(d, p, e, q) || FileBefore(e, q, d, p)
  {
  }

  /** Of two choices that keep newest files, a file that only one keeps makes it the larger. */
  lemma NewestNested(before: Tree, a: Tree, b: Tree, x: (Date, nat))
    requires OnlyRemoves(before, a) && OnlyRemoves(before, b)
    requires OnlyOldestGone(before, a) && OnlyOldestGone(before, b)
    requires x in Files(a) && x !in Files(b)
    ensures Files(b) <= Files(a)
  {
    assert Has(a, x.0, x.1) && Has(before, x.0, x.1) && !Has(b, x.0, x.1);
    forall y | y in Files(b) ensures y in Files(a) {
      assert Has(b, y.0, y.1) && Has(before, y.0, y.1);
      FilesOrdered(x.0, x.1, y.0, y.1);
      assert FileBefore(x.0, x.1, y.0, y.1);
      assert Has(a, y.0, y.1);
    }
  }

  lemma SubsetOfSameSize<T>(a: set<T>, b: set<T>)
    requires a <= b && |a| == |b|
    ensures a == b
  {
    assert b == a + (b - a);
    assert |b - a| == 0;
  }

  /** There is only one choice of the newest `n` files. */
  lemma NewestFilesUnique(before: Tree, a: Tree, b: Tree, n: int)
    requires NewestFiles(before, a, n) && NewestFiles(before, b, n)
    ensures Files(a) == Files(b)
  {
    if !(Files(a) <= Files(b)) {
      var x :| x in Files(a) && x !in Files(b);
      NewestNested(before, a, b, x);
      SubsetOfSameSize(Files(b), Files(a));
    } else {
      SubsetOfSameSize(Files(a), Files(b));
    }
  }

  // ---------- Safety of the open file, in any tree ----------

  /** `open` is the highest part of the newest folder. */
  ghost predicate OpenIsLast(t: Tree, today: Date, open: nat) {
    Newest(today, t.Keys) && Has(t, today, open) && forall p :: p in t[today] ==> p <= open
  }

  /** Distinct numbers from `lo` up to the highest number: there are at most that many. */
  lemma PartsFit(parts: Parts, lo: nat, open: nat)
    requires open in parts && forall p :: p in parts ==> lo <= p <= open
    ensures |parts| <= open + 1 - lo
  {
    SubsetCount(parts.Keys, Range(lo, open + 1));
    assert |parts.Keys| == |parts|;
  }

  lemma {:induction false} SubsetCount<T>(a: set<T>, b: set<T>)
    requires a <= b
    ensures |a| <= |b|
  {
    assert b == a + (b - a);
  }

  /** No round removes the open file or its folder: not for any dates, gaps between part
      numbers, or directory order.  It rests on `save > mb`, which start-up enforces. */
  lemma RoundSparesOpen(t: Tree, maxFileDay: int, mb: int, save: int, listing: seq<Date>, lo: nat,
                        today: Date, open: nat)
    requires mb >= 1 && save > mb && maxFileDay >= 1
    requires OpenIsLast(t, today, open) && IsListing(listing, t.Keys)
    requires IsLowest(lo, PartsOf(AfterDeleteFolder(t, maxFileDay, Scan(listing)), Scan(listing)))
    ensures var t' := AfterRound(t, maxFileDay, mb, save, Scan(listing), lo);
            OpenIsLast(t', today, open) && OnlyRemoves(t, t')
  {
    var name := Scan(listing);
    if name == today {
      ScanSparesNewest(listing, t.Keys, today);
      assert |t.Keys| == |{today}| == 1;
      assert AfterDeleteFolder(t, maxFileDay, name) == t;
      FilesSplit(t, today);
      assert Files(t - {today}) == {};
      var files := |Files(t)|;
      ExcessLeavesTwo(files, mb, save);
      PartsFit(t[today], lo, open);
    }
  }
}
