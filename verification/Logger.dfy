/** The rotating logger: the retention loop and the per-message rotation step, as a class
    over the folder tree.  The clock is a parameter: each call is given today's date. */
module LoggerCore {
  import opened LogTree
  import opened Retention
  import opened RetentionReach
  import opened RetentionLoop
  import opened LogGrowth
  import opened Wrappers

  datatype Status = Success | OpenFileFailed | DeleteOldFileFailed | BadMaxMb | BadLevel

  datatype Event = Event(level: int, date: Date, line: nat)

  const LOGGER_FATAL := 1
  const LOGGER_TRACE := 6
  const BYTES_PER_MB := 1000000

  predicate ValidLevel(level: int) {
    LOGGER_FATAL <= level <= LOGGER_TRACE
  }

  /** The files, and the one that is being written. */
  datatype Place = Place(tree: Tree, today: Date, part: nat)

  /** The files once a message of `date` has the right file open: after a turn of the day or a
      full file a new one has been opened and retention applied, else nothing has happened. */
  ghost predicate Rolled(s: Place, date: Date, lim: Limits, rolled: Tree, part: nat)
    requires lim.mb != 0
  {
    if s.today != date then part == 1 && Retained(Opened(s.tree, date, 1), rolled, lim)
    else if FindSize(s.tree, date, s.part) > lim.mb * BYTES_PER_MB
    then part == s.part + 1 && Retained(Opened(s.tree, date, part), rolled, lim)
    else part == s.part && rolled == s.tree
  }

  /** One message: nothing when one of the levels of file and console forbids it, else one
      line more in the right file. */
  ghost predicate MessageStep(s: Place, e: Event, levels: (int, int), lim: Limits, s': Place)
    requires lim.mb != 0
  {
    if e.level > levels.0 || e.level > levels.1 then s' == s
    else exists rolled: Tree ::
      Rolled(s, e.date, lim, rolled, s'.part) && Has(rolled, e.date, s'.part) && s'.today == e.date &&
      s'.tree == WithSize(rolled, e.date, s'.part, rolled[e.date][s'.part] + e.line + 1)
  }

  /** The states of a run, one message after another. */
  ghost predicate IsTrace(trace: seq<Place>, events: seq<Event>, levels: (int, int), lim: Limits)
    requires lim.mb != 0
  {
    |trace| == |events| + 1 &&
    forall i, j :: 0 <= i < |events| && j == i + 1 ==> MessageStep(trace[i], events[i], levels, lim, trace[j])
  }

  lemma TraceGrows(trace: seq<Place>, events: seq<Event>, levels: (int, int), lim: Limits, e: Event, s: Place)
    requires lim.mb != 0 && IsTrace(trace, events, levels, lim)
    requires MessageStep(trace[|events|], e, levels, lim, s)
    ensures IsTrace(trace + [s], events + [e], levels, lim)
  {
    hide MessageStep;
  }

  class Logger {
    var tree: Tree
    var maxFileDay: int
    var maxMbForFile: int
    var maxMbToSave: int
    var levelFile: int
    var levelConsole: int
    var today: Option<Date>
    var oldFileLog: nat
    var fileLog: Option<(Date, nat)>
    var status: Status

    constructor (files: Tree)
      ensures tree == files && today == None && fileLog == None
    {
      tree := files;
      maxFileDay, maxMbForFile, maxMbToSave := 0, 0, 0;
      levelFile, levelConsole := 0, 0;
      today, oldFileLog, fileLog, status := None, 0, None, Success;
    }

    ghost predicate ValidLimits()
      reads this
    {
      1 <= maxMbForFile < maxMbToSave
    }

    /** The open file is the highest part of today's folder, which is the newest. */
    ghost predicate Valid()
      reads this
    {
      ValidLimits() && today.Some? && fileLog == Some((today.value, oldFileLog)) &&
      OpenIsLast(tree, today.value, oldFileLog)
    }

    ghost function OpenSize(): (size: int)
      reads this
      requires Valid()
      ensures Has(tree, today.value, oldFileLog) && size == FindSize(tree, today.value, oldFileLog)
    {
      tree[today.value][oldFileLog]
    }

    ghost function SizeLimit(): int
      reads this
    {
      maxMbForFile * BYTES_PER_MB
    }

    ghost function Now(): Place
      reads this
      requires today.Some?
    {
      Place(tree, today.value, oldFileLog)
    }

    ghost function Levels(): (int, int)
      reads this
    {
      (levelFile, levelConsole)
    }

    // ---------- Retention ----------

    method GetNumTotalFileLog() returns (total: nat)
      ensures total == |Files(tree)|
    {
      hide Files, Listed, IsListing;
      total := 0;
      var dirs := ReadDir(tree.Keys);
      ListedEnds(tree, dirs);
      for i := 0 to |dirs|
        invariant total == |Files(Listed(tree, dirs, i))|
      {
        ListedNext(tree, dirs, i);
        var entries := ReadDir(tree[dirs[i]].Keys);
        for j := 0 to |entries|
          invariant total == |Files(Listed(tree, dirs, i))| + j
        {
          total := total + 1;
        }
      }
    }

    method GetOldDirectory() returns (name: Date, folders: nat, ghost listing: seq<Date>)
      ensures IsListing(listing, tree.Keys) && name == Scan(listing) && folders == |tree|
      ensures ScanFields(listing, name)
    {
      var dirs := ReadDir(tree.Keys);
      listing := dirs;
      name, folders := SCAN_START, 0;
      for i := 0 to |dirs|
        invariant name == ScanFrom(SCAN_START, dirs[..i]) && folders == i
      {
        folders := folders + 1;
        var d := dirs[i];
        assert dirs[..i + 1] == dirs[..i] + [d];
        ScanFromAppend(SCAN_START, dirs[..i], d);
        if d.year <= name.year {
          name := Date(d.year, name.month, name.day);
          if d.month <= name.month {
            name := Date(name.year, d.month, name.day);
            if d.day <= name.day {
              name := Date(name.year, name.month, d.day);
            }
          }
        }
      }
      assert dirs[..|dirs|] == dirs;
      assert |tree.Keys| == |tree|;
      ScanGives(dirs);
    }

    method RemoveFile(d: Date, p: nat)
      modifies this`tree
      ensures tree == if d in old(tree) then old(tree)[d := old(tree)[d] - {p}] else old(tree)
    {
      if d in tree {
        tree := tree[d := tree[d] - {p}];
      }
    }

    /** Removing a directory works only when it exists and is empty. */
    method RemoveDir(d: Date) returns (ok: bool)
      modifies this`tree
      ensures ok == (d in old(tree) && old(tree)[d] == map[])
      ensures tree == if ok then old(tree) - {d} else old(tree)
    {
      ok := d in tree && tree[d] == map[];
      if ok {
        tree := tree - {d};
      }
    }

    method EmptyFolder(name: Date)
      requires name in tree
      modifies this`tree
      ensures tree == old(tree)[name := map[]]
    {
      ghost var before, parts := tree, tree[name];
      var entries := ReadDir(tree[name].Keys);
      for i := 0 to |entries|
        invariant tree == before[name := parts] && parts.Keys <= before[name].Keys
        invariant forall p :: p in entries[..i] ==> p !in parts
      {
        RemoveFile(name, entries[i]);
        parts := parts - {entries[i]};
        assert entries[..i + 1] == entries[..i] + [entries[i]];
      }
      assert entries[..|entries|] == entries;
      assert parts == map[];
    }

    method DeleteOldFolder(folders: nat, name: Date) returns (left: nat)
      requires folders == |tree|
      modifies this`tree, this`status
      ensures tree == AfterDeleteFolder(old(tree), maxFileDay, name)
      ensures left == |tree|
      ensures status == if maxFileDay < folders && name !in old(tree) then DeleteOldFileFailed else old(status)
    {
      left := folders;
      if maxFileDay < folders {
        if name in tree {
          EmptyFolder(name);
        }
        var removed := RemoveDir(name);
        if !removed {
          status := DeleteOldFileFailed;
          return;
        }
        assert tree == old(tree) - {name};
        FolderCount(old(tree), name);
        left := left - 1;
      }
    }

    method LowestPart(name: Date) returns (lowest: nat, count: nat)
      ensures IsLowest(lowest, PartsOf(tree, name)) && count == |PartsOf(tree, name)|
    {
      lowest, count := MAX_PART, 0;
      if name in tree {
        var entries := ReadDir(tree[name].Keys);
        for i := 0 to |entries|
          invariant count == i && lowest <= MAX_PART
          invariant forall p :: p in entries[..i] ==> lowest <= p
          invariant lowest == MAX_PART || lowest in tree[name]
        {
          var number := entries[i];
          count := count + 1;
          if number <= lowest {
            lowest := number;
          }
          assert entries[..i + 1] == entries[..i] + [number];
        }
        assert entries[..|entries|] == entries;
        assert |tree[name].Keys| == |tree[name]|;
      }
    }

    method RemoveParts(name: Date, lowest: nat, rounds: int)
      modifies this`tree
      ensures tree == if name in old(tree)
                      then old(tree)[name := Without(old(tree)[name], lowest, lowest + rounds)]
                      else old(tree)
    {
      if name in tree {
        assert Without(tree[name], lowest, lowest) == tree[name];
      }
      ghost var last := if rounds > 0 then rounds else 0;
      for v := 0 to (if rounds > 0 then rounds else 0)
        invariant tree == if name in old(tree)
                          then old(tree)[name := Without(old(tree)[name], lowest, lowest + v)]
                          else old(tree)
      {
        RemoveFile(name, v + lowest);
        if name in tree {
          assert tree[name] == Without(old(tree)[name], lowest, lowest + v + 1);
        }
      }
      if name in tree {
        assert Without(old(tree)[name], lowest, lowest + last)
            == Without(old(tree)[name], lowest, lowest + rounds);
      }
    }

    /** Drops the lowest-numbered parts of one folder, and the folder if none is left. */
    method DeleteOldFile(files: nat, name: Date) returns (excess: int, ghost lo: nat)
      requires files == |Files(tree)| && maxMbForFile != 0
      modifies this`tree
      ensures var e := TreeExcess(old(tree), maxMbForFile, maxMbToSave);
              IsLowest(lo, PartsOf(old(tree), name)) &&
              tree == AfterDeleteFiles(old(tree), name, e, lo) &&
              excess == ExcessLeft(old(tree), name, e)
    {
      excess := Excess(files, maxMbForFile, maxMbToSave);
      var lowest, count := LowestPart(name);
      lo := lowest;
      var rounds := if excess > count then count else excess;
      RemoveParts(name, lowest, rounds);
      if rounds > 0 {
        excess := excess - rounds;
      }
      if rounds == count {
        var removed := RemoveDir(name);
        if removed {
          assert tree == old(tree) - {name};
        }
      }
    }

    ghost function Lim(): Limits
      reads this
    {
      Limits(maxFileDay, maxMbForFile, maxMbToSave)
    }

    /** One round: the folder the scan names loses its turn's worth, or goes. */
    method Round() returns (folders: nat, excess: int, ghost listing: seq<Date>, ghost lo: nat)
      requires maxMbForFile != 0
      modifies this`tree, this`status
      ensures RoundBy(old(tree), LoopState(tree, folders, excess), Lim(), listing, lo)
      ensures status == if |old(tree)| > maxFileDay && tree == old(tree) then DeleteOldFileFailed
                        else old(status)
    {
      hide IsListing, IsLowest, TreeExcess, AfterDeleteFolder, AfterDeleteFiles, ExcessLeft;
      var name, found, order := GetOldDirectory();
      var filesBefore := GetNumTotalFileLog();
      listing := order;
      folders := DeleteOldFolder(found, name);
      var filesNow := GetNumTotalFileLog();
      excess, lo := DeleteOldFile(filesNow, name);
      RoundStuck(old(tree), maxFileDay, maxMbForFile, maxMbToSave, name, lo);
    }

    /** The retention loop; `run` records its rounds.  Whatever the tree and the listing
        orders, it only removes, it ends, and the file being written survives.  On a well-kept
        tree it takes exactly the rounds needed, and leaves exactly the newest files that the
        two limits allow. */
    method CheckAndDeleteNumberFile() returns (rounds: nat, guardFired: bool, ghost run: seq<LoopState>)
      requires ValidLimits() && maxFileDay >= 1
      modifies this`tree, this`status
      ensures IsLoop(run, old(tree), Lim()) && rounds == |run| - 1 && run[rounds].tree == tree
      ensures guardFired == (rounds == MAX_ROUNDS) && (!guardFired ==> !Again(run[rounds], Lim()))
      ensures OnlyRemoves(old(tree), tree) && OpenSpared(old(tree), tree)
      ensures rounds <= MAX_ROUNDS && (!guardFired ==> |tree| <= maxFileDay)
      ensures WellKept(old(tree), Lim()) ==>
        WellKept(tree, Lim()) && OnlyOldestGone(old(tree), tree) && rounds <= RoundsNeeded(old(tree), Lim()) &&
        (|old(tree)| < MAX_ROUNDS ==> !guardFired)
      ensures status == if Wasted(run, Lim()) then DeleteOldFileFailed else old(status)
      ensures WellKept(old(tree), Lim()) && !guardFired ==>
        rounds == RoundsNeeded(old(tree), Lim()) && LimitsMet(old(tree), tree, Lim())
    {
      hide WellKept, OnlyRemoves, OnlyOldestGone, OpenSpared, LimitsMet, LoopInv, IsLoop, RoundBy, RoundsNeeded,
           Wasted;
      ghost var t0, lim := tree, Lim();
      var folders := maxFileDay + 1;
      var files := GetNumTotalFileLog();
      var excess := Excess(files, maxMbForFile, maxMbToSave);
      rounds, guardFired := 0, false;
      run := LoopBegins(t0, excess, lim);
      NoneWasted(run[0], lim);
      FewRounds(t0, lim);
      while maxFileDay < folders || excess > 0
        invariant rounds < MAX_ROUNDS
        invariant IsLoop(run, t0, lim) && |run| == rounds + 1 && run[rounds] == LoopState(tree, folders, excess)
        invariant status == if Wasted(run, lim) then DeleteOldFileFailed else old(status)
        decreases MAX_ROUNDS - rounds
      {
        ghost var listing, lo;
        folders, excess, listing, lo := Round();
        WastedGrows(run, LoopState(tree, folders, excess), lim);
        run := LoopGoesOn(run, t0, lim, listing, lo, LoopState(tree, folders, excess));
        rounds := rounds + 1;
        if rounds >= MAX_ROUNDS {
          guardFired := true;
          LoopResults(run, t0, lim);
          return;
        }
      }
      LoopResults(run, t0, lim);
    }

    // ---------- Rotation ----------

    /** Makes today's folder if needed and picks the part to write: the highest one there,
        or the next number when that one is over the limit. */
    method CreateFolderDateAndFileName(date: Date)
      modifies this`tree, this`today, this`oldFileLog
      ensures today == Some(date)
      ensures tree == if date in old(tree) then old(tree) else old(tree)[date := map[]]
      ensures forall p :: p in tree[date] ==> p <= oldFileLog
      ensures FindSize(tree, date, oldFileLog) <= SizeLimit() || oldFileLog !in tree[date]
      ensures date !in old(tree) && SizeLimit() >= 0 ==> oldFileLog == 1
      ensures forall p: nat :: Has(old(tree), date, p) ==> p <= oldFileLog
      ensures SizeLimit() >= 0 ==> Continues(old(tree), date, oldFileLog, SizeLimit())
    {
      if date !in tree {
        tree := tree[date := map[]];
      }
      var highest := 1;
      var entries := ReadDir(tree[date].Keys);
      for i := 0 to |entries|
        invariant forall p :: p in entries[..i] ==> p <= highest
        invariant highest == 1 || highest in tree[date]
      {
        var number := entries[i];
        if number >= highest {
          highest := number;
        }
        assert entries[..i + 1] == entries[..i] + [number];
      }
      assert entries[..|entries|] == entries;
      if FindSize(tree, date, highest) > maxMbForFile * BYTES_PER_MB {
        highest := highest + 1;
      }
      oldFileLog := highest;
      today := Some(date);
    }

    /** Opens a part for appending, creating it empty when it is new; `opens` says whether
        the system lets the file be opened. */
    method OpenAppend(d: Date, p: nat, opens: bool)
      requires d in tree
      modifies this`tree, this`fileLog
      ensures fileLog == if opens then Some((d, p)) else None
      ensures tree == if opens && p !in old(tree)[d] then WithSize(old(tree), d, p, 0) else old(tree)
    {
      if !opens {
        fileLog := None;
        return;
      }
      if p !in tree[d] {
        tree := WithSize(tree, d, p, 0);
      }
      fileLog := Some((d, p));
    }

    /** Opens the file to write today: the highest part of today's folder, within the limit. */
    method OpenToday(date: Date, opens: bool)
      requires 1 <= maxMbForFile && forall d :: d in tree ==> NotAfter(d, date)
      modifies this`tree, this`today, this`oldFileLog, this`fileLog
      ensures today == Some(date) && WithinBound(old(tree), tree, 0)
      ensures fileLog == if opens then Some((date, oldFileLog)) else None
      ensures opens ==> OpenIsLast(tree, date, oldFileLog) && tree[date][oldFileLog] <= SizeLimit()
      ensures opens && date !in old(tree) ==> oldFileLog == 1 && tree[date][1] == 0
      ensures Continues(old(tree), date, oldFileLog, SizeLimit())
      ensures forall p: nat :: Has(old(tree), date, p) ==> p <= oldFileLog
      ensures opens ==> tree == Opened(old(tree), date, oldFileLog)
      ensures tree.Keys == old(tree).Keys + {date}
      ensures !opens ==> tree == if date in old(tree) then old(tree) else old(tree)[date := map[]]
    {
      CreateFolderDateAndFileName(date);
      OpenAppend(date, oldFileLog, opens);
    }

    /** Rolls the open file by day and by size.  Afterwards the open file is the highest
        part of today's folder, it is within the size limit, and no other file was touched
        except to remove it.  When the new file cannot be opened, that is reported. */
    method VerifyLogDay(date: Date, opens: bool)
      requires Valid() && NotAfter(today.value, date)
      modifies this`tree, this`today, this`oldFileLog, this`fileLog, this`status
      ensures WithinBound(old(tree), tree, 0) && today == Some(date)
      ensures fileLog.Some? ==> Valid() && OpenSize() <= SizeLimit()
      ensures fileLog.None? ==> !opens && status == OpenFileFailed
      ensures fileLog.None? <==>
        (!opens && (old(today) != Some(date) || old(OpenSize()) > SizeLimit()))
      ensures fileLog.Some? ==>
        if old(today) != Some(date) then oldFileLog == 1 && OpenSize() == 0
        else if old(OpenSize()) > SizeLimit() then oldFileLog == old(oldFileLog) + 1 && OpenSize() == 0
        else oldFileLog == old(oldFileLog) && tree == old(tree)
      ensures fileLog.Some? && (old(today) != Some(date) || old(OpenSize()) > SizeLimit()) ==>
        Retained(Opened(old(tree), date, oldFileLog), tree, Lim())
      ensures fileLog.None? ==> tree == if date in old(tree) then old(tree) else old(tree)[date := map[]]
      ensures tree.Keys <= old(tree).Keys + {date}
      ensures fileLog.Some? && Tidy(old(tree), Lim()) && Trimmable(Opened(old(tree), date, oldFileLog), Lim()) ==>
        Tidy(tree, Lim())
      ensures fileLog.Some? && Tidy(old(tree), Lim()) && Orderly(old(tree), date, Lim()) && oldFileLog <= MAX_PART ==>
        Tidy(tree, Lim())
    {
      hide Tidy, Orderly, Trimmable, Opened, Continues, Retained;
      WithinSelf(tree, 0);
      if today.value != date {
        StartFile(date, opens);
        if fileLog.None? {
          status := OpenFileFailed;
        }
      } else if FindSize(tree, date, oldFileLog) > maxMbForFile * BYTES_PER_MB {
        NextPart(opens);
      }
    }

    /** Goes on to the next part of today, the open one being full, and applies retention. */
    method NextPart(opens: bool)
      requires Valid() && OpenSize() > SizeLimit()
      modifies this`tree, this`oldFileLog, this`fileLog, this`status
      ensures WithinBound(old(tree), tree, 0) && fileLog.Some? == opens && tree.Keys <= old(tree).Keys
      ensures oldFileLog == old(oldFileLog) + 1 && (!opens ==> status == OpenFileFailed)
      ensures opens ==> Valid() && OpenSize() == 0
      ensures opens ==> Retained(Opened(old(tree), today.value, oldFileLog), tree, Lim())
      ensures !opens ==> tree == old(tree)
      ensures opens && Trimmable(Opened(old(tree), today.value, oldFileLog), Lim()) ==> Tidy(tree, Lim())
      ensures opens && Orderly(old(tree), today.value, Lim()) && oldFileLog <= MAX_PART ==> Tidy(tree, Lim())
    {
      hide Tidy, Orderly, Trimmable, Opened, Continues, Retained, LimitsMet, Ends;
      oldFileLog := oldFileLog + 1;
      OpenAppend(today.value, oldFileLog, opens);
      if fileLog.None? {
        status := OpenFileFailed;
        return;
      }
      NextFits(old(tree), today.value, oldFileLog, SizeLimit(), Lim());
      Trim();
    }

    /** Retention after a roll, when a day limit is set: only other files may go, and only
        those that the loop drops. */
    method Trim()
      requires ValidLimits() && today.Some? && OpenIsLast(tree, today.value, oldFileLog)
      modifies this`tree, this`status
      ensures OpenIsLast(tree, today.value, oldFileLog) && OnlyRemoves(old(tree), tree)
      ensures tree[today.value][oldFileLog] == old(tree[today.value][oldFileLog])
      ensures maxFileDay <= 0 ==> tree == old(tree) && status == old(status)
      ensures maxFileDay > 0 ==> exists run :: Ends(run, old(tree), tree, Lim())
      ensures maxFileDay > 0 && Trimmable(old(tree), Lim()) ==> LimitsMet(old(tree), tree, Lim())
      ensures Retained(old(tree), tree, Lim())
      ensures Trimmable(old(tree), Lim()) ==> Tidy(tree, Lim())
    {
      hide LimitsMet, IsLoop, Again, InOrder, WellNumbered, RoundsNeeded;
      ghost var before := tree;
      if maxFileDay > 0 {
        var rounds, guardFired, run := CheckAndDeleteNumberFile();
        assert Ends(run, before, tree, Lim());
      }
      if Trimmable(before, Lim()) { RetainedIsTidy(before, tree, Lim()); }
    }

    /** Opens today's file and applies retention. */
    method StartFile(date: Date, opens: bool)
      requires ValidLimits() && forall d :: d in tree ==> NotAfter(d, date)
      modifies this`tree, this`today, this`oldFileLog, this`fileLog, this`status
      ensures today == Some(date) && WithinBound(old(tree), tree, 0) && fileLog.Some? == opens
      ensures opens ==> Valid() && OpenSize() <= SizeLimit()
      ensures opens && date !in old(tree) ==> oldFileLog == 1 && OpenSize() == 0
      ensures Continues(old(tree), date, oldFileLog, SizeLimit())
      ensures forall p: nat :: Has(old(tree), date, p) ==> p <= oldFileLog
      ensures tree.Keys <= old(tree).Keys + {date}
      ensures opens ==> Retained(Opened(old(tree), date, oldFileLog), tree, Lim())
      ensures !opens ==> tree == if date in old(tree) then old(tree) else old(tree)[date := map[]]
      ensures opens && Trimmable(Opened(old(tree), date, oldFileLog), Lim()) ==> Tidy(tree, Lim())
      ensures opens && Orderly(old(tree), date, Lim()) && oldFileLog <= MAX_PART ==> Tidy(tree, Lim())
    {
      hide Newest, Tidy, Orderly, Trimmable, Opened, Continues, Retained;
      OpenToday(date, opens);
      if fileLog.Some? {
        ghost var untrimmed := tree;
        OpenedFits(old(tree), date, oldFileLog, SizeLimit(), Lim());
        Trim();
        WithinAfterRemoval(old(tree), untrimmed, tree, 0);
      }
    }

    /** Start-up.  Refuses limits that leave no room for two files; otherwise the highest
        part of today's folder is open and within the limit. */
    method LoggerInitFileDay(levelF: int, levelC: int, days: int, maxMb: int, mbForFile: int,
                             date: Date, opens: bool)
      requires mbForFile >= 1 && forall d :: d in tree ==> NotAfter(d, date)
      modifies this
      ensures status == if maxMb <= mbForFile then BadMaxMb else if !opens then OpenFileFailed
                        else if !ValidLevel(levelF) || !ValidLevel(levelC) then BadLevel else Success
      ensures WithinBound(old(tree), tree, 0)
      ensures maxMb > mbForFile && opens ==> Valid() && today == Some(date) && OpenSize() <= SizeLimit()
      ensures maxMb > mbForFile ==> Continues(old(tree), date, oldFileLog, SizeLimit())
      ensures maxMb > mbForFile ==> forall p: nat :: Has(old(tree), date, p) ==> p <= oldFileLog
      ensures maxMb > mbForFile && opens ==> Retained(Opened(old(tree), date, oldFileLog), tree, Lim())
      ensures maxMb > mbForFile && !opens ==>
        fileLog.None? && tree == if date in old(tree) then old(tree) else old(tree)[date := map[]]
      ensures maxMb > mbForFile ==> Lim() == Limits(days, mbForFile, maxMb)
      ensures maxMb <= mbForFile ==>
        tree == old(tree) && today == old(today) && fileLog == old(fileLog) && oldFileLog == old(oldFileLog) &&
        Lim() == old(Lim())
      ensures status != Success ==> levelFile == old(levelFile) && levelConsole == old(levelConsole)
      ensures maxMb > mbForFile && opens && Trimmable(Opened(old(tree), date, oldFileLog), Lim()) ==>
        Tidy(tree, Lim())
      ensures maxMb > mbForFile && opens && Orderly(old(tree), date, Lim()) && oldFileLog <= MAX_PART ==>
        Tidy(tree, Lim())
      ensures status == Success ==>
        levelFile == levelF && levelConsole == levelC &&
        maxMbForFile == mbForFile && maxMbToSave == maxMb && maxFileDay == days
    {
      hide Tidy, Orderly, Trimmable, Opened, Newest, WithinBound, Continues, OpenIsLast, Retained;
      WithinSelf(tree, 0);
      if maxMb <= mbForFile {
        status := BadMaxMb;
        return;
      }
      maxFileDay, maxMbToSave, maxMbForFile := days, maxMb, mbForFile;
      StartFile(date, opens);
      if fileLog.None? {
        status := OpenFileFailed;
        return;
      }
      if !ValidLevel(levelF) || !ValidLevel(levelC) {
        status := BadLevel;
        return;
      }
      levelFile, levelConsole := levelF, levelC;
      status := Success;
    }

    /** Writes one message, with a file system that lets files be opened.  A message that
        reaches the file finds the right file open and within the limit, and only that file
        grows, by the line and its newline. */
    method LoggerGeneral(e: Event)
      requires Valid() && NotAfter(today.value, e.date)
      modifies this`tree, this`today, this`oldFileLog, this`fileLog, this`status
      ensures Valid() && NotAfter(today.value, e.date) && NotAfter(old(today.value), today.value)
      ensures WithinBound(old(tree), tree, SizeLimit() + e.line + 1)
      ensures if e.level <= old(levelFile) && e.level <= old(levelConsole)
              then today == Some(e.date) && OpenSize() <= SizeLimit() + e.line + 1
              else tree == old(tree) && today == old(today)
      ensures e.level <= old(levelFile) && e.level <= old(levelConsole) ==>
        if old(today) == Some(e.date) && old(OpenSize()) <= SizeLimit()
        then oldFileLog == old(oldFileLog) &&
             tree == WithSize(old(tree), e.date, oldFileLog, old(OpenSize()) + e.line + 1)
        else OpenSize() == e.line + 1
      ensures oldFileLog <= old(oldFileLog) + 1 || oldFileLog == 1
      ensures MessageStep(old(Now()), e, Levels(), Lim(), Now())
      ensures tree.Keys <= old(tree).Keys + {e.date}
      ensures Tidy(old(tree), Lim()) && Trimmable(Opened(old(tree), e.date, oldFileLog), Lim()) ==> Tidy(tree, Lim())
      ensures Tidy(old(tree), Lim()) && Orderly(old(tree), e.date, Lim()) && oldFileLog <= MAX_PART ==>
        Tidy(tree, Lim())
    {
      hide Newest, WithinBound, Tidy, Orderly, Trimmable, Opened, OpenIsLast, WithSize, Retained;
      WithinSelf(tree, SizeLimit() + e.line + 1);
      if (levelFile < e.level && fileLog.Some?) || levelConsole < e.level {
        return;
      }
      VerifyLogDay(e.date, true);
      ghost var rolled := tree;
      if e.level <= levelFile && fileLog.Some? {
        WriteLine(old(tree), e.line);
      }
      assert Rolled(old(Now()), e.date, Lim(), rolled, oldFileLog);
    }

    /** Appends a line and its newline to the open file, and flushes; `before` is the tree at
        some earlier time. */
    method WriteLine(ghost before: Tree, line: nat)
      requires Valid() && WithinBound(before, tree, 0) && OpenSize() <= SizeLimit()
      modifies this`tree
      ensures Valid() && OpenSize() == old(OpenSize()) + line + 1 && tree.Keys == old(tree).Keys
      ensures tree == WithSize(old(tree), today.value, oldFileLog, old(OpenSize()) + line + 1)
      ensures WithinBound(before, tree, SizeLimit() + line + 1)
      ensures Tidy(old(tree), Lim()) ==> Tidy(tree, Lim())
    {
      hide Newest, WithinBound, Tidy;
      var (d, p) := fileLog.value;
      GrowOpen(before, tree, d, p, tree[d][p] + line + 1, SizeLimit() + line + 1);
      WriteKeepsTidy(tree, d, p, tree[d][p] + line + 1, Lim());
      tree := WithSize(tree, d, p, tree[d][p] + line + 1);
    }

    /** A whole run: the states it goes through are message steps, each from the last.  With a
        clock that never goes back, no file the logger writes ends up over the limit by more
        than one line, whatever was there before. */
    method Run(events: seq<Event>, longest: nat) returns (ghost trace: seq<Place>)
      requires Valid() && ClockForward(today.value, events)
      requires forall e :: e in events ==> e.line + 1 <= longest
      modifies this`tree, this`today, this`oldFileLog, this`fileLog, this`status
      ensures Valid() && WithinBound(old(tree), tree, SizeLimit() + longest)
      ensures IsTrace(trace, events, Levels(), Lim()) && trace[0] == old(Now()) && trace[|events|] == Now()
    {
      hide Newest, Tidy, Orderly, Trimmable, Opened, OpenIsLast, MessageStep, IsTrace;
      trace := [Now()];
      assert IsTrace(trace, [], Levels(), Lim()) by { TraceBegins(Now(), Levels(), Lim()); }
      assert events[..0] == [];
      for i := 0 to |events|
        invariant Valid() && (forall j :: i <= j < |events| ==> NotAfter(today.value, events[j].date))
        invariant WithinBound(old(tree), tree, SizeLimit() + longest)
        invariant IsTrace(trace, events[..i], Levels(), Lim()) && |trace| == i + 1
        invariant trace[0] == old(Now()) && trace[i] == Now()
      {
        LoggerGeneral(events[i]);
        TraceGrows(trace, events[..i], Levels(), Lim(), events[i], Now());
        trace := trace + [Now()];
        assert events[..i + 1] == events[..i] + [events[i]];
      }
      assert events[..|events|] == events;
    }

    /** A whole run from a tidy tree, as start-up leaves one: while the dates go forward in
        each field, as within a month, both limits hold after every message as retention
        leaves them.  The part numbers in reach bound the length of such a run. */
    method TidyRun(events: seq<Event>) returns (ghost trace: seq<Place>)
      requires Valid() && ClockForward(today.value, events) && FieldsForward(today.value, events)
      requires Tidy(tree, Lim()) && Comparable(tree.Keys) && maxFileDay < 998 && 1 + |events| <= MAX_PART
      requires oldFileLog + |events| <= MAX_PART
      modifies this`tree, this`today, this`oldFileLog, this`fileLog, this`status
      ensures Valid() && IsTrace(trace, events, Levels(), Lim()) && trace[0] == old(Now()) && trace[|events|] == Now()
      ensures forall s :: s in trace ==> Tidy(s.tree, Lim())
    {
      hide Tidy, Orderly, Trimmable, Opened, Newest, WithinBound, OpenIsLast, MessageStep, IsTrace;
      trace := [Now()];
      assert IsTrace(trace, [], Levels(), Lim()) by { TraceBegins(Now(), Levels(), Lim()); }
      assert events[..0] == [];
      for i := 0 to |events|
        invariant Valid() && (forall j :: i <= j < |events| ==> NotAfter(today.value, events[j].date))
        invariant forall j :: i <= j < |events| ==> FieldwiseLeq(today.value, events[j].date)
        invariant Tidy(tree, Lim()) && Comparable(tree.Keys) && oldFileLog + |events| - i <= MAX_PART
        invariant IsTrace(trace, events[..i], Levels(), Lim()) && |trace| == i + 1
        invariant trace[0] == old(Now()) && trace[i] == Now() && forall s :: s in trace ==> Tidy(s.tree, Lim())
      {
        ghost var before := tree;
        NewestOpen(before, today.value, oldFileLog);
        OrderlyNext(before, today.value, events[i].date, Lim());
        LoggerGeneral(events[i]);
        ComparableWith(before, events[i].date, Lim(), tree);
        TraceGrows(trace, events[..i], Levels(), Lim(), events[i], Now());
        trace := trace + [Now()];
        assert events[..i + 1] == events[..i] + [events[i]];
      }
      assert events[..|events|] == events;
    }
  }

  lemma TraceBegins(s: Place, levels: (int, int), lim: Limits)
    requires lim.mb != 0
    ensures IsTrace([s], [], levels, lim)
  {
  }

  lemma NewestOpen(t: Tree, d: Date, p: nat)
    requires OpenIsLast(t, d, p)
    ensures Newest(d, t.Keys)
  {
  }

  ghost predicate ClockForward(start: Date, events: seq<Event>) {
    (forall i :: 0 <= i < |events| ==> NotAfter(start, events[i].date)) &&
    (forall i, j :: 0 <= i < j < |events| ==> NotAfter(events[i].date, events[j].date))
  }

  ghost predicate FieldsForward(start: Date, events: seq<Event>) {
    (forall i :: 0 <= i < |events| ==> FieldwiseLeq(start, events[i].date) && FieldwiseLeq(events[i].date, SCAN_START)) &&
    (forall i, j :: 0 <= i < j < |events| ==> FieldwiseLeq(events[i].date, events[j].date))
  }
}
