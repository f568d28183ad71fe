/** The retention loop as a relation on its rounds, whose directory orders are free, and what
    holds of every run of it. */
module RetentionLoop {
  import opened LogTree
  import opened Retention
  import opened RetentionReach

  const MAX_ROUNDS := 1000

  /** The tree, the running count of folders, and the running count of files to drop. */
  datatype LoopState = LoopState(tree: Tree, folders: int, excess: int)

  // ---------- The loop ----------

  function Start(t: Tree, lim: Limits): LoopState
    requires lim.mb != 0
  {
    LoopState(t, lim.days + 1, TreeExcess(t, lim.mb, lim.save))
  }

  predicate Again(s: LoopState, lim: Limits) {
    lim.days < s.folders || s.excess > 0
  }

  function RoundOf(t: Tree, lim: Limits, name: Date, lo: nat): LoopState
    requires lim.mb != 0
  {
    var t1 := AfterDeleteFolder(t, lim.days, name);
    LoopState(AfterRound(t, lim.days, lim.mb, lim.save, name, lo), |t1|,
              ExcessLeft(t1, name, TreeExcess(t1, lim.mb, lim.save)))
  }

  /** A round under some order of the folders. */
  ghost predicate IsRound(s: LoopState, s': LoopState, lim: Limits)
    requires lim.mb != 0
  {
    exists listing, lo :: RoundBy(s.tree, s', lim, listing, lo)
  }

  ghost predicate RoundBy(t: Tree, s': LoopState, lim: Limits, listing: seq<Date>, lo: nat)
    requires lim.mb != 0
  {
    IsListing(listing, t.Keys) &&
    IsLowest(lo, PartsOf(AfterDeleteFolder(t, lim.days, Scan(listing)), Scan(listing))) &&
    s' == RoundOf(t, lim, Scan(listing), lo)
  }

  /** A round that the loop condition asked for. */
  ghost predicate IsNext(s: LoopState, s': LoopState, lim: Limits)
    requires lim.mb != 0
  {
    Again(s, lim) && IsRound(s, s', lim)
  }

  /** The states of the loop so far. */
  ghost predicate IsLoop(run: seq<LoopState>, t: Tree, lim: Limits) {
    lim.mb != 0 && run != [] && run[0] == Start(t, lim) &&
    forall i, j :: 0 <= i && j == i + 1 && j < |run| ==> IsNext(run[i], run[j], lim)
  }

  /** A finished loop: its condition no longer held, or the guard fired. */
  ghost predicate Ends(run: seq<LoopState>, t: Tree, t': Tree, lim: Limits) {
    IsLoop(run, t, lim) && run[|run| - 1].tree == t' &&
    (|run| == MAX_ROUNDS + 1 || !Again(run[|run| - 1], lim))
  }

  /** Some round found too many days and removed nothing: the folder it was to delete was
      not there, which is what the loop reports. */
  ghost predicate Wasted(run: seq<LoopState>, lim: Limits) {
    exists i, j :: 0 <= i && j == i + 1 && j < |run| && WastedStep(run[i], run[j], lim)
  }

  predicate WastedStep(s: LoopState, s': LoopState, lim: Limits) {
    |s.tree| > lim.days && s'.tree == s.tree
  }

  lemma NoneWasted(s: LoopState, lim: Limits)
    ensures !Wasted([s], lim)
  {
  }

  lemma WastedGrows(run: seq<LoopState>, s: LoopState, lim: Limits)
    requires run != []
    ensures Wasted(run + [s], lim) <==> Wasted(run, lim) || WastedStep(run[|run| - 1], s, lim)
  {
    hide WastedStep;
    var longer := run + [s];
    if Wasted(run, lim) {
      var i, j :| 0 <= i && j == i + 1 && j < |run| && WastedStep(run[i], run[j], lim);
      assert longer[i] == run[i] && longer[j] == run[j];
    }
    if WastedStep(run[|run| - 1], s, lim) {
      assert longer[|run| - 1] == run[|run| - 1] && longer[|run|] == s;
    }
  }

  lemma LoopBegins(t: Tree, excess: int, lim: Limits) returns (run: seq<LoopState>)
    requires lim.mb != 0 && excess == Excess(|Files(t)|, lim.mb, lim.save)
    ensures run == [LoopState(t, lim.days + 1, excess)] && IsLoop(run, t, lim)
  {
    run := [Start(t, lim)];
  }

  lemma LoopGoesOn(run: seq<LoopState>, t: Tree, lim: Limits, listing: seq<Date>, lo: nat, s: LoopState)
    returns (longer: seq<LoopState>)
    requires IsLoop(run, t, lim) && Again(run[|run| - 1], lim)
    requires RoundBy(run[|run| - 1].tree, s, lim, listing, lo)
    ensures longer == run + [s] && IsLoop(longer, t, lim)
  {
    assert IsRound(run[|run| - 1], s, lim);
    longer := Extended(run, t, lim, s);
  }

  lemma Extended(run: seq<LoopState>, t: Tree, lim: Limits, s: LoopState) returns (longer: seq<LoopState>)
    requires IsLoop(run, t, lim) && Again(run[|run| - 1], lim) && IsRound(run[|run| - 1], s, lim)
    ensures longer == run + [s] && IsLoop(longer, t, lim)
  {
    longer := run + [s];
    assert IsNext(run[|run| - 1], s, lim);
    hide IsNext, Start;
    assert longer[0] == run[0];
  }

  // ---------- What every round keeps ----------

  ghost predicate OpenSpared(before: Tree, after: Tree) {
    forall d, p :: OpenIsLast(before, d, p) ==> OpenIsLast(after, d, p)
  }

  ghost predicate LoopInv(t0: Tree, s: LoopState, rounds: nat, lim: Limits)
    requires lim.mb != 0
  {
    OnlyRemoves(t0, s.tree) && OpenSpared(t0, s.tree) &&
    (if rounds == 0 then s.tree == t0 && s.folders == lim.days + 1 else |s.tree| <= s.folders) &&
    (WellKept(t0, lim) ==> KeptInv(t0, s, rounds, lim))
  }

  /** On a well-kept tree: after the first round the loop goes on exactly while there is too
      much, each round deals with one day within reach, and the files that stay are settled. */
  ghost predicate KeptInv(t0: Tree, s: LoopState, rounds: nat, lim: Limits)
    requires lim.mb != 0
  {
    WellKept(s.tree, lim) && OnlyOldestGone(t0, s.tree) && s.excess == TreeExcess(s.tree, lim.mb, lim.save) &&
    (rounds == 0 ==> s.tree == t0) &&
    (rounds > 0 ==> (Again(s, lim) <==> Overfull(s.tree, lim)) &&
                    rounds + |ReachedDays(s.tree, lim)| == RoundsNeeded(t0, lim)) &&
    Goal(s.tree, lim.days, lim.mb, lim.save) == Goal(t0, lim.days, lim.mb, lim.save)
  }

  /** The newest files stay, and as many as there are in the newest days less their excess;
      the total limit itself is met in the cases given, and missed by less than a file. */
  ghost predicate LimitsMet(before: Tree, after: Tree, lim: Limits)
    requires lim.mb != 0
  {
    var inDays := |Files(NewestDays(before, lim.days))|;
    var total := Megabytes(|Files(after)|, lim.mb);
    |after| <= lim.days && NewestFiles(before, after, Kept(inDays, lim.mb, lim.save)) &&
    total < lim.save + lim.mb &&
    (total <= lim.save <==> Megabytes(inDays, lim.mb) <= lim.save || lim.save % lim.mb == 0)
  }

  lemma LoopEnd(t0: Tree, s: LoopState, rounds: nat, lim: Limits)
    requires Sane(lim) && rounds > 0 && !Again(s, lim) && LoopInv(t0, s, rounds, lim)
    ensures |s.tree| <= lim.days
    ensures WellKept(t0, lim) ==> LimitsMet(t0, s.tree, lim) && rounds == RoundsNeeded(t0, lim)
  {
    if WellKept(t0, lim) { ReachedWhenOverfull(s.tree, lim); }
    hide WellKept, OnlyRemoves, OnlyOldestGone, Excess, Files, NewestDays, Megabytes;
    if WellKept(t0, lim) {
      NewestAreAll(s.tree, lim.days);
      TotalMetExactly(|Files(NewestDays(t0, lim.days))|, lim.mb, lim.save);
    }
  }

  lemma FewerFolders(t: Tree, t': Tree)
    requires OnlyRemoves(t, t')
    ensures t'.Keys <= t.Keys && |t'| <= |t|
  {
    SubsetCount(t'.Keys, t.Keys);
    assert |t.Keys| == |t| && |t'.Keys| == |t'|;
  }

  lemma RoundRemoves(t: Tree, lim: Limits, name: Date, lo: nat)
    requires lim.mb != 0
    ensures var s' := RoundOf(t, lim, name, lo);
            OnlyRemoves(t, s'.tree) && |s'.tree| <= s'.folders
  {
    var t1 := AfterDeleteFolder(t, lim.days, name);
    var t' := AfterRound(t, lim.days, lim.mb, lim.save, name, lo);
    assert OnlyRemoves(t1, t');
    assert OnlyRemoves(t, t1);
    hide OnlyRemoves, AfterRound, AfterDeleteFolder, ExcessLeft;
    FewerFolders(t1, t');
    RemovesTransitive(t, t1, t');
  }

  /** A round, under any order, only removes and spares the open file. */
  lemma RoundSafe(s: LoopState, s': LoopState, lim: Limits)
    requires Sane(lim) && IsRound(s, s', lim)
    ensures OnlyRemoves(s.tree, s'.tree) && OpenSpared(s.tree, s'.tree) && |s'.tree| <= s'.folders
  {
    var listing, lo :| RoundBy(s.tree, s', lim, listing, lo);
    RoundRemoves(s.tree, lim, Scan(listing), lo);
    hide OnlyRemoves, IsListing, IsLowest, AfterRound, AfterDeleteFolder, ExcessLeft, OpenIsLast;
    forall d, p | OpenIsLast(s.tree, d, p) ensures OpenIsLast(s'.tree, d, p) {
      RoundSparesOpen(s.tree, lim.days, lim.mb, lim.save, listing, lo, d, p);
    }
  }

  /** When a round comes out right its running counts are those of the tree. */
  lemma CountsExact(s: LoopState, s': LoopState, lim: Limits, listing: seq<Date>, lo: nat)
    requires lim.mb != 0 && RoundBy(s.tree, s', lim, listing, lo)
    requires RoundOutcome(s.tree, lim.days, lim.mb, lim.save, Scan(listing), lo)
    requires |s.tree| > lim.days ==> Scan(listing) in s.tree
    ensures Progress(s.tree, s'.tree, lim.days, lim.mb, lim.save)
    ensures s'.excess == TreeExcess(s'.tree, lim.mb, lim.save)
    ensures s'.folders == if |s.tree| > lim.days then |s.tree| - 1 else |s.tree|
  {
    hide WellNumbered, IsListing, IsLowest, Progress, TreeExcess, AfterDeleteFiles, ExcessLeft;
    if |s.tree| > lim.days { FolderCount(s.tree, Scan(listing)); }
  }

  lemma ProgressFolders(s: LoopState, s': LoopState, lim: Limits)
    requires lim.mb != 0 && Progress(s.tree, s'.tree, lim.days, lim.mb, lim.save)
    requires s'.excess == TreeExcess(s'.tree, lim.mb, lim.save)
    requires s'.folders == if |s.tree| > lim.days then |s.tree| - 1 else |s.tree|
    ensures OnlyRemoves(s.tree, s'.tree) && OnlyOldestGone(s.tree, s'.tree) && WellNumbered(s'.tree)
    ensures Overfull(s'.tree, lim) ==> Again(s', lim)
    ensures |s.tree| > lim.days || TreeExcess(s'.tree, lim.mb, lim.save) <= 0 || |s'.tree| < |s.tree| ==>
            (Again(s', lim) ==> Overfull(s'.tree, lim))
  {
    hide OnlyRemoves, OnlyOldestGone, WellNumbered, TreeExcess, TrimExact;
  }

  lemma RoundKept(t0: Tree, s: LoopState, s': LoopState, rounds: nat, lim: Limits)
    requires Sane(lim) && IsRound(s, s', lim) && Again(s, lim) && KeptInv(t0, s, rounds, lim)
    requires OnlyRemoves(t0, s.tree)
    ensures KeptInv(t0, s', rounds + 1, lim)
  {
    var listing, lo :| RoundBy(s.tree, s', lim, listing, lo);
    RoundSpec(s.tree, lim, listing, lo);
    CountsExact(s, s', lim, listing, lo);
    ProgressFolders(s, s', lim);
    GoalStays(s.tree, s'.tree, lim.days, lim.mb, lim.save);
    RemovesTransitive(t0, s.tree, s'.tree);
    InOrderShrinks(s.tree, s'.tree, lim);
    ReachedWhenOverfull(s.tree, lim);
  }

  lemma FolderCount(t: Tree, name: Date)
    requires name in t
    ensures |t - {name}| == |t| - 1
  {
    assert (t - {name}).Keys == t.Keys - {name};
  }

  /** One round keeps the loop invariant. */
  lemma LoopStep(t0: Tree, s: LoopState, s': LoopState, rounds: nat, lim: Limits)
    requires Sane(lim) && LoopInv(t0, s, rounds, lim) && Again(s, lim) && IsRound(s, s', lim)
    ensures LoopInv(t0, s', rounds + 1, lim)
  {
    hide WellKept, OnlyRemoves, OnlyOldestGone, KeptInv, IsRound, Again, OpenIsLast;
    RoundSafe(s, s', lim);
    RemovesTransitive(t0, s.tree, s'.tree);
    if WellKept(t0, lim) { RoundKept(t0, s, s', rounds, lim); }
  }

  lemma {:induction false} LoopKeeps(run: seq<LoopState>, t: Tree, lim: Limits, i: nat)
    requires Sane(lim) && IsLoop(run, t, lim) && i < |run|
    ensures LoopInv(t, run[i], i, lim)
  {
    if i > 0 {
      LoopKeeps(run, t, lim, i - 1);
      LoopStep(t, run[i - 1], run[i], i - 1, lim);
    } else {
      hide WellKept;
    }
  }

  /** What holds after any number of rounds, and at the end of a loop that was not cut short. */
  lemma LoopResults(run: seq<LoopState>, t: Tree, lim: Limits)
    requires Sane(lim) && IsLoop(run, t, lim)
    ensures var s := run[|run| - 1];
            OnlyRemoves(t, s.tree) && OpenSpared(t, s.tree) && (!Again(s, lim) ==> |s.tree| <= lim.days) &&
            (WellKept(t, lim) ==>
               WellKept(s.tree, lim) && OnlyOldestGone(t, s.tree) && |run| - 1 <= RoundsNeeded(t, lim) &&
               (!Again(s, lim) ==> LimitsMet(t, s.tree, lim) && |run| - 1 == RoundsNeeded(t, lim)))
  {
    LoopKeeps(run, t, lim, |run| - 1);
    var s := run[|run| - 1];
    if !Again(s, lim) {
      assert |run| > 1;
      LoopEnd(t, s, |run| - 1, lim);
    }
  }

  // ---------- When the loop gets nowhere ----------

  lemma {:induction false} FoldersShrink(run: seq<LoopState>, t: Tree, lim: Limits, i: nat, j: nat)
    requires Sane(lim) && IsLoop(run, t, lim) && i <= j < |run|
    ensures run[j].tree.Keys <= run[i].tree.Keys
    decreases j
  {
    if i < j {
      FoldersShrink(run, t, lim, i, j - 1);
      RoundSafe(run[j - 1], run[j], lim);
      FewerFolders(run[j - 1].tree, run[j].tree);
      hide OnlyRemoves, OpenSpared, IsNext;
    }
  }

  /** With too many days and the oldest least in each field, the first round drops it. */
  lemma FirstRoundDrops(run: seq<LoopState>, t: Tree, lim: Limits, m: Date)
    requires Sane(lim) && IsLoop(run, t, lim) && |run| > 1
    requires |t| > lim.days && Scannable(t.Keys) && FieldwiseLeast(m, t.Keys)
    ensures m !in run[1].tree
  {
    var listing, lo :| RoundBy(run[0].tree, run[1], lim, listing, lo);
    ScanFindsLeast(listing, t.Keys, m);
  }

  lemma StuckRun(t: Tree, lim: Limits, listing: seq<Date>, n: nat) returns (run: seq<LoopState>)
    requires Sane(lim) && |t| > lim.days && IsListing(listing, t.Keys) && Scan(listing) !in t
    ensures IsLoop(run, t, lim) && |run| == n + 1 && run[n].tree == t
  {
    var name := Scan(listing);
    var lo := LowestExists(PartsOf(AfterDeleteFolder(t, lim.days, name), name));
    run := [Start(t, lim)];
    for i := 0 to n
      invariant IsLoop(run, t, lim) && |run| == i + 1 && run[i].tree == t && run[i].folders > lim.days
    {
      RoundStuck(t, lim.days, lim.mb, lim.save, name, lo);
      run := LoopGoesOn(run, t, lim, listing, lo, RoundOf(t, lim, name, lo));
    }
  }

  /** Exactly when the loop can be made to run out of rounds with nothing removed: the oldest
      day is not least in each field separately.  It holds for any number of rounds, and so
      for those that the guard allows. */
  lemma GuardExactly(t: Tree, lim: Limits, m: Date, n: nat)
    requires Sane(lim) && |t| > lim.days && Scannable(t.Keys) && Oldest(m, t.Keys) && n >= 1
    ensures (exists run: seq<LoopState> :: IsLoop(run, t, lim) && |run| == n + 1 && run[n].tree == t)
       <==> !FieldwiseLeast(m, t.Keys)
  {
    if FieldwiseLeast(m, t.Keys) {
      forall run: seq<LoopState> | IsLoop(run, t, lim) && |run| == n + 1 ensures run[n].tree != t {
        FirstRoundDrops(run, t, lim, m);
        FoldersShrink(run, t, lim, 1, n);
      }
    } else {
      ScanStaysInside(t.Keys, m);
      var listing :| IsListing(listing, t.Keys) && Scan(listing) !in t.Keys;
      var run := StuckRun(t, lim, listing, n);
    }
  }

  // ---------- How many rounds the loop can take ----------

  lemma OrderExists(dates: set<Date>) returns (listing: seq<Date>)
    ensures IsListing(listing, dates)
  {
    listing := ListingStartingWith(dates, []);
  }

  /** A round that cannot be helped: it deals with the oldest day, and a day that is out of
      order waits for its turn. */
  lemma GoodRound(s: LoopState, lim: Limits, m: Date) returns (s': LoopState)
    requires Sane(lim) && WellNumbered(s.tree) && Overfull(s.tree, lim) && FieldwiseLeast(m, s.tree.Keys)
    ensures IsRound(s, s', lim) && WellNumbered(s'.tree) && (Overfull(s'.tree, lim) ==> Again(s', lim))
    ensures ReachedDays(s'.tree, lim) == ReachedDays(s.tree, lim) - {m} && m in ReachedDays(s.tree, lim)
    ensures !InOrder(s.tree, lim) ==> !InOrder(s'.tree, lim)
  {
    var listing := OrderExists(s.tree.Keys);
    var lo := LowestExists(PartsOf(AfterDeleteFolder(s.tree, lim.days, Scan(listing)), Scan(listing)));
    s' := RoundOf(s.tree, lim, Scan(listing), lo);
    assert RoundBy(s.tree, s', lim, listing, lo);
    RoundWorks(s.tree, lim, m, listing, lo);
    CountsExact(s, s', lim, listing, lo);
    ProgressFolders(s, s', lim);
    hide RoundBy, RoundOf, AfterRound, AfterDeleteFolder, InOrder, ReachedDays, Overfull, WellNumbered;
    if !InOrder(s.tree, lim) { DisorderStays(s.tree, s'.tree, m, lim); }
  }

  /** A wasted round: the oldest day is out of order, and the scan names no folder. */
  lemma WastedRound(s: LoopState, lim: Limits, m: Date) returns (s': LoopState)
    requires Sane(lim) && WellNumbered(s.tree) && Overfull(s.tree, lim)
    requires Oldest(m, s.tree.Keys) && !FieldwiseLeast(m, s.tree.Keys)
    ensures IsRound(s, s', lim) && s'.tree == s.tree && Again(s', lim)
  {
    ScanStaysInside(s.tree.Keys, m);
    var listing :| IsListing(listing, s.tree.Keys) && Scan(listing) !in s.tree.Keys;
    var lo := LowestExists(PartsOf(AfterDeleteFolder(s.tree, lim.days, Scan(listing)), Scan(listing)));
    s' := RoundOf(s.tree, lim, Scan(listing), lo);
    assert RoundBy(s.tree, s', lim, listing, lo);
    RoundStuck(s.tree, lim.days, lim.mb, lim.save, Scan(listing), lo);
  }

  /** The loop can be kept going for so many more rounds. */
  ghost predicate Lasts(t: Tree, lim: Limits, more: int)
    requires lim.mb != 0
  {
    !InOrder(t, lim) || |ReachedDays(t, lim)| >= more
  }

  lemma LastsLess(t: Tree, t': Tree, lim: Limits, m: Date, more: nat)
    requires lim.mb != 0 && Lasts(t, lim, more) && more > 0 && (!InOrder(t, lim) ==> !InOrder(t', lim))
    requires m in ReachedDays(t, lim) && ReachedDays(t', lim) == ReachedDays(t, lim) - {m}
    ensures Lasts(t', lim, more - 1)
  {
  }

  lemma LastsOverfull(t: Tree, lim: Limits, more: nat) returns (m: Date)
    requires Sane(lim) && Lasts(t, lim, more) && more > 0
    ensures Overfull(t, lim) && Oldest(m, t.Keys)
  {
    ReachedWhenOverfull(t, lim);
    var d :| d in ReachedDays(t, lim);
    m := OldestExists(t.Keys);
  }

  lemma OneMoreRound(s: LoopState, lim: Limits, more: nat) returns (s': LoopState)
    requires Sane(lim) && WellNumbered(s.tree) && Lasts(s.tree, lim, more) && more > 0
    ensures Overfull(s.tree, lim)
    ensures IsRound(s, s', lim) && WellNumbered(s'.tree) && Lasts(s'.tree, lim, more - 1)
    ensures Overfull(s'.tree, lim) ==> Again(s', lim)
  {
    var m := LastsOverfull(s.tree, lim, more);
    hide WellNumbered, Overfull, InOrder, ReachedDays, FieldwiseLeast, Oldest, Again, IsRound;
    if FieldwiseLeast(m, s.tree.Keys) {
      hide Lasts;
      s' := GoodRound(s, lim, m);
      LastsLess(s.tree, s'.tree, lim, m, more);
    } else {
      s' := WastedRound(s, lim, m);
    }
  }

  lemma LongRun(t: Tree, lim: Limits, n: nat) returns (run: seq<LoopState>)
    requires Sane(lim) && WellNumbered(t) && Lasts(t, lim, n)
    ensures IsLoop(run, t, lim) && |run| == n + 1
  {
    run := [Start(t, lim)];
    hide WellNumbered, Lasts, IsRound, IsLoop;
    assert IsLoop(run, t, lim) by { StartsLoop(t, lim); }
    for i := 0 to n
      invariant IsLoop(run, t, lim) && |run| == i + 1 && WellNumbered(run[i].tree) && Lasts(run[i].tree, lim, n - i)
      invariant Overfull(run[i].tree, lim) ==> Again(run[i], lim)
    {
      var s := OneMoreRound(run[i], lim, n - i);
      run := Extended(run, t, lim, s);
    }
  }

  lemma StartsLoop(t: Tree, lim: Limits)
    requires lim.mb != 0
    ensures IsLoop([Start(t, lim)], t, lim)
  {
  }

  /** Exactly how long the loop can be made to take, by an unlucky directory order: two or
      more rounds are possible if and only if that many days are within reach, or one of them
      is out of order, and then any number is. */
  lemma RoundsExactly(t: Tree, lim: Limits, n: nat)
    requires Sane(lim) && WellNumbered(t) && n >= 2
    ensures (exists run: seq<LoopState> :: IsLoop(run, t, lim) && |run| == n + 1)
       <==> !InOrder(t, lim) || |ReachedDays(t, lim)| >= n
  {
    if Lasts(t, lim, n) {
      var run := LongRun(t, lim, n);
    } else {
      forall run: seq<LoopState> | IsLoop(run, t, lim) ensures |run| != n + 1 {
        LoopResults(run, t, lim);
      }
    }
  }

  lemma FewRounds(t: Tree, lim: Limits)
    requires lim.mb != 0
    ensures RoundsNeeded(t, lim) <= if t == map[] then 1 else |t|
  {
    FewReached(t, lim);
    assert |t.Keys| == |t|;
  }

  lemma FewReached(t: Tree, lim: Limits)
    requires lim.mb != 0
    ensures |ReachedDays(t, lim)| <= |t|
  {
    SubsetCount(ReachedDays(t, lim), t.Keys);
    assert |t.Keys| == |t|;
  }

  /** Exactly when the guard can fire on a tree that the loop could otherwise deal with: some
      day whose turn comes is not least in each field among the days from it on. */
  lemma GuardFiresExactly(t: Tree, lim: Limits)
    requires Sane(lim) && WellNumbered(t) && |t| < MAX_ROUNDS
    ensures (exists run: seq<LoopState> :: IsLoop(run, t, lim) && |run| == MAX_ROUNDS + 1)
       <==> exists d :: d in ReachedDays(t, lim) && !FieldwiseLeast(d, DaysFrom(t, d).Keys)
  {
    RoundsExactly(t, lim, MAX_ROUNDS);
    FewReached(t, lim);
  }

  /** Two days are enough to see it: one within reach, and a later one smaller in a field. */
  lemma GuardFiresFor(t: Tree, lim: Limits, d: Date, e: Date)
    requires Sane(lim) && WellNumbered(t) && |t| < MAX_ROUNDS
    requires d in ReachedDays(t, lim) && e in DaysFrom(t, d) && !FieldwiseLeq(d, e)
    ensures exists run: seq<LoopState> :: IsLoop(run, t, lim) && |run| == MAX_ROUNDS + 1
  {
    GuardFiresExactly(t, lim);
  }

  lemma FolderSize(t: Tree, days: set<Date>)
    requires t.Keys == days
    ensures |t| == |days|
  {
    assert |t.Keys| == |t|;
  }

  /** A day goes before the loop gets stuck: the oldest of three is least in each field, the
      next one is not. */
  lemma StuckOnSecond(t: Tree, x: Date, y: Date, z: Date)
    requires WellNumbered(t) && t.Keys == {x, y, z} && Before(x, y) && Before(y, z) && !FieldwiseLeq(y, z)
    ensures exists run: seq<LoopState> :: IsLoop(run, t, Limits(1, 1, 2)) && |run| == MAX_ROUNDS + 1
  {
    ThreeDays(t, x, y, z);
    hide WellNumbered, IsLoop, TreeExcess, DaysFrom, Before, FieldwiseLeq;
    assert Overfull(DaysFrom(t, y), Limits(1, 1, 2));
    GuardFiresFor(t, Limits(1, 1, 2), y, z);
  }

  /** A witness for that. */
  lemma GuardAfterDrop(t: Tree)
    requires t.Keys == {Date(2024, 1, 1), Date(2024, 1, 31), Date(2024, 2, 1)} && WellNumbered(t)
    ensures FieldwiseLeast(Date(2024, 1, 1), t.Keys)
    ensures exists run: seq<LoopState> :: IsLoop(run, t, Limits(1, 1, 2)) && |run| == MAX_ROUNDS + 1
  {
    hide WellNumbered, IsLoop;
    StuckOnSecond(t, Date(2024, 1, 1), Date(2024, 1, 31), Date(2024, 2, 1));
  }

  lemma ThreeDays(t: Tree, x: Date, y: Date, z: Date)
    requires t.Keys == {x, y, z} && Before(x, y) && Before(y, z)
    ensures |t| == 3 && y in t && z in DaysFrom(t, y) && |DaysFrom(t, y)| == 2
  {
    assert DaysFrom(t, y).Keys == {y, z};
    hide DaysFrom;
    assert y != z && x != y && x != z;
    hide Before;
    FolderSize(t, {x, y, z});
    FolderSize(DaysFrom(t, y), {y, z});
  }

  /** A witness with no day too many: files alone. */
  lemma GuardForFiles(t: Tree, days: int)
    requires t.Keys == {Date(2024, 1, 31), Date(2024, 2, 1)} && WellNumbered(t) && |Files(t)| >= 3 && days >= 2
    ensures |t| <= days
    ensures exists run: seq<LoopState> :: IsLoop(run, t, Limits(days, 1, 2)) && |run| == MAX_ROUNDS + 1
  {
    var y, z := Date(2024, 1, 31), Date(2024, 2, 1);
    FolderSize(t, {y, z});
    ExcessPositive(|Files(t)|, 1, 2);
    hide WellNumbered, IsLoop, Files, Excess;
    FromOldest(t, y);
    GuardFiresFor(t, Limits(days, 1, 2), y, z);
  }
}
