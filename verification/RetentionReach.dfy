/** The days that the retention loop gets to, and what a round does when each of them is one
    the scan can find: least in each field among the days that are left. */
module RetentionReach {
  import opened LogTree
  import opened Retention

  datatype Limits = Limits(days: int, mb: int, save: int)

  predicate Sane(lim: Limits) {
    lim.days >= 1 && 1 <= lim.mb < lim.save
  }

  /** More days, or more files, than the limits allow. */
  ghost predicate Overfull(t: Tree, lim: Limits)
    requires lim.mb != 0
  {
    |t| > lim.days || TreeExcess(t, lim.mb, lim.save) > 0
  }

  /** What is left when all days before `d` are gone. */
  ghost function DaysFrom(t: Tree, d: Date): Tree {
    map e | e in t && NotAfter(d, e) :: t[e]
  }

  /** The days whose turn comes: with all earlier ones gone there is still too much. */
  ghost function ReachedDays(t: Tree, lim: Limits): set<Date>
    requires lim.mb != 0
  {
    set d | d in t && Overfull(DaysFrom(t, d), lim)
  }

  /** Each day whose turn comes is least in each field among the days from it on. */
  ghost predicate InOrder(t: Tree, lim: Limits)
    requires lim.mb != 0
  {
    forall d :: d in ReachedDays(t, lim) ==> FieldwiseLeast(d, DaysFrom(t, d).Keys)
  }

  /** Where retention works as meant: contiguous parts, and the days it gets to in order. */
  ghost predicate WellKept(t: Tree, lim: Limits)
    requires lim.mb != 0
  {
    WellNumbered(t) && InOrder(t, lim)
  }

  /** One round for each day whose turn comes, and one in any case. */
  ghost function RoundsNeeded(t: Tree, lim: Limits): nat
    requires lim.mb != 0
  {
    if ReachedDays(t, lim) == {} then 1 else |ReachedDays(t, lim)|
  }

  lemma LowestExists(parts: Parts) returns (lo: nat)
    ensures IsLowest(lo, parts)
  {
    lo := MAX_PART;
    var rest := parts.Keys;
    while rest != {}
      invariant rest <= parts.Keys && lo <= MAX_PART && (lo == MAX_PART || lo in parts)
      invariant forall p :: p in parts && p !in rest ==> lo <= p
      decreases rest
    {
      var p :| p in rest;
      if p <= lo { lo := p; }
      rest := rest - {p};
    }
  }

  // ---------- Which days are reached ----------

  /** Days that are comparable in all fields at once are in order, whatever the limits. */
  lemma ComparableInOrder(t: Tree, lim: Limits)
    requires lim.mb != 0 && Comparable(t.Keys)
    ensures InOrder(t, lim)
  {
    forall d | d in t ensures FieldwiseLeast(d, DaysFrom(t, d).Keys) {
      forall e | e in DaysFrom(t, d) ensures FieldwiseLeq(d, e) {
        assert FieldwiseLeq(d, e) || FieldwiseLeq(e, d);
      }
    }
  }

  lemma MoreFilesOver(few: nat, many: nat, mb: int, save: int)
    requires mb >= 1 && few <= many && Excess(few, mb, save) > 0
    ensures Excess(many, mb, save) > 0
  {
    ExcessPositive(few, mb, save);
    ExcessPositive(many, mb, save);
    MoreMegabytes(few, many, mb);
  }

  lemma MoreMegabytes(few: nat, many: nat, mb: int)
    requires mb >= 1 && few <= many
    ensures Megabytes(few, mb) <= Megabytes(many, mb)
  {
  }

  lemma OverfullGrows(t: Tree, u: Tree, lim: Limits)
    requires lim.mb >= 1 && OnlyRemoves(u, t) && Overfull(t, lim)
    ensures Overfull(u, lim)
  {
    FilesShrink(u, t);
    if TreeExcess(t, lim.mb, lim.save) > 0 {
      MoreFilesOver(|Files(t)|, |Files(u)|, lim.mb, lim.save);
    }
  }

  lemma FilesShrink(t: Tree, t': Tree)
    requires OnlyRemoves(t, t')
    ensures |Files(t')| <= |Files(t)| && |t'| <= |t|
  {
    SubsetCount(Files(t'), Files(t));
    SubsetCount(t'.Keys, t.Keys);
    assert |t.Keys| == |t| && |t'.Keys| == |t'|;
  }

  /** Removing anything brings no new day within reach. */
  lemma ReachedShrink(t: Tree, t': Tree, lim: Limits)
    requires lim.mb >= 1 && OnlyRemoves(t, t')
    ensures ReachedDays(t', lim) <= ReachedDays(t, lim)
  {
    forall d | d in ReachedDays(t', lim) ensures d in ReachedDays(t, lim) {
      assert OnlyRemoves(DaysFrom(t, d), DaysFrom(t', d));
      OverfullGrows(DaysFrom(t', d), DaysFrom(t, d), lim);
    }
  }

  lemma InOrderShrinks(t: Tree, t': Tree, lim: Limits)
    requires lim.mb >= 1 && OnlyRemoves(t, t') && InOrder(t, lim)
    ensures InOrder(t', lim)
  {
    ReachedShrink(t, t', lim);
    forall d | d in ReachedDays(t', lim) ensures FieldwiseLeast(d, DaysFrom(t', d).Keys) {
      assert FieldwiseLeast(d, DaysFrom(t, d).Keys);
      assert DaysFrom(t', d).Keys <= DaysFrom(t, d).Keys;
    }
  }

  lemma FromOldest(t: Tree, m: Date)
    requires Oldest(m, t.Keys)
    ensures DaysFrom(t, m) == t
  {
  }

  /** A day is within reach exactly when there is too much; the oldest is, if any is. */
  lemma ReachedWhenOverfull(t: Tree, lim: Limits)
    requires Sane(lim)
    ensures ReachedDays(t, lim) != {} <==> Overfull(t, lim)
    ensures forall m :: Oldest(m, t.Keys) ==> (m in ReachedDays(t, lim) <==> Overfull(t, lim))
  {
    forall m | Oldest(m, t.Keys) ensures m in ReachedDays(t, lim) <==> Overfull(t, lim) {
      FromOldest(t, m);
    }
    if Overfull(t, lim) {
      if t == map[] {
        NothingIsNotOverfull(lim);
        assert false;
      }
      var m := OldestExists(t.Keys);
    } else {
      forall d | d in t ensures d !in ReachedDays(t, lim) {
        if d in ReachedDays(t, lim) {
          assert OnlyRemoves(t, DaysFrom(t, d));
          OverfullGrows(DaysFrom(t, d), t, lim);
          assert false;
        }
      }
    }
  }

  lemma NothingIsNotOverfull(lim: Limits)
    requires Sane(lim)
    ensures !Overfull(map[], lim)
  {
    assert Files(map[]) == {};
    ExcessPositive(0, lim.mb, lim.save);
  }

  lemma SameFromLater(t: Tree, t': Tree, m: Date, d: Date)
    requires Oldest(m, t.Keys) && t' - {m} == t - {m} && d in t && d != m
    ensures d in t' && DaysFrom(t', d) == DaysFrom(t, d)
  {
    assert d in t - {m};
    assert forall e :: e != m ==> (e in t <==> e in t') && (e in t ==> t'[e] == t[e]) by {
      assert forall e :: e != m ==> (e in t <==> e in t - {m}) && (e in t' <==> e in t' - {m});
      assert forall e :: e in t - {m} ==> t[e] == (t - {m})[e] == (t' - {m})[e] == t'[e];
    }
  }

  lemma LaterStayReached(t: Tree, t': Tree, m: Date, lim: Limits)
    requires lim.mb != 0 && Oldest(m, t.Keys) && t' - {m} == t - {m}
    ensures ReachedDays(t, lim) - {m} <= ReachedDays(t', lim)
  {
    hide Overfull, DaysFrom, Oldest;
    forall d | d in ReachedDays(t, lim) && d != m ensures d in ReachedDays(t', lim) {
      SameFromLater(t, t', m, d);
    }
  }

  /** Dealing with the oldest day takes exactly that one out of reach. */
  lemma ReachedFalls(t: Tree, t': Tree, m: Date, lim: Limits)
    requires Sane(lim) && Oldest(m, t.Keys) && Overfull(t, lim)
    requires t' - {m} == t - {m} && OnlyRemoves(t, t') && (m in t' ==> !Overfull(t', lim))
    ensures m in ReachedDays(t, lim) && ReachedDays(t', lim) == ReachedDays(t, lim) - {m}
  {
    ReachedWhenOverfull(t, lim);
    ReachedWhenOverfull(t', lim);
    ReachedInside(t', lim);
    hide Overfull, OnlyRemoves, Oldest, ReachedDays;
    ReachedShrink(t, t', lim);
    LaterStayReached(t, t', m, lim);
  }

  lemma ReachedInside(t: Tree, lim: Limits)
    requires lim.mb != 0
    ensures ReachedDays(t, lim) <= t.Keys
  {
  }

  /** A day that is out of order stays so until its turn comes. */
  lemma DisorderStays(t: Tree, t': Tree, m: Date, lim: Limits)
    requires Sane(lim) && Oldest(m, t.Keys) && FieldwiseLeast(m, t.Keys) && !InOrder(t, lim)
    requires t' - {m} == t - {m} && ReachedDays(t', lim) == ReachedDays(t, lim) - {m}
    ensures !InOrder(t', lim)
  {
    FromOldest(t, m);
    var d :| d in ReachedDays(t, lim) && !FieldwiseLeast(d, DaysFrom(t, d).Keys);
    SameFromLater(t, t', m, d);
    assert d in ReachedDays(t', lim);
  }

  // ---------- Rounds ----------

  /** When there is too much and the oldest day is least in each field, a round under any
      order deals with that day: it goes, or its lowest parts go until nothing is too much. */
  lemma RoundWorks(t: Tree, lim: Limits, m: Date, listing: seq<Date>, lo: nat)
    requires Sane(lim) && WellNumbered(t) && Overfull(t, lim) && FieldwiseLeast(m, t.Keys)
    requires IsListing(listing, t.Keys)
    requires IsLowest(lo, PartsOf(AfterDeleteFolder(t, lim.days, Scan(listing)), Scan(listing)))
    ensures Scan(listing) == m && m in t && Oldest(m, t.Keys)
    ensures RoundOutcome(t, lim.days, lim.mb, lim.save, m, lo)
    ensures var t' := AfterRound(t, lim.days, lim.mb, lim.save, m, lo);
            t' - {m} == t - {m} && (m in t' ==> !Overfull(t', lim)) &&
            ReachedDays(t', lim) == ReachedDays(t, lim) - {m} && m in ReachedDays(t, lim)
  {
    ScanFindsLeast(listing, t.Keys, m);
    var t' := AfterRound(t, lim.days, lim.mb, lim.save, m, lo);
    OldestDealtWith(t, lim, m, lo);
    OutcomeRemoves(t, lim, m, lo);
    hide Overfull, WellNumbered, FieldwiseLeast, ReachedDays, AfterRound, IsListing, IsLowest, RoundOutcome;
    ReachedFalls(t, t', m, lim);
  }

  lemma OldestDealtWith(t: Tree, lim: Limits, m: Date, lo: nat)
    requires Sane(lim) && WellNumbered(t) && Overfull(t, lim) && Oldest(m, t.Keys)
    requires IsLowest(lo, PartsOf(AfterDeleteFolder(t, lim.days, m), m))
    ensures RoundOutcome(t, lim.days, lim.mb, lim.save, m, lo)
    ensures var t' := AfterRound(t, lim.days, lim.mb, lim.save, m, lo);
            t' - {m} == t - {m} && (m in t' ==> !Overfull(t', lim))
  {
    var t' := AfterRound(t, lim.days, lim.mb, lim.save, m, lo);
    if |t| > lim.days {
      RoundDropsDay(t, lim.days, lim.mb, lim.save, m, lo);
      assert t' - {m} == t - {m};
    } else {
      RoundTrims(t, lim.days, lim.mb, lim.save, m, lo);
      TrimLocal(t, m, TreeExcess(t, lim.mb, lim.save), lo);
      if m in t' { SameCount(t, t', m); }
    }
  }

  lemma SameCount(t: Tree, t': Tree, m: Date)
    requires m in t && m in t' && t' - {m} == t - {m}
    ensures |t'| == |t|
  {
    assert t'.Keys == (t' - {m}).Keys + {m};
    assert t.Keys == (t - {m}).Keys + {m};
    assert |t'| == |t'.Keys| && |t| == |t.Keys|;
  }

  lemma RoundRests(t: Tree, lim: Limits, name: Date, lo: nat)
    requires Sane(lim) && WellNumbered(t) && !Overfull(t, lim)
    ensures RoundOutcome(t, lim.days, lim.mb, lim.save, name, lo)
    ensures ReachedDays(AfterRound(t, lim.days, lim.mb, lim.save, name, lo), lim) == {}
  {
    ReachedWhenOverfull(t, lim);
    RoundIdle(t, lim.days, lim.mb, lim.save, name, lo);
    OutcomeRemoves(t, lim, name, lo);
    hide WellNumbered, Overfull, RoundOutcome, AfterRound, ReachedDays, OnlyRemoves;
    ReachedShrink(t, AfterRound(t, lim.days, lim.mb, lim.save, name, lo), lim);
  }

  lemma OutcomeRemoves(t: Tree, lim: Limits, name: Date, lo: nat)
    requires lim.mb != 0 && RoundOutcome(t, lim.days, lim.mb, lim.save, name, lo)
    ensures OnlyRemoves(t, AfterRound(t, lim.days, lim.mb, lim.save, name, lo))
  {
    hide OnlyRemoves, AfterRound;
  }

  lemma FewDays(t: Tree, lim: Limits)
    requires lim.mb != 0 && !Overfull(t, lim)
    ensures |t| <= lim.days
  {
  }

  lemma NextInOrder(t: Tree, lim: Limits) returns (m: Date)
    requires Sane(lim) && InOrder(t, lim) && Overfull(t, lim)
    ensures FieldwiseLeast(m, t.Keys)
  {
    ReachedWhenOverfull(t, lim);
    var d :| d in ReachedDays(t, lim);
    m := OldestExists(t.Keys);
    FromOldest(t, m);
  }

  /** One round on a well-kept tree, whatever order the folders were listed in. */
  lemma RoundSpec(t: Tree, lim: Limits, listing: seq<Date>, lo: nat)
    requires Sane(lim) && WellKept(t, lim) && IsListing(listing, t.Keys)
    requires IsLowest(lo, PartsOf(AfterDeleteFolder(t, lim.days, Scan(listing)), Scan(listing)))
    ensures RoundOutcome(t, lim.days, lim.mb, lim.save, Scan(listing), lo)
    ensures |t| > lim.days ==> Scan(listing) in t
    ensures var t' := AfterRound(t, lim.days, lim.mb, lim.save, Scan(listing), lo);
            |ReachedDays(t', lim)| == if Overfull(t, lim) then |ReachedDays(t, lim)| - 1 else 0
  {
    hide Overfull, WellNumbered, InOrder, FieldwiseLeast, ReachedDays, AfterRound, AfterDeleteFolder, RoundOutcome,
         IsListing, IsLowest, Oldest;
    if Overfull(t, lim) {
      var m := NextInOrder(t, lim);
      RoundWorks(t, lim, m, listing, lo);
    } else {
      FewDays(t, lim);
      RoundRests(t, lim, Scan(listing), lo);
    }
  }

  /** Exactly when no round that is asked for is wasted, whatever the order: the oldest day
      is least in each field separately. */
  lemma NeverStuckExactly(t: Tree, lim: Limits, m: Date)
    requires Sane(lim) && Overfull(t, lim) && Scannable(t.Keys) && Oldest(m, t.Keys)
    requires |t| <= lim.days ==> WellNumbered(t)
    ensures (forall listing, lo ::
               IsListing(listing, t.Keys) &&
               IsLowest(lo, PartsOf(AfterDeleteFolder(t, lim.days, Scan(listing)), Scan(listing))) ==>
               AfterRound(t, lim.days, lim.mb, lim.save, Scan(listing), lo) != t)
       <==> FieldwiseLeast(m, t.Keys)
  {
    if FieldwiseLeast(m, t.Keys) {
      forall listing, lo |
          IsListing(listing, t.Keys) &&
          IsLowest(lo, PartsOf(AfterDeleteFolder(t, lim.days, Scan(listing)), Scan(listing)))
        ensures AfterRound(t, lim.days, lim.mb, lim.save, Scan(listing), lo) != t
      {
        ScanFindsLeast(listing, t.Keys, m);
        if |t| > lim.days {
          RoundStuck(t, lim.days, lim.mb, lim.save, Scan(listing), lo);
        } else {
          RoundWorks(t, lim, m, listing, lo);
        }
      }
    } else {
      ScanStaysInside(t.Keys, m);
      var listing :| IsListing(listing, t.Keys) && Scan(listing) !in t.Keys;
      var lo := LowestExists(PartsOf(AfterDeleteFolder(t, lim.days, Scan(listing)), Scan(listing)));
      RoundStuck(t, lim.days, lim.mb, lim.save, Scan(listing), lo);
    }
  }

  /** A witness: the last day of a year and the first of the next, whatever they hold. */
  lemma StuckAcrossNewYear(dec: Parts, jan: Parts, mb: int, save: int, lo: nat)
    requires mb != 0
    ensures var t: Tree := map[Date(2023, 12, 31) := dec, Date(2024, 1, 1) := jan];
            |t| > 1 && exists listing ::
              IsListing(listing, t.Keys) && AfterRound(t, 1, mb, save, Scan(listing), lo) == t
  {
    var t: Tree := map[Date(2023, 12, 31) := dec, Date(2024, 1, 1) := jan];
    assert t.Keys == {Date(2023, 12, 31), Date(2024, 1, 1)};
    assert |t.Keys| == 2;
    ScanAcrossNewYear();
    var listing :| IsListing(listing, t.Keys) && Scan(listing) !in t.Keys;
    RoundStuck(t, 1, mb, save, Scan(listing), lo);
  }
}
