/** How the folder tree grows between retention rounds: parts are opened and written.  Growing
    by the logger's own parts keeps a tree within the hypotheses of the retention loop. */
module LogGrowth {
  import opened LogTree
  import opened Retention
  import opened RetentionReach
  import opened RetentionLoop

  /** The size of a part file, or -1 when it cannot be opened. */
  function FindSize(t: Tree, d: Date, p: nat): int {
    if Has(t, d, p) then t[d][p] else -1
  }

  /** The tree with part `p` of day `d` at `size` bytes. */
  function WithSize(t: Tree, d: Date, p: nat, size: nat): Tree
    requires d in t
  {
    var parts: Parts := t[d];
    var here: Parts := map[p := size];
    t[d := parts + here]
  }

  /** Part `p` is there already, or is the first, or comes after one that is over the limit. */
  predicate Continues(t: Tree, d: Date, p: nat, limit: int) {
    Has(t, d, p) || p == 1 || (p > 1 && FindSize(t, d, p - 1) > limit)
  }

  /** Every file left is either as it was, or within `bound` bytes. */
  ghost predicate WithinBound(before: Tree, after: Tree, bound: int) {
    forall d, p :: Has(after, d, p) ==>
      (Has(before, d, p) && after[d][p] == before[d][p]) || after[d][p] <= bound
  }

  lemma WithinSelf(t: Tree, bound: int)
    ensures WithinBound(t, t, bound)
  {
  }

  lemma WithinAfterRemoval(a: Tree, b: Tree, c: Tree, bound: int)
    requires WithinBound(a, b, bound) && OnlyRemoves(b, c)
    ensures WithinBound(a, c, bound)
  {
    forall d, p | Has(c, d, p)
      ensures (Has(a, d, p) && c[d][p] == a[d][p]) || c[d][p] <= bound
    {
      assert Has(b, d, p);
    }
  }

  lemma GrowOpen(before: Tree, t: Tree, d: Date, p: nat, size: nat, bound: int)
    requires OpenIsLast(t, d, p) && WithinBound(before, t, 0) && 0 <= size <= bound
    ensures OpenIsLast(WithSize(t, d, p, size), d, p) && WithSize(t, d, p, size)[d][p] == size
    ensures WithinBound(before, WithSize(t, d, p, size), bound)
  {
    assert WithSize(t, d, p, size).Keys == t.Keys;
    assert forall e, q :: Has(WithSize(t, d, p, size), e, q) ==> Has(t, e, q);
  }

  /** Setting a size touches one file, and adds it when it is new. */
  lemma WithSizeExactly(t: Tree, d: Date, p: nat, size: nat)
    requires d in t
    ensures WithSize(t, d, p, size).Keys == t.Keys
    ensures forall e, q :: Has(WithSize(t, d, p, size), e, q) <==> Has(t, e, q) || (e == d && q == p)
    ensures forall e, q :: Has(WithSize(t, d, p, size), e, q) ==>
      WithSize(t, d, p, size)[e][q] == if e == d && q == p then size else t[e][q]
  {
  }

  // ---------- Staying well-kept ----------

  /** The tree once part `p` of today has been opened. */
  function Opened(t: Tree, today: Date, p: nat): Tree {
    var t1 := if today in t then t else t[today := map[]];
    if p in t1[today] then t1 else WithSize(t1, today, p, 0)
  }

  /** Opening leaves every file as it was, and adds the one opened, empty, if it is new. */
  lemma OpenedExactly(t: Tree, today: Date, p: nat)
    ensures Opened(t, today, p).Keys == t.Keys + {today}
    ensures forall e, q :: Has(Opened(t, today, p), e, q) <==> Has(t, e, q) || (e == today && q == p)
    ensures forall e, q :: Has(Opened(t, today, p), e, q) ==>
      Opened(t, today, p)[e][q] == if Has(t, e, q) then t[e][q] else 0
  {
  }

  /** Contiguous parts and, with a day limit, within both limits as retention leaves them. */
  ghost predicate Tidy(t: Tree, lim: Limits)
    requires lim.mb != 0
  {
    WellNumbered(t) &&
    (lim.days > 0 ==> |t| <= lim.days && Megabytes(|Files(t)|, lim.mb) < lim.save + lim.mb)
  }

  /** A tree on which the retention loop meets the limits, whatever the directory order. */
  ghost predicate Trimmable(t: Tree, lim: Limits)
    requires lim.mb != 0
  {
    WellNumbered(t) && (lim.days > 0 ==> InOrder(t, lim) && RoundsNeeded(t, lim) < MAX_ROUNDS)
  }

  /** What retention makes of a tree: with no day limit it stays as it is; otherwise a loop
      has run to its end, and where it can it has left exactly the newest files that the
      limits allow. */
  ghost predicate Retained(t: Tree, t': Tree, lim: Limits)
    requires lim.mb != 0
  {
    if lim.days <= 0 then t' == t
    else (exists run :: Ends(run, t, t', lim)) && (Trimmable(t, lim) ==> LimitsMet(t, t', lim))
  }

  /** Any two days are comparable in all fields, today is at least each of them in each field,
      and there is room for the rounds. */
  ghost predicate Orderly(t: Tree, today: Date, lim: Limits) {
    WellNumbered(t) && Comparable(t.Keys) && FieldwiseLeq(today, SCAN_START) && (lim.days > 0 ==> |t| < 998) &&
    forall d :: d in t ==> FieldwiseLeq(d, today)
  }

  /** `p` is there, or follows the parts that are there. */
  ghost predicate Follows(parts: Parts, p: nat) {
    p <= MAX_PART && (forall q :: q in parts ==> q <= p) && (p in parts || p == 1 || p - 1 in parts)
  }

  lemma SameNumbers(a: Parts, b: Parts)
    requires a.Keys == b.Keys
    ensures |a| == |b| && (Contiguous(a) ==> Contiguous(b))
  {
    assert |a| == |a.Keys| == |b.Keys| == |b|;
    if Contiguous(a) {
      var lo :| PartRange(a, lo);
      assert PartRange(b, lo);
    }
  }

  lemma OneMore(parts: Parts, p: nat, size: nat)
    requires p !in parts
    ensures |parts + map[p := size]| == |parts| + 1
  {
    var after := parts + map[p := size];
    assert after.Keys == parts.Keys + {p};
    assert |after| == |after.Keys| && |parts| == |parts.Keys|;
  }

  /** The number that follows a contiguous folder is the next one. */
  lemma FollowsIsNext(parts: Parts, p: nat) returns (lo: nat)
    requires Follows(parts, p) && p !in parts && Contiguous(parts)
    ensures PartRange(parts, lo) && p == lo + |parts|
  {
    lo :| PartRange(parts, lo);
    if |parts| == 0 {
      lo := p;
    } else {
      assert lo + |parts| - 1 in parts;
    }
  }

  lemma RangeGrows(parts: Parts, p: nat, size: nat, lo: nat)
    requires PartRange(parts, lo) && p == lo + |parts| && p <= MAX_PART
    ensures PartRange(parts + map[p := size], lo)
  {
    OneMore(parts, p, size);
    var after := parts + map[p := size];
    var n := |parts|;
    assert |after| == n + 1;
    forall q: nat ensures q in after <==> lo <= q < lo + n + 1 {
      assert q in after <==> q in parts || q == p;
      assert q in parts <==> lo <= q < lo + n;
    }
  }

  lemma SizeKeepsRange(parts: Parts, p: nat, size: nat)
    requires Follows(parts, p) && Contiguous(parts)
    ensures Contiguous(parts + map[p := size])
  {
    if p in parts {
      SameNumbers(parts, parts + map[p := size]);
    } else {
      var lo := FollowsIsNext(parts, p);
      RangeGrows(parts, p, size, lo);
    }
  }

  lemma SizeKeeps(t: Tree, d: Date, p: nat, size: nat)
    requires WellNumbered(t) && d in t && Follows(t[d], p)
    ensures WellNumbered(WithSize(t, d, p, size)) && WithSize(t, d, p, size).Keys == t.Keys
    ensures |WithSize(t, d, p, size)| == |t|
  {
    var t' := WithSize(t, d, p, size);
    assert t'.Keys == t.Keys;
    assert |t'| == |t'.Keys| == |t.Keys| == |t|;
    SizeKeepsRange(t[d], p, size);
  }

  lemma FolderKeeps(t: Tree, today: Date)
    requires WellNumbered(t) && FieldwiseLeq(today, SCAN_START) && today !in t
    ensures WellNumbered(t[today := map[]]) && |t[today := map[]]| == |t| + 1
  {
    var t' := t[today := map[]];
    assert t'.Keys == t.Keys + {today};
    assert |t'| == |t'.Keys| && |t| == |t.Keys|;
    assert PartRange(map[], 0);
  }

  /** Opening today's next part keeps parts contiguous, and adds at most one day. */
  lemma OpenedKept(t: Tree, today: Date, p: nat, limit: int)
    requires WellNumbered(t) && FieldwiseLeq(today, SCAN_START)
    requires limit >= 0 && Continues(t, today, p, limit) && p <= MAX_PART
    requires forall q: nat :: Has(t, today, q) ==> q <= p
    ensures WellNumbered(Opened(t, today, p)) && Opened(t, today, p).Keys == t.Keys + {today}
    ensures |Opened(t, today, p)| <= |t| + 1
  {
    if today !in t { FolderKeeps(t, today); }
    var t1 := if today in t then t else t[today := map[]];
    assert t1.Keys == t.Keys + {today};
    assert forall q: nat :: q in t1[today] ==> Has(t, today, q);
    assert Follows(t1[today], p);
    hide WellNumbered;
    if p !in t1[today] { SizeKeeps(t1, today, p, 0); }
  }

  /** What opening makes of an orderly tree, retention can deal with. */
  lemma OpenedFits(t: Tree, today: Date, p: nat, limit: int, lim: Limits)
    requires limit >= 0 && Continues(t, today, p, limit) && forall q: nat :: Has(t, today, q) ==> q <= p
    requires lim.mb != 0
    ensures Orderly(t, today, lim) && p <= MAX_PART ==> Trimmable(Opened(t, today, p), lim)
  {
    if Orderly(t, today, lim) && p <= MAX_PART {
      var t' := Opened(t, today, p);
      OpenedKept(t, today, p, limit);
      ComparableWith(t, today, lim, t');
      hide Opened, WellNumbered, Orderly, Continues, Comparable, RoundsNeeded;
      ComparableInOrder(t', lim);
      FewRounds(t', lim);
    }
  }

  /** The part after a full one. */
  lemma NextFits(t: Tree, today: Date, p: nat, limit: int, lim: Limits)
    requires limit >= 0 && p > 0 && OpenIsLast(t, today, p - 1) && FindSize(t, today, p - 1) > limit
    requires lim.mb != 0
    ensures Opened(t, today, p) == WithSize(t, today, p, 0)
    ensures Orderly(t, today, lim) && p <= MAX_PART ==> Trimmable(WithSize(t, today, p, 0), lim)
  {
    OpenedFits(t, today, p, limit, lim);
    assert Opened(t, today, p) == WithSize(t, today, p, 0);
  }

  /** The same days with the same part numbers. */
  ghost predicate SameShape(t: Tree, t': Tree) {
    t'.Keys == t.Keys && forall d :: d in t ==> t'[d].Keys == t[d].Keys
  }

  lemma SameShapeTidy(t: Tree, t': Tree, lim: Limits)
    requires lim.mb != 0 && SameShape(t, t')
    ensures Tidy(t, lim) ==> Tidy(t', lim)
  {
    assert |t'| == |t'.Keys| == |t.Keys| == |t|;
    assert Files(t') == Files(t);
    forall d | d in t' ensures Contiguous(t[d]) ==> Contiguous(t'[d]) {
      SameNumbers(t[d], t'[d]);
    }
    hide Contiguous, Files;
  }

  /** Writing to a file changes no count. */
  lemma WriteKeepsTidy(t: Tree, d: Date, p: nat, size: nat, lim: Limits)
    requires lim.mb != 0 && Has(t, d, p)
    ensures Tidy(t, lim) ==> Tidy(WithSize(t, d, p, size), lim)
  {
    SameShapeTidy(t, WithSize(t, d, p, size), lim);
  }

  lemma RetainedIsTidy(t: Tree, t': Tree, lim: Limits)
    requires lim.mb >= 1 && Retained(t, t', lim) && OnlyRemoves(t, t')
    requires Trimmable(t, lim) && (lim.days > 0 ==> WellKept(t', lim))
    ensures Tidy(t', lim)
  {
    hide InOrder, WellNumbered, NewestFiles, Kept, Megabytes, Ends;
  }

  /** The newest day is at least every other in each field, so a fieldwise later day is too. */
  lemma OrderlyNext(t: Tree, today: Date, next: Date, lim: Limits)
    requires lim.mb != 0 && Tidy(t, lim) && Comparable(t.Keys) && Newest(today, t.Keys) && lim.days < 998
    requires FieldwiseLeq(today, next) && FieldwiseLeq(next, SCAN_START)
    ensures Orderly(t, next, lim)
  {
    forall d | d in t ensures FieldwiseLeq(d, next) {
      assert FieldwiseLeq(d, today) || FieldwiseLeq(today, d);
    }
  }

  lemma ComparableWith(t: Tree, today: Date, lim: Limits, t': Tree)
    requires Orderly(t, today, lim) && t'.Keys <= t.Keys + {today}
    ensures Comparable(t'.Keys)
  {
  }
}
