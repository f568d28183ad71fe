/** What every run of allocator calls keeps: live blocks are disjoint, aligned and intact,
    the block count is exact, and payloads are preserved. */
module HeapInvariant {
  import opened Bytes
  import opened HeapModel
  import opened Wrappers

  datatype Block = Block(p: nat, size: nat)

  function Start(b: Block): int { b.p - GUARD }

  function End(b: Block): int { b.p + BlockBytes(b.size) }

  /** Header and marker of `b` are as `malloc` wrote them. */
  ghost predicate Intact(bytes: seq<byte>, b: Block) {
    GUARD <= b.p && 0 < b.size && End(b) <= |bytes| <= SIZE_MAX && b.p % ALIGNMENT == 0 &&
    bytes[b.p - GUARD..b.p] == Header(b.size) &&
    bytes[b.p + b.size..b.p + b.size + |MARKER|] == MARKER
  }

  /** Live blocks in address order, headers and markers included, all below the top. */
  ghost predicate Inv(s: State, live: seq<Block>) {
    s.index <= |s.bytes| && s.index % ALIGNMENT == 0 && |s.bytes| <= SIZE_MAX &&
    (forall i :: 0 <= i < |live| ==> Intact(s.bytes, live[i]) && End(live[i]) <= s.index) &&
    (forall i, j :: 0 <= i < j < |live| ==> End(live[i]) <= Start(live[j]))
  }

  function Without(live: seq<Block>, i: nat): seq<Block>
    requires i < |live|
  {
    live[..i] + live[i + 1..]
  }

  // ---------- One block ----------

  lemma HeaderReads(bytes: seq<byte>, p: nat, size: nat)
    requires GUARD <= p <= |bytes| && size <= SIZE_MAX && bytes[p - GUARD..p] == Header(size)
    ensures SizeOf(bytes, p) == size && bytes[p - WORD..p] == Zeros(WORD)
  {
    SizeFits(size);
    assert bytes[p - GUARD..p][..WORD] == bytes[p - GUARD..p - WORD];
    assert bytes[p - GUARD..p][WORD..] == bytes[p - WORD..p];
    assert Header(size)[..WORD] == Word(size, WORD);
    assert Header(size)[WORD..] == Zeros(WORD);
  }

  lemma IntactReads(bytes: seq<byte>, b: Block)
    requires Intact(bytes, b)
    ensures GUARD <= b.p && SizeOf(bytes, b.p) == b.size && Readable(bytes, b.p) && !IsOverrun(bytes, b.p)
  {
    HeaderReads(bytes, b.p, b.size);
    UnwordZero(Zeros(WORD));
    hide Header, Word, Unword, Zeros, SizeOf;
  }

  lemma IntactFrame(a: seq<byte>, c: seq<byte>, b: Block)
    requires Intact(a, b) && SameIn(a, c, Start(b), b.p) && SameIn(a, c, b.p + b.size, b.p + b.size + |MARKER|)
    ensures Intact(c, b)
  {
    SameSlice(a, c, b.p - GUARD, b.p);
    SameSlice(a, c, b.p + b.size, b.p + b.size + |MARKER|);
  }

  lemma LiveAllocated(s: State, live: seq<Block>, i: nat)
    requires Inv(s, live) && i < |live|
    ensures Allocated(s, live[i].p) && SizeOf(s.bytes, live[i].p) == live[i].size
    ensures Readable(s.bytes, live[i].p) && !IsOverrun(s.bytes, live[i].p)
    ensures OnTop(s, live[i].p) <==> End(live[i]) == s.index
    ensures OnTop(s, live[i].p) ==> i == |live| - 1
  {
    hide BlockBytes;
    IntactReads(s.bytes, live[i]);
    if i < |live| - 1 { LaterIsAbove(live, i, i + 1); }
  }

  lemma LaterIsAbove(live: seq<Block>, i: nat, j: nat)
    requires i < j < |live| && End(live[i]) <= Start(live[j])
    ensures End(live[i]) < End(live[j])
  {
  }

  /** Bytes outside `[lo, hi)` kept, blocks outside it stay intact. */
  lemma InvFrame(s: State, t: State, live: seq<Block>, lo: int, hi: int)
    requires Inv(s, live) && |t.bytes| == |s.bytes|
    requires SameIn(s.bytes, t.bytes, 0, lo) && SameIn(s.bytes, t.bytes, hi, |s.bytes|)
    requires t.index <= |t.bytes| && t.index % ALIGNMENT == 0
    requires forall i :: 0 <= i < |live| ==>
      End(live[i]) <= t.index && (End(live[i]) <= lo || hi <= Start(live[i]))
    ensures Inv(t, live)
  {
    forall i | 0 <= i < |live| ensures Intact(t.bytes, live[i]) {
      IntactFrame(s.bytes, t.bytes, live[i]);
    }
  }

  // ---------- malloc ----------

  lemma AlignedTotal(index: nat, size: nat)
    requires index % ALIGNMENT == 0
    ensures (index + Total(size)) % ALIGNMENT == 0 && (index + GUARD) % ALIGNMENT == 0
  {
  }

  lemma NewBlockIntact(s: State, size: nat)
    requires s.index % ALIGNMENT == 0 && |s.bytes| <= SIZE_MAX && Malloc(s, size).1.Some?
    ensures Intact(Malloc(s, size).0.bytes, Block(s.index + GUARD, size))
    ensures SameIn(s.bytes, Malloc(s, size).0.bytes, s.index + Total(size), |s.bytes|)
  {
    AlignedTotal(s.index, size);
    var p := s.index + GUARD;
    var one := Put(s.bytes, s.index, Header(size));
    var two := Put(one, p + size, MARKER);
    PutSpec(s.bytes, s.index, Header(size));
    PutSpec(one, p + size, MARKER);
    SameSlice(one, two, s.index, p);
  }

  /** A successful `malloc` adds one block at the top; a failed one changes only the countdown. */
  lemma MallocKeeps(s: State, live: seq<Block>, size: nat)
    requires Inv(s, live)
    ensures var (t, q) := Malloc(s, size);
            if q.None? then Inv(t, live) && t == s.(countdown := t.countdown)
            else Inv(t, live + [Block(q.value, size)]) && t.count == s.count + 1 && q.value == s.index + GUARD
  {
    var (t, q) := Malloc(s, size);
    if q.Some? {
      NewBlockIntact(s, size);
      AlignedTotal(s.index, size);
      InvFrame(s, t, live, s.index, s.index + Total(size));
      hide Put, Header, Intact, BlockBytes, SameIn;
      InvAppend(t, live, Block(q.value, size), s.index);
    }
  }

  lemma InvAppend(t: State, live: seq<Block>, b: Block, top: int)
    requires Inv(t, live) && Intact(t.bytes, b) && Start(b) == top && End(b) <= t.index
    requires forall i :: 0 <= i < |live| ==> End(live[i]) <= top
    ensures Inv(t, live + [b])
  {
    hide Intact, BlockBytes;
  }

  // ---------- free ----------

  lemma StartAligned(s: State, live: seq<Block>, i: nat)
    requires Inv(s, live) && i < |live|
    ensures Start(live[i]) >= 0 && Start(live[i]) % ALIGNMENT == 0
  {
    assert Intact(s.bytes, live[i]);
  }

  /** Releasing a live block keeps every other one; the top moves down only past that block. */
  lemma ReleaseKeeps(s: State, live: seq<Block>, i: nat)
    requires Inv(s, live) && i < |live|
    ensures Allocated(s, live[i].p)
    ensures var t := Release(s, live[i].p);
            Inv(t, Without(live, i)) && t.count == s.count - 1 && t.bytes == s.bytes &&
            t.countdown == s.countdown &&
            t.index == if End(live[i]) == s.index then Start(live[i]) else s.index
  {
    LiveAllocated(s, live, i);
    hide BlockBytes, Intact;
    AlignedTotal(Start(live[i]), live[i].size);
    var t := Release(s, live[i].p);
    var rest := Without(live, i);
    StartAligned(s, live, i);
    forall k | 0 <= k < |rest|
      ensures Intact(t.bytes, rest[k]) && End(rest[k]) <= t.index
    {
      assert rest[k] == if k < i then live[k] else live[k + 1];
    }
  }

  /** No overrun is ever reported for a block whose header and marker were left alone. */
  lemma FreeKeeps(s: State, live: seq<Block>, i: nat)
    requires Inv(s, live) && i < |live|
    ensures Allocated(s, live[i].p)
    ensures var (t, overrun) := Free(s, Some(live[i].p));
            !overrun && Inv(t, Without(live, i)) && t.count == s.count - 1 && t.bytes == s.bytes
  {
    LiveAllocated(s, live, i);
    ReleaseKeeps(s, live, i);
  }

  // ---------- Overrun detection ----------

  /** With an intact size field, an overrun is reported exactly when the guard word or one
      of the four marker bytes differs from what `malloc` wrote. */
  lemma OverrunExact(s: State, live: seq<Block>, i: nat, bytes: seq<byte>)
    requires Inv(s, live) && i < |live| && |bytes| == |s.bytes|
    requires SameIn(s.bytes, bytes, live[i].p - GUARD, live[i].p - WORD)
    ensures var (p, size) := (live[i].p, live[i].size);
            Readable(bytes, p) &&
            (IsOverrun(bytes, p) <==>
             !(SameIn(s.bytes, bytes, p - WORD, p) &&
               SameIn(s.bytes, bytes, p + size, p + size + |MARKER|)))
  {
    OverrunOfBlock(s.bytes, live[i], bytes);
  }

  /** So `free` and `realloc` of a live block report an overrun exactly then, whatever else in
      memory was overwritten: its payload, other blocks, free space.  The block is released all
      the same, and an overrun ends the `realloc`. */
  lemma OverrunReported(s: State, live: seq<Block>, i: nat, bytes: seq<byte>, size: nat)
    requires Inv(s, live) && i < |live| && |bytes| == |s.bytes|
    requires SameIn(s.bytes, bytes, live[i].p - GUARD, live[i].p - WORD)
    ensures var (p, t) := (live[i].p, s.(bytes := bytes));
            var hit := !(SameIn(s.bytes, bytes, p - WORD, p) &&
                         SameIn(s.bytes, bytes, p + live[i].size, p + live[i].size + |MARKER|));
            Allocated(t, p) && (Free(t, Some(p)).1 <==> hit) && (Realloc(t, Some(p), size).2 <==> hit) &&
            (hit ==> Realloc(t, Some(p), size).1.None? && Realloc(t, Some(p), size).0 == Free(t, Some(p)).0) &&
            Free(t, Some(p)).0 == t.(count := t.count - 1,
                                     index := if End(live[i]) == s.index then p - GUARD else s.index)
  {
    hide Inv, BlockBytes, SameIn, Unword, IsOverrun;
    LiveAllocated(s, live, i);
    OverrunExact(s, live, i, bytes);
    SameSlice(s.bytes, bytes, live[i].p - GUARD, live[i].p - WORD);
    ReportsOverrun(s.(bytes := bytes), live[i].p, size);
    ReleasesAnyway(s, live, i, bytes);
  }

  lemma ReleasesAnyway(s: State, live: seq<Block>, i: nat, bytes: seq<byte>)
    requires Inv(s, live) && i < |live| && |bytes| == |s.bytes|
    requires Allocated(s.(bytes := bytes), live[i].p) && SizeOf(bytes, live[i].p) == live[i].size
    ensures Release(s.(bytes := bytes), live[i].p) ==
            s.(bytes := bytes, count := s.count - 1,
               index := if End(live[i]) == s.index then live[i].p - GUARD else s.index)
  {
    assert Intact(s.bytes, live[i]);
    hide Inv, Intact;
  }

  lemma ReportsOverrun(t: State, p: nat, size: nat)
    requires Allocated(t, p)
    ensures Free(t, Some(p)).1 == IsOverrun(t.bytes, p) == Realloc(t, Some(p), size).2
    ensures Free(t, Some(p)).0 == Release(t, p)
    ensures IsOverrun(t.bytes, p) ==> Realloc(t, Some(p), size).1.None? && Realloc(t, Some(p), size).0 == Release(t, p)
  {
    hide Malloc, Move, Release, IsOverrun;
  }

  lemma OverrunOfBlock(a: seq<byte>, b: Block, c: seq<byte>)
    requires Intact(a, b) && |a| == |c| && SameIn(a, c, b.p - GUARD, b.p - WORD)
    ensures Readable(c, b.p)
    ensures IsOverrun(c, b.p) <==>
            !(SameIn(a, c, b.p - WORD, b.p) && SameIn(a, c, b.p + b.size, b.p + b.size + |MARKER|))
  {
    IntactReads(a, b);
    SameSlice(a, c, b.p - GUARD, b.p - WORD);
    OverrunCore(a, c, b.p, b.size);
  }

  lemma OverrunCore(a: seq<byte>, c: seq<byte>, p: nat, size: nat)
    requires |a| == |c| && Readable(a, p) && !IsOverrun(a, p) && SizeOf(a, p) == size == SizeOf(c, p)
    ensures IsOverrun(c, p) <==>
            !(SameIn(a, c, p - WORD, p) && SameIn(a, c, p + size, p + size + |MARKER|))
  {
    GuardWord(a, c, p);
    SlicesSame(a, c, p + size, p + size + |MARKER|);
  }

  lemma GuardWord(a: seq<byte>, c: seq<byte>, p: nat)
    requires |a| == |c| && WORD <= p <= |a| && Unword(a[p - WORD..p]) == 0
    ensures Unword(c[p - WORD..p]) == 0 <==> SameIn(a, c, p - WORD, p)
  {
    UnwordZero(a[p - WORD..p]);
    UnwordZero(c[p - WORD..p]);
    assert forall k :: p - WORD <= k < p ==> a[k] == a[p - WORD..p][k - (p - WORD)] == 0;
    if Unword(c[p - WORD..p]) == 0 {
      assert forall k :: p - WORD <= k < p ==> c[k] == c[p - WORD..p][k - (p - WORD)];
    }
  }

  lemma SlicesSame(a: seq<byte>, b: seq<byte>, lo: int, hi: int)
    requires |a| == |b| && 0 <= lo <= hi <= |a|
    ensures a[lo..hi] == b[lo..hi] <==> SameIn(a, b, lo, hi)
  {
    if a[lo..hi] == b[lo..hi] {
      forall k | lo <= k < hi ensures a[k] == b[k] {
        assert a[k] == a[lo..hi][k - lo];
        assert b[k] == b[lo..hi][k - lo];
      }
    }
  }

  /** A write inside a live payload keeps everything, so it never causes a report. */
  lemma PokeKeeps(s: State, live: seq<Block>, i: nat, at: nat, data: seq<byte>)
    requires Inv(s, live) && i < |live| && at + |data| <= live[i].size
    ensures live[i].p + at + |data| <= |s.bytes|
    ensures Inv(s.(bytes := Put(s.bytes, live[i].p + at, data)), live)
  {
    hide Inv, Put, SameIn, BlockBytes, Intact;
    LiveInside(s, live, i);
    var at' := live[i].p + at;
    PutSpec(s.bytes, at', data);
    InvPoked(s, s.(bytes := Put(s.bytes, at', data)), live, i, at', at' + |data|);
  }

  lemma InvPoked(s: State, t: State, live: seq<Block>, i: nat, lo: int, hi: int)
    requires Inv(s, live) && i < |live| && t.index == s.index && |t.bytes| == |s.bytes|
    requires live[i].p <= lo <= hi <= live[i].p + live[i].size
    requires SameIn(s.bytes, t.bytes, 0, lo) && SameIn(s.bytes, t.bytes, hi, |s.bytes|)
    ensures Inv(t, live)
  {
    hide BlockBytes, Intact, SameIn;
    forall k | 0 <= k < |live| ensures Intact(t.bytes, live[k]) {
      PokeOne(s, t.bytes, live, i, k, lo, hi);
    }
  }

  lemma PokeOne(s: State, bytes: seq<byte>, live: seq<Block>, i: nat, k: nat, lo: int, hi: int)
    requires Inv(s, live) && i < |live| && k < |live|
    requires live[i].p <= lo <= hi <= live[i].p + live[i].size
    requires SameIn(s.bytes, bytes, 0, lo) && SameIn(s.bytes, bytes, hi, |s.bytes|)
    ensures Intact(bytes, live[k])
  {
    assert Intact(s.bytes, live[k]);
    hide Intact, SameIn;
    if k != i { Apart(live, i, k); }
    IntactAround(s.bytes, bytes, live[k], lo, hi);
  }

  /** A block stays intact when only bytes of its payload, or outside it, are written. */
  lemma IntactAround(a: seq<byte>, c: seq<byte>, b: Block, lo: int, hi: int)
    requires Intact(a, b) && SameIn(a, c, 0, lo) && SameIn(a, c, hi, |a|)
    requires End(b) <= lo || hi <= Start(b) || (b.p <= lo && hi <= b.p + b.size)
    ensures Intact(c, b)
  {
    IntactFrame(a, c, b);
  }

  lemma Apart(live: seq<Block>, i: nat, k: nat)
    requires i < |live| && k < |live| && i != k
    requires forall i, j :: 0 <= i < j < |live| ==> End(live[i]) <= Start(live[j])
    ensures End(live[i]) <= Start(live[k]) || End(live[k]) <= Start(live[i])
  {
  }

  // ---------- calloc ----------

  /** A cleared block is live, all zeros, and nothing below it has changed. */
  lemma CallocKeeps(s: State, live: seq<Block>, total: nat)
    requires Inv(s, live)
    ensures var (t, q) := Cleared(s, total);
            if q.None? then Inv(t, live) && t == s.(countdown := t.countdown)
            else Inv(t, live + [Block(q.value, total)]) && t.count == s.count + 1 &&
                 q.value + total <= |t.bytes| && t.bytes[q.value..q.value + total] == Zeros(total) &&
                 SameIn(s.bytes, t.bytes, 0, s.index)
  {
    hide Put, Malloc, Inv, Intact, BlockBytes, Zeros;
    var (s1, q) := Malloc(s, total);
    MallocKeeps(s, live, total);
    if q.Some? {
      var live1 := live + [Block(q.value, total)];
      assert live1[|live|] == Block(q.value, total);
      PokeKeeps(s1, live1, |live|, 0, Zeros(total));
      PutSpec(s1.bytes, q.value, Zeros(total));
      SameShrink(s1.bytes, Put(s1.bytes, q.value, Zeros(total)), q.value, s.index);
      SameTrans(s.bytes, s1.bytes, Put(s1.bytes, q.value, Zeros(total)), 0, s.index);
    }
  }

  // ---------- realloc ----------

  /** The payload of a block. */
  function Payload(bytes: seq<byte>, b: Block): (w: seq<byte>)
    requires b.p + b.size <= |bytes|
    ensures |w| == b.size
  {
    bytes[b.p..b.p + b.size]
  }

  /** Growing where it stands: same pointer, same bytes below the old size.  It fails exactly
      when the forced-failure countdown has reached zero, and then the block is gone. */
  lemma GrowKeeps(s: State, live: seq<Block>, i: nat, size: nat)
    requires Inv(s, live) && i < |live| && size > live[i].size
    requires Allocated(s, live[i].p) && GrowsInPlace(s, live[i].p, size)
    ensures i == |live| - 1
    ensures var (t, q) := Malloc(Release(s, live[i].p), size);
            (q.None? <==> s.countdown == 0) &&
            (q.None? ==> Inv(t, live[..i]) && t.count == s.count - 1) &&
            (q.Some? ==> q.value == live[i].p && t.count == s.count &&
                         Inv(t, live[..i] + [Block(q.value, size)])) &&
            SameIn(s.bytes, t.bytes, 0, Start(live[i])) &&
            SameIn(s.bytes, t.bytes, live[i].p, live[i].p + live[i].size)
  {
    LiveAllocated(s, live, i);
    ReleaseKeeps(s, live, i);
    assert Without(live, i) == live[..i];
    MallocKeeps(Release(s, live[i].p), live[..i], size);
  }

  /** Growing elsewhere: the old payload is copied and the old block released; on failure
      the old block stays. */
  lemma MoveKeeps(s: State, live: seq<Block>, i: nat, size: nat)
    requires Inv(s, live) && i < |live| && size > live[i].size
    requires Allocated(s, live[i].p) && SizeOf(s.bytes, live[i].p) == live[i].size
    ensures var (t, q) := Move(s, live[i].p, size);
            if q.None? then Inv(t, live) && t == s.(countdown := t.countdown)
            else
              t.count == s.count && Inv(t, Without(live, i) + [Block(q.value, size)]) &&
              SameIn(s.bytes, t.bytes, 0, s.index) && q.value + live[i].size <= |t.bytes| &&
              t.bytes[q.value..q.value + live[i].size] == Payload(s.bytes, live[i])
  {
    LiveInside(s, live, i);
    hide Inv, Intact, BlockBytes, Put, Malloc, Release, Allocated, SameIn, Payload;
    var (s1, q) := Malloc(s, size);
    MallocKeeps(s, live, size);
    if q.Some? {
      var b := live[i];
      CopyInto(s1, live, i, Block(q.value, size));
      var t := s1.(bytes := Put(s1.bytes, q.value, Payload(s1.bytes, b)));
      ReleaseBelow(t, live, i, Block(q.value, size));
      PayloadSame(s.bytes, s1.bytes, b, s.index);
      MoveIs(s, b, size, s1, q.value, t);
      SameShrink(s1.bytes, t.bytes, q.value, s.index);
      SameTrans(s.bytes, s1.bytes, t.bytes, 0, s.index);
    }
  }

  lemma MoveIs(s: State, b: Block, size: nat, s1: State, q: nat, t: State)
    requires Allocated(s, b.p) && SizeOf(s.bytes, b.p) == b.size < size && Malloc(s, size) == (s1, Some(q))
    requires q + b.size <= |s1.bytes| && b.p + b.size <= |s1.bytes|
    requires t == s1.(bytes := Put(s1.bytes, q, Payload(s1.bytes, b))) && Allocated(t, b.p)
    ensures Move(s, b.p, size) == (Release(t, b.p), Some(q))
  {
    hide Put, Malloc, Release;
  }

  lemma PayloadSame(a: seq<byte>, c: seq<byte>, b: Block, hi: int)
    requires SameIn(a, c, 0, hi) && b.p + b.size <= hi && b.p + b.size <= |a|
    ensures Payload(a, b) == Payload(c, b)
  {
  }

  lemma SameTrans(a: seq<byte>, b: seq<byte>, c: seq<byte>, lo: int, hi: int)
    requires SameIn(a, b, lo, hi) && SameIn(b, c, lo, hi)
    ensures SameIn(a, c, lo, hi)
  {
  }

  lemma SameShrink(a: seq<byte>, b: seq<byte>, hi: int, lower: int)
    requires SameIn(a, b, 0, hi) && lower <= hi
    ensures SameIn(a, b, 0, lower)
  {
  }

  lemma PutPayload(bytes: seq<byte>, at: nat, b: Block)
    requires b.p + b.size <= |bytes| && at + b.size <= |bytes|
    ensures var c := Put(bytes, at, Payload(bytes, b));
            SameIn(bytes, c, 0, at) && c[at..at + b.size] == Payload(bytes, b)
  {
    PutSpec(bytes, at, Payload(bytes, b));
  }

  lemma CopyInto(s: State, live: seq<Block>, i: nat, to: Block)
    requires Inv(s, live + [to]) && i < |live| && live[i].size <= to.size
    ensures to.p + live[i].size <= |s.bytes| && live[i].p + live[i].size <= |s.bytes|
    ensures var t := s.(bytes := Put(s.bytes, to.p, Payload(s.bytes, live[i])));
            Inv(t, live + [to]) && SameIn(s.bytes, t.bytes, 0, to.p) &&
            t.bytes[to.p..to.p + live[i].size] == Payload(s.bytes, live[i])
  {
    assert (live + [to])[i] == live[i];
    LiveInside(s, live + [to], i);
    hide Inv, Intact, BlockBytes, Put, SameIn, Payload;
    PokeLast(s, live, to, Payload(s.bytes, live[i]));
    PutPayload(s.bytes, to.p, live[i]);
  }

  lemma PokeLast(s: State, live: seq<Block>, to: Block, data: seq<byte>)
    requires Inv(s, live + [to]) && |data| <= to.size
    ensures to.p + to.size <= |s.bytes|
    ensures Inv(s.(bytes := Put(s.bytes, to.p, data)), live + [to])
  {
    hide Inv, Put, BlockBytes, Intact;
    var all := live + [to];
    assert all[|live|] == to;
    LiveInside(s, all, |live|);
    PokeKeeps(s, all, |live|, 0, data);
  }

  lemma ReleaseBelow(t: State, live: seq<Block>, i: nat, to: Block)
    requires Inv(t, live + [to]) && i < |live|
    ensures Allocated(t, live[i].p)
    ensures Inv(Release(t, live[i].p), Without(live, i) + [to])
    ensures Release(t, live[i].p).bytes == t.bytes && Release(t, live[i].p).count == t.count - 1
  {
    var all := live + [to];
    assert all[i] == live[i];
    hide Inv, Intact, BlockBytes, Release, Allocated, Without;
    ReleaseKeeps(t, all, i);
    WithoutAppended(live, i, to);
  }

  lemma WithoutAppended(live: seq<Block>, i: nat, to: Block)
    requires i < |live|
    ensures Without(live + [to], i) == Without(live, i) + [to]
  {
  }

  lemma LiveInside(s: State, live: seq<Block>, i: nat)
    requires Inv(s, live) && i < |live|
    ensures GUARD <= live[i].p && live[i].p + live[i].size <= s.index <= |s.bytes|
  {
    assert Intact(s.bytes, live[i]);
  }
}
