/** Whole runs of allocator calls, `realloc` as its callers see it, and bracketed programs
    that free in the reverse order of allocation. */
module HeapRuns {
  import opened Bytes
  import opened HeapModel
  import opened Wrappers
  import opened HeapInvariant

  function Min(a: nat, b: nat): nat { if a <= b then a else b }

  // ---------- realloc ----------

  /** The live blocks after `realloc` of block `i`. */
  function LiveAfterRealloc(s: State, live: seq<Block>, i: nat, size: nat): seq<Block>
    requires i < |live| && Allocated(s, live[i].p)
  {
    var (t, q, overrun) := Realloc(s, Some(live[i].p), size);
    if size == 0 then Without(live, i)
    else if size <= live[i].size then live
    else if GrowsInPlace(s, live[i].p, size) then
      if q.None? then Without(live, i) else Without(live, i) + [Block(q.value, size)]
    else if q.None? then live
    else Without(live, i) + [Block(q.value, size)]
  }

  ghost predicate OthersKept(s: State, t: State, live: seq<Block>, i: nat) {
    forall k :: 0 <= k < |live| && k != i ==> PayloadKept(s, t, live[k])
  }

  ghost predicate PayloadKept(s: State, t: State, b: Block) {
    SameIn(s.bytes, t.bytes, b.p, b.p + b.size)
  }

  lemma OthersBelow(s: State, t: State, live: seq<Block>, i: nat, hi: int)
    requires Inv(s, live) && SameIn(s.bytes, t.bytes, 0, hi)
    requires forall k :: 0 <= k < |live| && k != i ==> End(live[k]) <= hi
    ensures OthersKept(s, t, live, i)
  {
    forall k | 0 <= k < |live| && k != i ensures PayloadKept(s, t, live[k]) {
      assert live[k].p + live[k].size <= End(live[k]) && GUARD <= live[k].p by {
        assert Intact(s.bytes, live[k]);
      }
    }
  }

  /** The invariant, the count and the other payloads are kept; a failure that keeps the
      block changes no byte; on success the first min(old, new) bytes are where the result points. */
  ghost predicate ReallocGood(s: State, live: seq<Block>, i: nat, t: State, live': seq<Block>,
                              q: Option<nat>, size: nat)
    requires i < |live|
  {
    Inv(t, live') && OthersKept(s, t, live, i) && t.count - s.count == |live'| - |live| &&
    (q.None? && |live'| == |live| ==> t.bytes == s.bytes) &&
    (q.Some? ==>
       var n := Min(live[i].size, size);
       q.value + n <= |t.bytes| && live[i].p + n <= |s.bytes| &&
       t.bytes[q.value..q.value + n] == s.bytes[live[i].p..live[i].p + n])
  }

  lemma ReallocKeeps(s: State, live: seq<Block>, i: nat, size: nat)
    requires Inv(s, live) && i < |live|
    ensures Allocated(s, live[i].p)
    ensures var (t, q, overrun) := Realloc(s, Some(live[i].p), size);
            !overrun && ReallocGood(s, live, i, t, LiveAfterRealloc(s, live, i, size), q, size)
  {
    LiveAllocated(s, live, i);
    hide Inv, Put, Malloc, Move, Release, ReallocGood, Intact;
    if size == 0 {
      ReallocToNothing(s, live, i);
    } else if size <= live[i].size {
      ReallocShrinks(s, live, i, size);
    } else if GrowsInPlace(s, live[i].p, size) {
      ReallocGrows(s, live, i, size);
    } else {
      ReallocMoves(s, live, i, size);
    }
  }

  lemma ReallocToNothing(s: State, live: seq<Block>, i: nat)
    requires Inv(s, live) && i < |live| && Allocated(s, live[i].p)
    ensures ReallocGood(s, live, i, Release(s, live[i].p), Without(live, i), None, 0)
  {
    ReleaseKeeps(s, live, i);
  }

  /** Asked for no more than it has, the block stays as it is, its recorded size included. */
  lemma ReallocShrinks(s: State, live: seq<Block>, i: nat, size: nat)
    requires Inv(s, live) && i < |live| && size <= live[i].size
    ensures ReallocGood(s, live, i, s, live, Some(live[i].p), size)
  {
    LiveInside(s, live, i);
  }

  lemma ReallocGrows(s: State, live: seq<Block>, i: nat, size: nat)
    requires Inv(s, live) && i < |live| && size > live[i].size
    requires Allocated(s, live[i].p) && GrowsInPlace(s, live[i].p, size)
    ensures var (t, q) := Malloc(Release(s, live[i].p), size);
            var rest := Without(live, i);
            (q.Some? ==> q.value == live[i].p) &&
            ReallocGood(s, live, i, t, if q.None? then rest else rest + [Block(q.value, size)], q, size)
  {
    GrowKeeps(s, live, i, size);
    LiveInside(s, live, i);
    hide Inv, Malloc, Release, SameIn, Intact;
    var (t, q) := Malloc(Release(s, live[i].p), size);
    assert Without(live, i) == live[..i];
    GrowOthers(s, t, live, i);
    SameSlice(s.bytes, t.bytes, live[i].p, live[i].p + live[i].size);
  }

  lemma GrowOthers(s: State, t: State, live: seq<Block>, i: nat)
    requires Inv(s, live) && |live| == i + 1 && SameIn(s.bytes, t.bytes, 0, Start(live[i]))
    ensures OthersKept(s, t, live, i)
  {
    OthersBelow(s, t, live, i, Start(live[i]));
  }

  lemma ReallocMoves(s: State, live: seq<Block>, i: nat, size: nat)
    requires Inv(s, live) && i < |live| && size > live[i].size
    requires Allocated(s, live[i].p) && SizeOf(s.bytes, live[i].p) == live[i].size
    ensures var (t, q) := Move(s, live[i].p, size);
            ReallocGood(s, live, i, t,
                        if q.None? then live else Without(live, i) + [Block(q.value, size)], q, size)
  {
    MoveKeeps(s, live, i, size);
    LiveInside(s, live, i);
    hide Move, Inv, Intact, SameIn, OthersKept;
    MoveOthers(s, Move(s, live[i].p, size).0, live, i);
  }

  lemma MoveOthers(s: State, t: State, live: seq<Block>, i: nat)
    requires Inv(s, live) && i < |live| && SameIn(s.bytes, t.bytes, 0, s.index)
    ensures OthersKept(s, t, live, i)
  {
    OthersBelow(s, t, live, i, s.index);
  }

  /** Growing where the block stands gives the same pointer and cannot fail for space. */
  lemma ReallocInPlace(s: State, live: seq<Block>, i: nat, size: nat)
    requires Inv(s, live) && i < |live| && size > live[i].size
    requires Allocated(s, live[i].p) && GrowsInPlace(s, live[i].p, size)
    ensures Realloc(s, Some(live[i].p), size).1 ==
            if s.countdown == 0 then None else Some(live[i].p)
  {
    LiveAllocated(s, live, i);
    GrowKeeps(s, live, i, size);
  }

  /** The source says a failed `realloc` does not release the old block.  Exactly when that
      is not so, and the top of the heap has moved below the block: it could grow in place
      and the countdown had reached zero. */
  lemma FailedReallocLosesBlock(s: State, live: seq<Block>, i: nat, size: nat)
    requires Inv(s, live) && i < |live| && size > 0
    requires Allocated(s, live[i].p)
    ensures var (t, q, overrun) := Realloc(s, Some(live[i].p), size);
            (q.None? && !Allocated(t, live[i].p)) <==>
            (size > live[i].size && s.countdown == 0 && GrowsInPlace(s, live[i].p, size))
  {
    LiveAllocated(s, live, i);
    if size > live[i].size {
      if GrowsInPlace(s, live[i].p, size) {
        GrowLoses(s, live, i, size);
      } else {
        MoveSpares(s, live, i, size);
      }
    }
  }

  lemma GrowLoses(s: State, live: seq<Block>, i: nat, size: nat)
    requires Inv(s, live) && i < |live| && size > live[i].size
    requires Allocated(s, live[i].p) && GrowsInPlace(s, live[i].p, size)
    ensures var (t, q) := Malloc(Release(s, live[i].p), size);
            (q.None? <==> s.countdown == 0) && (q.None? ==> !Allocated(t, live[i].p))
  {
    GrowKeeps(s, live, i, size);
    ReleaseKeeps(s, live, i);
    LiveAllocated(s, live, i);
    hide Inv, Put, BlockBytes;
  }

  lemma MoveSpares(s: State, live: seq<Block>, i: nat, size: nat)
    requires Inv(s, live) && i < |live| && size > live[i].size
    requires Allocated(s, live[i].p) && SizeOf(s.bytes, live[i].p) == live[i].size
    ensures var (t, q) := Move(s, live[i].p, size); q.None? ==> Allocated(t, live[i].p)
  {
    MoveKeeps(s, live, i, size);
    hide Inv, Put, Malloc, BlockBytes, Move;
  }

  /** It does happen, on any heap with room: allocate, let the next request fail, and grow. */
  lemma BlockLost(bytes: seq<byte>, small: nat, large: nat)
    requires 0 < small < large && Total(large) <= |bytes| <= SIZE_MAX
    ensures var (s, p) := Malloc(State(bytes, 0, 0, DONT_FAIL), small);
            p.Some? && Allocated(s, p.value) &&
            var (t, q, overrun) := Realloc(s.(countdown := 0), p, large);
            q.None? && !overrun && !Allocated(t, p.value)
  {
    var empty := State(bytes, 0, 0, DONT_FAIL);
    RoomForLess(small, large);
    var (s, p) := Malloc(empty, small);
    MallocKeeps(empty, [], small);
    var live := [Block(p.value, small)];
    assert [] + live == live;
    var s0 := s.(countdown := 0);
    InvIgnores(s, live, s0);
    LiveAllocated(s0, live, 0);
    hide Put, Header, Inv;
    FailedReallocLosesBlock(s0, live, 0, large);
  }

  lemma RoomForLess(small: nat, large: nat)
    requires small < large
    ensures Total(small) <= Total(large)
  {
  }

  /** A block that is large enough stays as it is and is returned; a request for nothing frees
      it and returns nothing; no other request changes more than its case says.  The result is
      missing exactly for a request for nothing, or one to grow that is refused. */
  lemma ReallocExact(s: State, live: seq<Block>, i: nat, size: nat)
    requires Inv(s, live) && i < |live|
    ensures Allocated(s, live[i].p)
    ensures var p := live[i].p; var (t, q, overrun) := Realloc(s, Some(p), size);
            var inPlace := End(live[i]) == s.index && p + BlockBytes(size) <= |s.bytes|;
            (0 < size <= live[i].size ==> t == s && q == Some(p)) &&
            (size == 0 ==> t == Free(s, Some(p)).0) &&
            (q.None? <==>
             (size == 0 ||
              (size > live[i].size &&
               (s.countdown == 0 || (!inPlace && s.index + Total(size) > |s.bytes|))))) &&
            (q.Some? && size > live[i].size ==>
               if inPlace then q == Some(p) && t.index == p + BlockBytes(size)
               else q == Some(s.index + GUARD) && t.index == s.index + Total(size))
  {
    LiveAllocated(s, live, i);
    assert GrowsInPlace(s, live[i].p, size) <==>
           End(live[i]) == s.index && live[i].p + BlockBytes(size) <= |s.bytes|;
    if size > live[i].size {
      if s.countdown == 0 { AllRefused(s, live, size); } else { ReallocTried(s, live, i, size); }
      if Realloc(s, Some(live[i].p), size).1.Some? { ReallocTop(s, live, i, size); }
    }
    hide Inv, Put, Total, BlockBytes, Malloc, Move, GrowsInPlace;
  }

  lemma ReallocTop(s: State, live: seq<Block>, i: nat, size: nat)
    requires Inv(s, live) && i < |live| && size > live[i].size
    requires Allocated(s, live[i].p) && Realloc(s, Some(live[i].p), size).1.Some?
    ensures var p := live[i].p; var (t, q, overrun) := Realloc(s, Some(p), size);
            if GrowsInPlace(s, p, size) then q == Some(p) && t.index == p + BlockBytes(size)
            else q == Some(s.index + GUARD) && t.index == s.index + Total(size)
  {
    LiveAllocated(s, live, i);
    if GrowsInPlace(s, live[i].p, size) {
      ReleaseKeeps(s, live, i);
    } else {
      MoveTop(s, live, i, size);
    }
    hide Inv, Put, Header, Intact;
  }

  lemma MoveTop(s: State, live: seq<Block>, i: nat, size: nat)
    requires Inv(s, live) && i < |live| && size > live[i].size
    requires Allocated(s, live[i].p) && SizeOf(s.bytes, live[i].p) == live[i].size
    requires Move(s, live[i].p, size).1.Some?
    ensures Move(s, live[i].p, size).1 == Some(s.index + GUARD)
    ensures Move(s, live[i].p, size).0.index == s.index + Total(size)
  {
    hide Put, Header, Intact;
    var p := live[i].p;
    var s1 := Malloc(s, size).0;
    var payload := s1.bytes[p..p + SizeOf(s.bytes, p)];
    var s2 := s1.(bytes := Put(s1.bytes, s.index + GUARD, payload));
    PutSpec(s1.bytes, s.index + GUARD, payload);
    BelowTopKept(s, p, s2);
  }

  /** Null pointers: nothing to free, and a realloc is a malloc. */
  lemma NullPointers(s: State, size: nat)
    ensures Free(s, None) == (s, false)
    ensures Realloc(s, None, size) == (Malloc(s, size).0, Malloc(s, size).1, false)
  {
  }

  // ---------- Runs ----------

  datatype Op =
    | OpMalloc(size: nat)
    | OpCalloc(num: nat, size: nat)
    | OpRealloc(i: nat, size: nat)
    | OpFree(i: nat)
    | OpWrite(i: nat, at: nat, data: seq<byte>)
    | OpFailAfter(countdown: int)
    | OpStartTest

  /** The heap, its live blocks, and how many of them were live at the last test start. */
  datatype Config = Config(heap: State, live: seq<Block>, born: nat)

  /** Calls name live blocks by position, write inside their payload, and wrap no sum. */
  predicate Legal(c: Config, op: Op) {
    match op
    case OpMalloc(size) => NoWrap(c.heap, size)
    case OpCalloc(num, size) => NoWrap(c.heap, num * size)
    case OpRealloc(i, size) => i < |c.live| && Allocated(c.heap, c.live[i].p) && NoWrap(c.heap, size)
    case OpFree(i) => i < |c.live| && Allocated(c.heap, c.live[i].p)
    case OpWrite(i, at, data) =>
      i < |c.live| && at + |data| <= c.live[i].size && c.live[i].p + at + |data| <= |c.heap.bytes|
    case OpFailAfter(_) => true
    case OpStartTest => true
  }

  function Apply(c: Config, op: Op): Config
    requires Legal(c, op)
  {
    match op
    case OpMalloc(size) =>
      var (t, q) := Malloc(c.heap, size);
      c.(heap := t, live := if q.None? then c.live else c.live + [Block(q.value, size)])
    case OpCalloc(num, size) =>
      var (t, q) := Calloc(c.heap, num, size);
      c.(heap := t, live := if q.None? then c.live else c.live + [Block(q.value, num * size)])
    case OpRealloc(i, size) =>
      c.(heap := Realloc(c.heap, Some(c.live[i].p), size).0,
         live := LiveAfterRealloc(c.heap, c.live, i, size))
    case OpFree(i) =>
      c.(heap := Free(c.heap, Some(c.live[i].p)).0, live := Without(c.live, i))
    case OpWrite(i, at, data) =>
      c.(heap := c.heap.(bytes := Put(c.heap.bytes, c.live[i].p + at, data)))
    case OpFailAfter(countdown) => c.(heap := c.heap.(countdown := countdown))
    case OpStartTest => c.(heap := c.heap.(count := 0, countdown := DONT_FAIL), born := |c.live|)
  }

  /** Live blocks are in order, and the count is allocations minus releases since the start. */
  ghost predicate Sound(c: Config) {
    Inv(c.heap, c.live) && c.heap.count == |c.live| - c.born
  }

  lemma ApplySound(c: Config, op: Op)
    requires Sound(c) && Legal(c, op)
    ensures Sound(Apply(c, op))
  {
    hide Put, Malloc, Release, Intact, Cleared, Realloc, LiveAfterRealloc;
    match op
    case OpMalloc(size) => MallocKeeps(c.heap, c.live, size);
    case OpCalloc(num, size) => CallocKeeps(c.heap, c.live, num * size);
    case OpRealloc(i, size) => ReallocKeeps(c.heap, c.live, i, size);
    case OpFree(i) => FreeKeeps(c.heap, c.live, i);
    case OpWrite(i, at, data) => PokeKeeps(c.heap, c.live, i, at, data);
    case OpFailAfter(_) => InvIgnores(c.heap, c.live, Apply(c, op).heap);
    case OpStartTest => InvIgnores(c.heap, c.live, Apply(c, op).heap);
  }

  lemma InvIgnores(s: State, live: seq<Block>, t: State)
    requires Inv(s, live) && t.bytes == s.bytes && t.index == s.index
    ensures Inv(t, live)
  {
  }

  /** A run that stays legal at every step. */
  ghost predicate LegalRun(c: Config, ops: seq<Op>)
    decreases |ops|
  {
    ops != [] ==> Legal(c, ops[0]) && LegalRun(Apply(c, ops[0]), ops[1..])
  }

  ghost function Run(c: Config, ops: seq<Op>): Config
    requires LegalRun(c, ops)
    decreases |ops|
  {
    if ops == [] then c else Run(Apply(c, ops[0]), ops[1..])
  }

  /** Over every legal run: live blocks with header and marker are disjoint, aligned, intact
      and below the top, the count is exact, and no live block would report an overrun. */
  lemma {:induction false} RunSound(c: Config, ops: seq<Op>)
    requires Sound(c) && LegalRun(c, ops)
    ensures Sound(Run(c, ops))
    ensures var e := Run(c, ops); forall i :: 0 <= i < |e.live| ==>
              Readable(e.heap.bytes, e.live[i].p) && !IsOverrun(e.heap.bytes, e.live[i].p)
    decreases |ops|
  {
    if ops == [] {
      forall i | 0 <= i < |c.live|
        ensures Readable(c.heap.bytes, c.live[i].p) && !IsOverrun(c.heap.bytes, c.live[i].p)
      {
        IntactReads(c.heap.bytes, c.live[i]);
      }
    } else {
      var c1 := Apply(c, ops[0]);
      ApplySound(c, ops[0]);
      RunSound(c1, ops[1..]);
      assert Run(c, ops) == Run(c1, ops[1..]);
    }
  }

  /** From the heap as it is set up, of any size a size_t can hold, every legal run is sound. */
  lemma FreshHeapSound(size: nat, ops: seq<Op>)
    requires size <= SIZE_MAX
    requires LegalRun(Config(State(Zeros(size), 0, 0, DONT_FAIL), [], 0), ops)
    ensures Sound(Run(Config(State(Zeros(size), 0, 0, DONT_FAIL), [], 0), ops))
  {
    RunSound(Config(State(Zeros(size), 0, 0, DONT_FAIL), [], 0), ops);
  }

  /** A leak is reported exactly when the number of live blocks changed during the test. */
  lemma LeakExact(c: Config, ops: seq<Op>)
    requires Sound(c) && LegalRun(c, ops)
    ensures LeakReported(Run(c, ops).heap) <==> |Run(c, ops).live| != Run(c, ops).born
  {
    RunSound(c, ops);
  }

  // ---------- Forced failure ----------

  /** Whether the call asks for memory: a `realloc` does when it has to grow. */
  predicate Asks(c: Config, op: Op)
    requires Legal(c, op)
  {
    op.OpMalloc? || op.OpCalloc? || (op.OpRealloc? && op.size > c.live[op.i].size)
  }

  /** The requests for memory in a run. */
  ghost function Requests(c: Config, ops: seq<Op>): nat
    requires LegalRun(c, ops)
    decreases |ops|
  {
    if ops == [] then 0 else (if Asks(c, ops[0]) then 1 else 0) + Requests(Apply(c, ops[0]), ops[1..])
  }

  predicate SetsCountdown(op: Op) {
    op.OpFailAfter? || op.OpStartTest?
  }

  /** The countdown after so many requests: it stops at zero, and never starts when off.
      From below that it only goes further down. */
  function CountedDown(countdown: int, requests: nat): int {
    if countdown == DONT_FAIL then DONT_FAIL
    else if 0 <= countdown <= requests then 0 else countdown - requests
  }

  lemma MallocCounts(s: State, size: nat)
    ensures Malloc(s, size).0.countdown == CountedDown(s.countdown, 1)
  {
  }

  /** Each call takes one off the countdown when it asks for memory, successful or not. */
  lemma ApplyCounts(c: Config, op: Op)
    requires Sound(c) && Legal(c, op) && !SetsCountdown(op)
    ensures Apply(c, op).heap.countdown == CountedDown(c.heap.countdown, if Asks(c, op) then 1 else 0)
  {
    hide Put, BlockBytes, Total, Header;
    match op
    case OpMalloc(size) => MallocCounts(c.heap, size);
    case OpCalloc(num, size) => MallocCounts(c.heap, num * size);
    case OpRealloc(i, size) => ReallocCounts(c.heap, c.live, i, size);
    case OpFree(i) =>
    case OpWrite(i, at, data) =>
  }

  lemma ReallocCounts(s: State, live: seq<Block>, i: nat, size: nat)
    requires Inv(s, live) && i < |live| && Allocated(s, live[i].p)
    ensures Realloc(s, Some(live[i].p), size).0.countdown ==
            CountedDown(s.countdown, if size > live[i].size then 1 else 0)
  {
    LiveAllocated(s, live, i);
    hide Put, BlockBytes, Total, Header, Inv, CountedDown, Malloc;
    if size > live[i].size {
      MallocCounts(s, size);
      MallocCounts(Release(s, live[i].p), size);
    } else {
      NotCounted(s.countdown);
    }
  }

  lemma NotCounted(countdown: int)
    ensures CountedDown(countdown, 0) == countdown
  {
  }

  lemma CountedTwice(countdown: int, a: nat, b: nat)
    ensures CountedDown(CountedDown(countdown, a), b) == CountedDown(countdown, a + b)
  {
  }

  lemma {:induction false} RunCounts(c: Config, ops: seq<Op>)
    requires Sound(c) && LegalRun(c, ops)
    requires forall op :: op in ops ==> !SetsCountdown(op)
    ensures Run(c, ops).heap.countdown == CountedDown(c.heap.countdown, Requests(c, ops))
    decreases |ops|
  {
    hide Inv, Legal, Apply, Asks, CountedDown;
    if ops == [] {
      NotCounted(c.heap.countdown);
    } else {
      var a := if Asks(c, ops[0]) then 1 else 0;
      ApplySound(c, ops[0]);
      ApplyCounts(c, ops[0]);
      CountedTwice(c.heap.countdown, a, Requests(Apply(c, ops[0]), ops[1..]));
      RunCounts(Apply(c, ops[0]), ops[1..]);
    }
  }

  /** A request is refused in every form; a new block is refused without a trace. */
  ghost predicate Refused(s: State, live: seq<Block>, size: nat) {
    Malloc(s, size) == (s, None) && Cleared(s, size) == (s, None) &&
    forall i :: 0 <= i < |live| && Allocated(s, live[i].p) && size > live[i].size ==>
      Realloc(s, Some(live[i].p), size).1.None?
  }

  /** Every request is tried, and fails only for want of room: at the top, or for a block that
      grows where it stands, behind it. */
  ghost predicate Tried(s: State, live: seq<Block>, size: nat) {
    var full := s.index + Total(size) > |s.bytes|;
    (Malloc(s, size).1.None? <==> size == 0 || full) && (Cleared(s, size).1.None? <==> size == 0 || full) &&
    forall i :: 0 <= i < |live| && Allocated(s, live[i].p) && size > live[i].size ==>
      (Realloc(s, Some(live[i].p), size).1.None? <==> !GrowsInPlace(s, live[i].p, size) && full)
  }

  lemma AllTried(s: State, live: seq<Block>, size: nat)
    requires Inv(s, live) && s.countdown != 0
    ensures Tried(s, live, size)
  {
    forall i | 0 <= i < |live| && Allocated(s, live[i].p) && size > live[i].size
      ensures Realloc(s, Some(live[i].p), size).1.None? <==>
              !GrowsInPlace(s, live[i].p, size) && s.index + Total(size) > |s.bytes|
    {
      ReallocTried(s, live, i, size);
    }
    hide Realloc, GrowsInPlace, Allocated, Put, Total, Header;
  }

  lemma ReallocTried(s: State, live: seq<Block>, i: nat, size: nat)
    requires Inv(s, live) && i < |live| && size > live[i].size && s.countdown != 0
    requires Allocated(s, live[i].p)
    ensures Realloc(s, Some(live[i].p), size).1.None? <==>
            !GrowsInPlace(s, live[i].p, size) && s.index + Total(size) > |s.bytes|
  {
    LiveAllocated(s, live, i);
    if GrowsInPlace(s, live[i].p, size) {
      ReallocInPlace(s, live, i, size);
    }
    hide Inv, Put, Total, Header, GrowsInPlace;
  }

  /** After a countdown of n, exactly n requests for memory of any kind are tried, successful
      or not.  Every later one fails; one that is tried fails only for want of room. */
  lemma FailsAfterCount(c: Config, ops: seq<Op>, size: nat)
    requires Sound(c) && LegalRun(c, ops) && c.heap.countdown >= 0
    requires forall op :: op in ops ==> !SetsCountdown(op)
    ensures var e := Run(c, ops);
            if Requests(c, ops) >= c.heap.countdown then Refused(e.heap, e.live, size)
            else Tried(e.heap, e.live, size)
  {
    RunCounts(c, ops);
    RunSound(c, ops);
    var e := Run(c, ops);
    hide LegalRun, Run, Requests, Inv, Refused, Tried;
    if e.heap.countdown == 0 { AllRefused(e.heap, e.live, size); } else { AllTried(e.heap, e.live, size); }
  }

  lemma AllRefused(s: State, live: seq<Block>, size: nat)
    requires Inv(s, live) && s.countdown == 0
    ensures Refused(s, live, size)
  {
    hide Put, Total, Header, BlockBytes;
    forall i | 0 <= i < |live| && Allocated(s, live[i].p) && size > live[i].size
      ensures Realloc(s, Some(live[i].p), size).1.None?
    {
      LiveAllocated(s, live, i);
    }
  }

  /** With forced failure off it stays off over any run, any other negative countdown never
      fires either, and requests fail only for want of room. */
  lemma NeverForced(c: Config, ops: seq<Op>, size: nat)
    requires Sound(c) && LegalRun(c, ops) && c.heap.countdown < 0
    requires forall op :: op in ops ==> !SetsCountdown(op)
    ensures var e := Run(c, ops);
            e.heap.countdown < 0 && (c.heap.countdown == DONT_FAIL ==> e.heap.countdown == DONT_FAIL) &&
            Tried(e.heap, e.live, size)
  {
    RunCounts(c, ops);
    RunSound(c, ops);
    hide LegalRun, Run, Requests, Inv, Tried;
    AllTried(Run(c, ops).heap, Run(c, ops).live, size);
  }

  // ---------- Bracketed programs ----------

  /** Allocate, write into the block, run the inner program, free, go on. */
  datatype Nest = Done | Bracket(size: nat, data: seq<byte>, inner: Nest, rest: Nest)

  function Filled(s: State, p: nat, size: nat, data: seq<byte>): (t: State)
    requires p + size <= |s.bytes|
    ensures t.index == s.index && t.count == s.count && |t.bytes| == |s.bytes|
  {
    if |data| <= size then s.(bytes := Put(s.bytes, p, data)) else s
  }

  /** What freeing needs of the heap after the inner program: the block is on top again. */
  lemma BracketFree(s: State, size: nat, data: seq<byte>, s3: State)
    requires s.index <= |s.bytes| <= SIZE_MAX && Malloc(s, size).1.Some?
    requires var s2 := Filled(Malloc(s, size).0, s.index + GUARD, size, data);
             s3.index == s2.index && s3.count == s2.count && |s3.bytes| == |s2.bytes| &&
             SameIn(s2.bytes, s3.bytes, 0, s2.index)
    ensures Allocated(s3, s.index + GUARD)
    ensures var t := Release(s3, s.index + GUARD);
            t.index == s.index && t.count == s.count && SameIn(s.bytes, t.bytes, 0, s.index)
  {
    var p := s.index + GUARD;
    var (s1, q) := Malloc(s, size);
    HeaderWritten(s, size);
    if |data| <= size { PutSpec(s1.bytes, p, data); }
    SameSlice(s1.bytes, s3.bytes, p - GUARD, p - WORD);
  }

  lemma HeaderWritten(s: State, size: nat)
    requires s.index <= |s.bytes| <= SIZE_MAX && Malloc(s, size).1.Some?
    ensures SizeOf(Malloc(s, size).0.bytes, s.index + GUARD) == size
  {
    var p := s.index + GUARD;
    var one := Put(s.bytes, s.index, Header(size));
    var two := Put(one, p + size, MARKER);
    hide Put, Header, SizeOf;
    PutSpec(s.bytes, s.index, Header(size));
    PutSpec(one, p + size, MARKER);
    SameSlice(one, two, s.index, p);
    HeaderReads(two, p, size);
  }

  /** Whatever allocations inside fail, a bracketed program puts the top back exactly, and
      changes no byte below it. */
  function RunNest(s: State, n: Nest): (t: State)
    requires s.index <= |s.bytes| <= SIZE_MAX
    ensures t.index == s.index && t.count == s.count && |t.bytes| == |s.bytes|
    ensures SameIn(s.bytes, t.bytes, 0, s.index)
    decreases n
  {
    match n
    case Done => s
    case Bracket(size, data, inner, rest) =>
      var (s1, q) := Malloc(s, size);
      if q.None? then RunNest(Free(RunNest(s1, inner), q).0, rest)
      else
        var s3 := RunNest(Filled(s1, q.value, size, data), inner);
        BracketFree(s, size, data, s3);
        RunNest(Free(s3, q).0, rest)
  }
}
