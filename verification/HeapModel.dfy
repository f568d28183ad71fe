/** Unity's static test heap as functions on a byte sequence: a bump allocator with in-band
    headers and end markers, which takes a block back only from the top of the heap. */
module HeapModel {

  import opened Bytes
  import opened Wrappers

  const ALIGNMENT := 8
  const WORD := 8
  const GUARD := 16
  const SIZE_MAX := 0xFFFF_FFFF_FFFF_FFFF
  const DONT_FAIL := -1

  /** The end marker: the letters END and the terminating zero. */
  const MARKER: seq<byte> := [69, 78, 68, 0]

  /** The heap bytes, the first free offset, the count of blocks, the forced-failure countdown. */
  datatype State = State(bytes: seq<byte>, index: nat, count: int, countdown: int)

  // ---------- Words and slices of memory ----------

  lemma SizeFits(v: nat)
    requires v <= SIZE_MAX
    ensures Unword(Word(v, WORD)) == v
  {
    assert Pow256(4) == 0x1_0000_0000;
    assert Pow256(8) == 0x1_0000_0000_0000_0000;
    WordRoundTrip(v, WORD);
  }

  function Zeros(n: nat): (z: seq<byte>)
    ensures |z| == n
  {
    seq(n, _ => 0)
  }

  ghost predicate SameIn(a: seq<byte>, b: seq<byte>, lo: int, hi: int) {
    |a| == |b| && forall k :: lo <= k < hi && 0 <= k < |a| ==> a[k] == b[k]
  }

  /** `bytes` with `w` written at `at`. */
  function Put(bytes: seq<byte>, at: nat, w: seq<byte>): (r: seq<byte>)
    requires at + |w| <= |bytes|
    ensures |r| == |bytes|
  {
    bytes[..at] + w + bytes[at + |w|..]
  }

  lemma PutSpec(bytes: seq<byte>, at: nat, w: seq<byte>)
    requires at + |w| <= |bytes|
    ensures Put(bytes, at, w)[at..at + |w|] == w
    ensures SameIn(bytes, Put(bytes, at, w), 0, at)
    ensures SameIn(bytes, Put(bytes, at, w), at + |w|, |bytes|)
  {
  }

  lemma SameSlice(a: seq<byte>, b: seq<byte>, lo: int, hi: int)
    requires SameIn(a, b, lo, hi) && 0 <= lo <= hi <= |a|
    ensures a[lo..hi] == b[lo..hi]
  {
  }

  // ---------- Block geometry ----------

  function RoundUp(size: nat): (r: nat)
    ensures size <= r < size + ALIGNMENT && r % ALIGNMENT == 0
  {
    (size + ALIGNMENT - 1) / ALIGNMENT * ALIGNMENT
  }

  /** Payload, marker and padding. */
  function BlockBytes(size: nat): (r: nat)
    ensures size + |MARKER| <= r && r % ALIGNMENT == 0
  {
    RoundUp(size + |MARKER|)
  }

  function Total(size: nat): nat {
    GUARD + BlockBytes(size)
  }

  function Header(size: nat): (h: seq<byte>)
    ensures |h| == GUARD
  {
    Word(size, WORD) + Zeros(WORD)
  }

  /** No sum in a request for `size` bytes wraps around. */
  predicate NoWrap(s: State, size: nat) {
    s.index + Total(size) <= SIZE_MAX
  }

  // ---------- The calls ----------

  function Malloc(s: State, size: nat): (r: (State, Option<nat>))
    ensures |r.0.bytes| == |s.bytes| && SameIn(s.bytes, r.0.bytes, 0, s.index)
    ensures s.index <= r.0.index && (s.index <= |s.bytes| ==> r.0.index <= |s.bytes|)
    ensures r.1.Some? ==> r.1.value == s.index + GUARD && r.1.value + size + |MARKER| <= |s.bytes|
  {
    if s.countdown == 0 then (s, None)
    else
      var s1 := if s.countdown == DONT_FAIL then s else s.(countdown := s.countdown - 1);
      if size == 0 || s1.index + Total(size) > |s1.bytes| then (s1, None)
      else
        var p := s1.index + GUARD;
        var bytes := Put(Put(s1.bytes, s1.index, Header(size)), p + size, MARKER);
        PutSpec(s1.bytes, s1.index, Header(size));
        PutSpec(Put(s1.bytes, s1.index, Header(size)), p + size, MARKER);
        (s1.(bytes := bytes, index := s1.index + Total(size), count := s1.count + 1), Some(p))
  }

  function SizeOf(bytes: seq<byte>, p: nat): nat
    requires GUARD <= p <= |bytes|
  {
    Unword(bytes[p - GUARD..p - WORD])
  }

  /** `p` is the payload of a block below the top of the heap, by its size field. */
  predicate Allocated(s: State, p: nat) {
    GUARD <= p <= |s.bytes| && p + BlockBytes(SizeOf(s.bytes, p)) <= s.index <= |s.bytes|
  }

  /** The header and the marker its size field points at are inside the heap. */
  predicate Readable(bytes: seq<byte>, p: nat) {
    GUARD <= p <= |bytes| && p + SizeOf(bytes, p) + |MARKER| <= |bytes|
  }

  predicate IsOverrun(bytes: seq<byte>, p: nat)
    requires Readable(bytes, p)
  {
    Unword(bytes[p - WORD..p]) != 0 ||
    bytes[p + SizeOf(bytes, p)..p + SizeOf(bytes, p) + |MARKER|] != MARKER
  }

  predicate OnTop(s: State, p: nat)
    requires Allocated(s, p)
  {
    p + BlockBytes(SizeOf(s.bytes, p)) == s.index
  }

  function Release(s: State, p: nat): State
    requires Allocated(s, p)
  {
    var s1 := s.(count := s.count - 1);
    if OnTop(s, p) then s1.(index := s.index - Total(SizeOf(s.bytes, p))) else s1
  }

  /** The new state, and whether an overrun is reported. */
  function Free(s: State, p: Option<nat>): (State, bool)
    requires p.Some? ==> Allocated(s, p.value)
  {
    if p.None? then (s, false) else (Release(s, p.value), IsOverrun(s.bytes, p.value))
  }

  /** Allocates `total` bytes, which `calloc` computes as a product, and clears them. */
  function Cleared(s: State, total: nat): (State, Option<nat>) {
    var (s1, p) := Malloc(s, total);
    if p.None? then (s1, None)
    else (s1.(bytes := Put(s1.bytes, p.value, Zeros(total))), p)
  }

  function Calloc(s: State, num: nat, size: nat): (State, Option<nat>) {
    Cleared(s, num * size)
  }

  /** The block can grow where it stands. */
  predicate GrowsInPlace(s: State, p: nat, size: nat)
    requires Allocated(s, p)
  {
    OnTop(s, p) && p + BlockBytes(size) <= |s.bytes|
  }

  /** Growing elsewhere: allocate, copy the old payload, release the old block. */
  function Move(s: State, p: nat, size: nat): (State, Option<nat>)
    requires Allocated(s, p) && SizeOf(s.bytes, p) <= size
  {
    var (s1, q) := Malloc(s, size);
    if q.None? then (s1, None)
    else
      var payload := s1.bytes[p..p + SizeOf(s.bytes, p)];
      var s2 := s1.(bytes := Put(s1.bytes, q.value, payload));
      PutSpec(s1.bytes, q.value, payload);
      BelowTopKept(s, p, s2);
      (Release(s2, p), q)
  }

  lemma BelowTopKept(s: State, p: nat, s2: State)
    requires Allocated(s, p) && s.index <= s2.index <= |s2.bytes| && SameIn(s.bytes, s2.bytes, 0, s.index)
    ensures Allocated(s2, p) && SizeOf(s2.bytes, p) == SizeOf(s.bytes, p)
  {
    SameSlice(s.bytes, s2.bytes, p - GUARD, p - WORD);
  }

  /** The new state, the result pointer, and whether an overrun ended the call. */
  function Realloc(s: State, oldMem: Option<nat>, size: nat): (State, Option<nat>, bool)
    requires oldMem.Some? ==> Allocated(s, oldMem.value)
  {
    if oldMem.None? then
      var (s1, q) := Malloc(s, size);
      (s1, q, false)
    else
      var p := oldMem.value;
      if IsOverrun(s.bytes, p) then (Release(s, p), None, true)
      else if size == 0 then (Release(s, p), None, false)
      else if SizeOf(s.bytes, p) >= size then (s, oldMem, false)
      else if GrowsInPlace(s, p, size) then
        var (s1, q) := Malloc(Release(s, p), size);
        (s1, q, false)
      else
        var (s1, q) := Move(s, p, size);
        (s1, q, false)
  }

  /** What the end of a test checks. */
  predicate LeakReported(s: State) {
    s.count != 0
  }
}
