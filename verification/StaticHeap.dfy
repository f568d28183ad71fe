/** The static heap as the source has it: a byte array and three static variables, changed
    in place.  Each method is proved against the function of the same name in `HeapModel`. */
module StaticHeapClass {
  import opened Bytes
  import opened HeapModel
  import opened Wrappers

  class StaticHeap {
    const heap: array<byte>
    var heapIndex: nat
    var mallocCount: int
    var failCountdown: int

    constructor (bytes: nat)
      ensures Now() == State(Zeros(bytes), 0, 0, DONT_FAIL) && fresh(heap)
    {
      heap := new byte[bytes](_ => 0);
      heapIndex, mallocCount, failCountdown := 0, 0, DONT_FAIL;
    }

    ghost function Now(): State
      reads this, heap
    {
      State(heap[..], heapIndex, mallocCount, failCountdown)
    }

    method StartTest()
      modifies this
      ensures Now() == old(Now()).(count := 0, countdown := DONT_FAIL)
    {
      mallocCount, failCountdown := 0, DONT_FAIL;
    }

    /** Whether a leak is reported. */
    method EndTest() returns (leak: bool)
      modifies this
      ensures Now() == old(Now()).(countdown := DONT_FAIL) && leak == LeakReported(old(Now()))
    {
      failCountdown := DONT_FAIL;
      leak := mallocCount != 0;
    }

    method MakeMallocFailAfterCount(countdown: int)
      modifies this
      ensures Now() == old(Now()).(countdown := countdown)
    {
      failCountdown := countdown;
    }

    // ---------- Raw memory ----------

    method Store(at: nat, w: seq<byte>)
      requires at + |w| <= heap.Length
      modifies heap
      ensures heap[..] == Put(old(heap[..]), at, w)
    {
      for i := 0 to |w|
        invariant heap[..] == Put(old(heap[..]), at, w[..i])
      {
        heap[at + i] := w[i];
        PutOneMore(old(heap[..]), at, w, i);
      }
      assert w[..|w|] == w;
    }

    method CopyBytes(dst: nat, src: nat, count: nat)
      requires src + count <= dst && dst + count <= heap.Length
      modifies heap
      ensures heap[..] == Put(old(heap[..]), dst, old(heap[..])[src..src + count])
    {
      ghost var w := old(heap[..])[src..src + count];
      for i := 0 to count
        invariant heap[..] == Put(old(heap[..]), dst, w[..i])
      {
        assert heap[src + i] == heap[..][src + i] == w[i];
        heap[dst + i] := heap[src + i];
        PutOneMore(old(heap[..]), dst, w, i);
      }
      assert w[..count] == w;
    }

    /** Reads a size_t, lowest byte first. */
    method ReadWord(at: nat) returns (v: nat)
      requires at + WORD <= heap.Length
      ensures v == Unword(heap[at..at + WORD])
    {
      v := 0;
      for i := WORD downto 0
        invariant v == Unword(heap[at + i..at + WORD])
      {
        v := heap[at + i] + 256 * v;
        assert heap[at + i..at + WORD][1..] == heap[at + i + 1..at + WORD];
      }
    }

    /** strcmp against the marker: stops at a difference or at the terminating zero. */
    method DiffersFromEnd(at: nat) returns (differs: bool)
      requires at + |MARKER| <= heap.Length
      ensures differs == (heap[at..at + |MARKER|] != MARKER)
    {
      var i := 0;
      while heap[at + i] == MARKER[i] && heap[at + i] != 0
        invariant i < |MARKER| && heap[at..at + i] == MARKER[..i]
        decreases |MARKER| - i
      {
        assert heap[at..at + i + 1] == heap[at..at + i] + [heap[at + i]];
        assert MARKER[..i + 1] == MARKER[..i] + [MARKER[i]];
        i := i + 1;
      }
      differs := heap[at + i] != MARKER[i];
      if differs {
        assert heap[at..at + |MARKER|][i] != MARKER[i];
      } else {
        assert i == 3;
        assert heap[at..at + |MARKER|] == heap[at..at + i] + [heap[at + i]];
      }
    }

    // ---------- The allocator ----------

    method Malloc(size: nat) returns (mem: Option<nat>)
      requires NoWrap(Now(), size)
      modifies this, heap
      ensures (Now(), mem) == HeapModel.Malloc(old(Now()), size)
    {
      hide Put, Header, RoundUp, SameIn;
      var totalSize := GUARD + RoundUp(size + |MARKER|);
      if failCountdown != DONT_FAIL {
        if failCountdown == 0 {
          return None;
        }
        failCountdown := failCountdown - 1;
      }
      if size == 0 {
        return None;
      }
      if heapIndex + totalSize > heap.Length {
        return None;
      }
      var guard := heapIndex;
      heapIndex := heapIndex + totalSize;
      mallocCount := mallocCount + 1;
      Store(guard, Header(size));
      Store(guard + GUARD + size, MARKER);
      return Some(guard + GUARD);
    }

    method Overrun(mem: nat) returns (overrun: bool)
      requires Readable(heap[..], mem)
      ensures overrun == IsOverrun(heap[..], mem)
    {
      assert heap[..][mem - GUARD..mem - WORD] == heap[mem - GUARD..mem - WORD];
      assert heap[..][mem - WORD..mem] == heap[mem - WORD..mem];
      var size := ReadWord(mem - GUARD);
      var guardSpace := ReadWord(mem - WORD);
      assert heap[..][mem + size..mem + size + |MARKER|] == heap[mem + size..mem + size + |MARKER|];
      if guardSpace != 0 {
        return true;
      }
      overrun := DiffersFromEnd(mem + size);
    }

    method ReleaseMemory(mem: nat)
      requires Allocated(Now(), mem)
      modifies this
      ensures Now() == Release(old(Now()), mem)
    {
      assert heap[..][mem - GUARD..mem - WORD] == heap[mem - GUARD..mem - WORD];
      var size := ReadWord(mem - GUARD);
      mallocCount := mallocCount - 1;
      var blockSize := RoundUp(size + |MARKER|);
      if mem == heapIndex - blockSize {
        heapIndex := heapIndex - (GUARD + blockSize);
      }
    }

    /** Whether an overrun is reported; the block is released either way. */
    method Free(mem: Option<nat>) returns (overrun: bool)
      requires mem.Some? ==> Allocated(Now(), mem.value)
      modifies this
      ensures (Now(), overrun) == HeapModel.Free(old(Now()), mem)
    {
      if mem.None? {
        return false;
      }
      overrun := Overrun(mem.value);
      ReleaseMemory(mem.value);
    }

    method Calloc(num: nat, size: nat) returns (mem: Option<nat>)
      requires NoWrap(Now(), num * size)
      modifies this, heap
      ensures (Now(), mem) == HeapModel.Calloc(old(Now()), num, size)
    {
      var total := num * size;
      mem := Malloc(total);
      if mem.None? {
        return None;
      }
      Store(mem.value, Zeros(total));
    }

    /** `failed` says that an overrun ended the call. */
    method Realloc(oldMem: Option<nat>, size: nat) returns (mem: Option<nat>, failed: bool)
      requires NoWrap(Now(), size) && (oldMem.Some? ==> Allocated(Now(), oldMem.value))
      modifies this, heap
      ensures (Now(), mem, failed) == HeapModel.Realloc(old(Now()), oldMem, size)
    {
      hide Put, RoundUp, HeapModel.Malloc, Move, IsOverrun;
      failed := false;
      if oldMem.None? {
        mem := Malloc(size);
        return;
      }
      var p := oldMem.value;
      var overrun := Overrun(p);
      if overrun {
        ReleaseMemory(p);
        return None, true;
      }
      if size == 0 {
        ReleaseMemory(p);
        return None, false;
      }
      assert heap[..][p - GUARD..p - WORD] == heap[p - GUARD..p - WORD];
      var oldSize := ReadWord(p - GUARD);
      if oldSize >= size {
        return oldMem, false;
      }
      var oldTotal := RoundUp(oldSize + |MARKER|);
      if p == heapIndex - oldTotal &&
         heapIndex - oldTotal + RoundUp(size + |MARKER|) <= heap.Length {
        ReleaseMemory(p);
        mem := Malloc(size);
        return;
      }
      mem := MoveTo(p, oldSize, size);
    }

    method MoveTo(p: nat, oldSize: nat, size: nat) returns (mem: Option<nat>)
      requires NoWrap(Now(), size) && Allocated(Now(), p)
      requires oldSize == SizeOf(heap[..], p) <= size
      modifies this, heap
      ensures (Now(), mem) == Move(old(Now()), p, size)
    {
      hide Put, HeapModel.Malloc, RoundUp;
      ghost var s := Now();
      mem := Malloc(size);
      if mem.None? {
        return;
      }
      ghost var s1 := Now();
      CopyBytes(mem.value, p, oldSize);
      PutSpec(s1.bytes, mem.value, s1.bytes[p..p + oldSize]);
      BelowTopKept(s, p, Now());
      ReleaseMemory(p);
    }
  }

  lemma PutOneMore(bytes: seq<byte>, at: nat, w: seq<byte>, i: nat)
    requires at + |w| <= |bytes| && i < |w|
    ensures Put(bytes, at, w[..i])[at + i := w[i]] == Put(bytes, at, w[..i + 1])
  {
  }
}
