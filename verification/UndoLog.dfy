/** Automatic pointer restoration: a bounded log of old values, undone last set first. */
module UndoLog {

  const UNITY_MAX_POINTERS := 5

  /** A target, by its place in memory, and what it held before it was set. */
  datatype Pair = Pair(pointer: nat, oldValue: int)

  predicate InMemory(log: seq<Pair>, size: nat) {
    forall i :: 0 <= i < |log| ==> log[i].pointer < size
  }

  /** Memory after undoing the whole log, newest entry first. */
  function Undone(memory: seq<int>, log: seq<Pair>): (m: seq<int>)
    requires InMemory(log, |memory|)
    ensures |m| == |memory|
    decreases |log|
  {
    if log == [] then memory
    else
      var last := log[|log| - 1];
      Undone(memory[last.pointer := last.oldValue], log[..|log| - 1])
  }

  function FirstFor(log: seq<Pair>, p: nat): (i: nat)
    ensures i <= |log| && (i < |log| ==> log[i].pointer == p)
    ensures forall k :: 0 <= k < i ==> log[k].pointer != p
  {
    if log == [] then 0
    else
      var i := FirstFor(log[..|log| - 1], p);
      if i < |log| - 1 then i else if log[|log| - 1].pointer == p then |log| - 1 else |log|
  }

  /** Undoing puts back what the earliest entry of a target recorded; the rest stays. */
  lemma {:induction false} UndoneAt(memory: seq<int>, log: seq<Pair>, p: nat)
    requires InMemory(log, |memory|) && p < |memory|
    ensures var i := FirstFor(log, p);
            Undone(memory, log)[p] == if i < |log| then log[i].oldValue else memory[p]
    decreases |log|
  {
    if log != [] {
      var last := log[|log| - 1];
      UndoneAt(memory[last.pointer := last.oldValue], log[..|log| - 1], p);
    }
  }

  /** Logging the current value and then overwriting it changes nothing an undo would see. */
  lemma SetUndone(memory: seq<int>, log: seq<Pair>, p: nat, v: int)
    requires InMemory(log, |memory|) && p < |memory|
    ensures Undone(memory[p := v], log + [Pair(p, memory[p])]) == Undone(memory, log)
  {
    var log' := log + [Pair(p, memory[p])];
    assert log'[..|log|] == log;
    assert memory[p := v][p := memory[p]] == memory;
  }

  class PointerStore {
    const memory: array<int>
    const store: array<Pair>
    var pointerIndex: nat

    constructor (size: nat)
      ensures Valid() && pointerIndex == 0 && memory.Length == size && fresh(memory) && fresh(store)
    {
      memory := new int[size](_ => 0);
      store := new Pair[UNITY_MAX_POINTERS](_ => Pair(0, 0));
      pointerIndex := 0;
    }

    ghost predicate Valid()
      reads this, store
    {
      store.Length == UNITY_MAX_POINTERS && pointerIndex <= UNITY_MAX_POINTERS &&
      InMemory(store[..pointerIndex], memory.Length)
    }

    /** What memory will be after an undo. */
    ghost function Restored(): seq<int>
      requires Valid()
      reads this, store, memory
    {
      Undone(memory[..], store[..pointerIndex])
    }

    method Init()
      requires Valid()
      modifies this
      ensures Valid() && pointerIndex == 0 && Restored() == memory[..]
    {
      pointerIndex := 0;
    }

    /** Sets a target, or, when the store is full, only reports that. */
    method Set(pointer: nat, newValue: int) returns (tooMany: bool)
      requires Valid() && pointer < memory.Length
      modifies this, memory, store
      ensures Valid() && Restored() == old(Restored())
      ensures tooMany == (old(pointerIndex) >= UNITY_MAX_POINTERS)
      ensures memory[..] == if tooMany then old(memory[..]) else old(memory[..])[pointer := newValue]
      ensures pointerIndex == if tooMany then old(pointerIndex) else old(pointerIndex) + 1
      ensures store[..pointerIndex] ==
              if tooMany then old(store[..pointerIndex])
              else old(store[..pointerIndex]) + [Pair(pointer, old(memory[pointer]))]
    {
      tooMany := pointerIndex >= UNITY_MAX_POINTERS;
      if !tooMany {
        SetUndone(memory[..], store[..pointerIndex], pointer, newValue);
        store[pointerIndex] := Pair(pointer, memory[pointer]);
        memory[pointer] := newValue;
        pointerIndex := pointerIndex + 1;
        assert store[..pointerIndex] == old(store[..pointerIndex]) + [Pair(pointer, old(memory[pointer]))];
      }
    }

    /** Undoes every set, newest first. */
    method UndoAllSets()
      requires Valid()
      modifies this, memory
      ensures Valid() && pointerIndex == 0 && memory[..] == old(Restored())
      ensures forall p :: 0 <= p < memory.Length ==>
        var log := old(store[..pointerIndex]);
        memory[p] == if FirstFor(log, p) < |log| then log[FirstFor(log, p)].oldValue else old(memory[p])
    {
      forall p | 0 <= p < memory.Length
        ensures var log := store[..pointerIndex];
                Restored()[p] == if FirstFor(log, p) < |log| then log[FirstFor(log, p)].oldValue else memory[p]
      {
        UndoneAt(memory[..], store[..pointerIndex], p);
      }
      while pointerIndex > 0
        invariant Valid() && Restored() == old(Restored())
        decreases pointerIndex
      {
        assert store[..pointerIndex][..pointerIndex - 1] == store[..pointerIndex - 1];
        pointerIndex := pointerIndex - 1;
        memory[store[pointerIndex].pointer] := store[pointerIndex].oldValue;
      }
    }

    /** Any run of sets, repeated and aliased targets and refused ones included: undoing it
        gives back all of memory, when setting was the only writer. */
    method SetsThenUndo(sets: seq<(nat, int)>)
      requires Valid() && forall i :: 0 <= i < |sets| ==> sets[i].0 < memory.Length
      modifies this, memory, store
      ensures memory[..] == old(memory[..])
    {
      Init();
      for i := 0 to |sets|
        invariant Valid() && Restored() == old(memory[..])
      {
        var tooMany := Set(sets[i].0, sets[i].1);
      }
      UndoAllSets();
    }
  }

  // ---------- Other writers ----------

  datatype Action = SetPointer(p: nat, v: int) | WriteDirectly(p: nat, v: int)

  /** Memory and log after a run of sets and of writes that bypass the log. */
  ghost function After(memory: seq<int>, log: seq<Pair>, actions: seq<Action>): (r: (seq<int>, seq<Pair>))
    requires InMemory(log, |memory|) && forall i :: 0 <= i < |actions| ==> actions[i].p < |memory|
    ensures |r.0| == |memory| && InMemory(r.1, |r.0|)
    decreases |actions|
  {
    if actions == [] then (memory, log)
    else
      var a := actions[0];
      var log' := if a.SetPointer? && |log| < UNITY_MAX_POINTERS then log + [Pair(a.p, memory[a.p])] else log;
      var memory' := if a.WriteDirectly? || |log| < UNITY_MAX_POINTERS then memory[a.p := a.v] else memory;
      After(memory', log', actions[1..])
  }

  /** Entries in the log stay the earliest ones of their targets, whatever is written later. */
  lemma {:induction false} FirstEntryStays(memory: seq<int>, log: seq<Pair>, actions: seq<Action>, p: nat)
    requires InMemory(log, |memory|) && p < |memory| && FirstFor(log, p) < |log|
    requires forall i :: 0 <= i < |actions| ==> actions[i].p < |memory|
    ensures var (m, l) := After(memory, log, actions);
            Undone(m, l)[p] == log[FirstFor(log, p)].oldValue
    decreases |actions|
  {
    if actions == [] {
      UndoneAt(memory, log, p);
    } else {
      var a := actions[0];
      var log' := if a.SetPointer? && |log| < UNITY_MAX_POINTERS then log + [Pair(a.p, memory[a.p])] else log;
      var memory' := if a.WriteDirectly? || |log| < UNITY_MAX_POINTERS then memory[a.p := a.v] else memory;
      assert log' != log ==> log'[..|log'| - 1] == log;
      FirstEntryStays(memory', log', actions[1..], p);
    }
  }

  /** A target whose first set found room is restored to what it held just before that set,
      even if other code also writes it: stated at the moment of that set. */
  lemma {:induction false} FirstSetRestored(memory: seq<int>, log: seq<Pair>, p: nat, v: int, later: seq<Action>)
    requires InMemory(log, |memory|) && p < |memory| && |log| < UNITY_MAX_POINTERS
    requires FirstFor(log, p) == |log|
    requires forall i :: 0 <= i < |later| ==> later[i].p < |memory|
    ensures var (m, l) := After(memory, log, [SetPointer(p, v)] + later);
            Undone(m, l)[p] == memory[p]
  {
    var log' := log + [Pair(p, memory[p])];
    assert log'[..|log|] == log;
    assert ([SetPointer(p, v)] + later)[1..] == later;
    FirstEntryStays(memory[p := v], log', later, p);
  }
}
