/** The log queue as a linked list with head and tail, refining a sequence of records.
    What is freed is written down in a ledger, so that nothing is freed twice or lost. */
module LogQueueList {

  datatype Record = Record(level: int, file: string, function_: string, line: int,
                           timeLog: nat, message: nat)

  /** Something the code calls free() on: a buffer, a node, or the queue itself. */
  datatype Freed = Buffer(handle: nat) | Node(node: LogNode) | Queue

  datatype Status = Success | QueueNullPointer | LockFailed | AllocationFailed

  class LogNode {
    var record: Record
    var next: LogNode?

    constructor (record: Record)
      ensures this.record == record && next == null
    {
      this.record, this.next := record, null;
    }
  }

  /** The order in which things were freed. */
  class Ledger {
    ghost var freed: seq<Freed>

    ghost method Free(item: Freed)
      modifies this
      ensures freed == old(freed) + [item]
    {
      freed := freed + [item];
    }
  }

  /** What freeing one node gives up: its two buffers, then the node. */
  ghost function NodeParts(n: LogNode): seq<Freed>
    reads n
  {
    [Buffer(n.record.timeLog), Buffer(n.record.message), Node(n)]
  }

  /** What freeing the nodes from the `i`th on gives up, oldest first. */
  ghost function PartsFrom(nodes: seq<LogNode>, i: nat): seq<Freed>
    reads nodes
    decreases |nodes| - i
  {
    if i >= |nodes| then [] else NodeParts(nodes[i]) + PartsFrom(nodes, i + 1)
  }

  /** Three things for each node, in the order of the nodes. */
  lemma {:induction false} PartsAt(nodes: seq<LogNode>, i: nat, k: nat)
    requires i <= k < |nodes|
    ensures |PartsFrom(nodes, i)| == 3 * (|nodes| - i)
    ensures var at := 3 * (k - i);
            PartsFrom(nodes, i)[at..at + 3] ==
            [Buffer(nodes[k].record.timeLog), Buffer(nodes[k].record.message), Node(nodes[k])]
    decreases |nodes| - i
  {
    if i + 1 < |nodes| { PartsAt(nodes, i + 1, if i < k then k else i + 1); }
    var (first, rest) := (NodeParts(nodes[i]), PartsFrom(nodes, i + 1));
    assert PartsFrom(nodes, i) == first + rest;
    if i == k {
      assert (first + rest)[0..3] == first;
    } else {
      var at := 3 * (k - i);
      assert (first + rest)[at..at + 3] == rest[at - 3..at];
    }
  }

  /** Both buffers of `n` and `n` itself stand at `at` and after it. */
  ghost predicate FreedAt(freed: seq<Freed>, at: nat, n: LogNode)
    reads n
  {
    at + 3 <= |freed| && freed[at] == Buffer(n.record.timeLog) && freed[at + 1] == Buffer(n.record.message) &&
    freed[at + 2] == Node(n)
  }

  lemma InMiddle(a: seq<Freed>, b: seq<Freed>, c: seq<Freed>, i: nat)
    requires i < |b|
    ensures (a + b + c)[|a| + i] == b[i]
  {
  }

  lemma OneFreedAt(before: seq<Freed>, nodes: seq<LogNode>, k: nat)
    requires k < |nodes|
    ensures FreedAt(before + PartsFrom(nodes, 0) + [Queue], |before| + 3 * k, nodes[k])
  {
    var parts := PartsFrom(nodes, 0);
    PartsAt(nodes, 0, k);
    hide PartsFrom;
    var three := parts[3 * k..3 * k + 3];
    assert three[0] == parts[3 * k] && three[1] == parts[3 * k + 1] && three[2] == parts[3 * k + 2];
    InMiddle(before, parts, [Queue], 3 * k);
    InMiddle(before, parts, [Queue], 3 * k + 1);
    InMiddle(before, parts, [Queue], 3 * k + 2);
  }

  lemma AllFreedAt(before: seq<Freed>, nodes: seq<LogNode>, freed: seq<Freed>)
    requires freed == before + PartsFrom(nodes, 0) + [Queue]
    ensures |freed| == |before| + 3 * |nodes| + 1 && freed[|freed| - 1] == Queue
    ensures forall k :: 0 <= k < |nodes| ==> FreedAt(freed, |before| + 3 * k, nodes[k])
  {
    if nodes != [] { PartsAt(nodes, 0, 0); }
    hide FreedAt, PartsFrom;
    forall k | 0 <= k < |nodes| ensures FreedAt(freed, |before| + 3 * k, nodes[k]) {
      OneFreedAt(before, nodes, k);
    }
  }

  lemma Regroup(a: seq<Freed>, b: seq<Freed>, c: seq<Freed>)
    ensures a + (b + c) == (a + b) + c
  {
  }

  method DestroyQueueLoggerNode(n: LogNode, ledger: Ledger)
    modifies ledger
    ensures ledger.freed == old(ledger.freed) + [Buffer(n.record.timeLog), Buffer(n.record.message), Node(n)]
  {
    ledger.Free(Buffer(n.record.timeLog));
    ledger.Free(Buffer(n.record.message));
    ledger.Free(Node(n));
  }

  class LogQueue {
    var head: LogNode?
    var tail: LogNode?
    var stopWait: bool
    ghost var nodes: seq<LogNode>

    ghost predicate Valid()
      reads this, nodes
    {
      (forall i, j :: 0 <= i < j < |nodes| ==> nodes[i] != nodes[j]) &&
      (forall i, j :: 0 <= i && j == i + 1 && j < |nodes| ==> nodes[i].next == nodes[j]) &&
      (nodes != [] ==> nodes[|nodes| - 1].next == null) &&
      head == (if nodes == [] then null else nodes[0]) &&
      tail == (if nodes == [] then null else nodes[|nodes| - 1])
    }

    /** The queued records, oldest first. */
    ghost function Contents(): (c: seq<Record>)
      reads this, nodes
      ensures |c| == |nodes|
    {
      seq(|nodes|, i requires 0 <= i < |nodes| reads this, nodes => nodes[i].record)
    }

    constructor ()
      ensures Valid() && nodes == [] && Contents() == [] && !stopWait
    {
      head, tail, stopWait := null, null, false;
      nodes := [];
    }

    method StopWait()
      modifies this`stopWait
      ensures stopWait
    {
      stopWait := true;
    }

    method Empty() returns (empty: bool)
      requires Valid()
      ensures empty <==> Contents() == []
    {
      empty := head == null || tail == null;
    }

    /** Appends a record.  When the queue is missing, the lock cannot be had, or there is no
        memory for a node, both buffers handed over are freed and nothing else changes. */
    static method PushAndSignal(queue: LogQueue?, record: Record, lockOk: bool, mallocOk: bool,
                                ledger: Ledger)
      returns (status: Status)
      requires queue != null ==> queue.Valid()
      modifies ledger, queue, if queue == null then [] else queue.nodes
      ensures queue != null ==> queue.Valid() && queue.stopWait == old(queue.stopWait)
      ensures status == if queue == null then QueueNullPointer else if !lockOk then LockFailed
                        else if !mallocOk then AllocationFailed else Success
      ensures status != Success ==>
        ledger.freed == old(ledger.freed) + [Buffer(record.timeLog), Buffer(record.message)]
      ensures status == Success ==>
        ledger.freed == old(ledger.freed) &&
        queue.Contents() == old(queue.Contents()) + [record] &&
        |queue.nodes| == |old(queue.nodes)| + 1 && queue.nodes[..|queue.nodes| - 1] == old(queue.nodes) &&
        fresh(queue.nodes[|queue.nodes| - 1])
      ensures status != Success && queue != null ==>
        queue.nodes == old(queue.nodes) && queue.Contents() == old(queue.Contents())
    {
      if queue == null {
        ledger.Free(Buffer(record.timeLog));
        ledger.Free(Buffer(record.message));
        return QueueNullPointer;
      }
      if !lockOk {
        ledger.Free(Buffer(record.timeLog));
        ledger.Free(Buffer(record.message));
        return LockFailed;
      }
      if !mallocOk {
        ledger.Free(Buffer(record.timeLog));
        ledger.Free(Buffer(record.message));
        return AllocationFailed;
      }
      queue.Append(record);
      return Success;
    }

    method Append(record: Record)
      requires Valid()
      modifies this, nodes
      ensures Valid() && stopWait == old(stopWait)
      ensures Contents() == old(Contents()) + [record]
      ensures |nodes| == |old(nodes)| + 1 && nodes[..|nodes| - 1] == old(nodes)
      ensures fresh(nodes[|nodes| - 1])
    {
      var elem := new LogNode(record);
      if tail != null {
        tail.next := elem;
      }
      tail := elem;
      if head == null {
        head := elem;
      }
      nodes := nodes + [elem];
    }

    /** What a pull does once its wait is over: nothing after a stop, else the oldest record. */
    method Take() returns (elem: LogNode?)
      requires Valid()
      modifies this
      ensures Valid() && stopWait == old(stopWait)
      ensures stopWait || old(nodes) == [] ==> elem == null && nodes == old(nodes)
      ensures !stopWait && old(nodes) != [] ==>
        elem == old(nodes)[0] && nodes == old(nodes)[1..] && elem.record == old(Contents())[0] &&
        Contents() == old(Contents())[1..]
    {
      if stopWait {
        return null;
      }
      elem := head;
      ghost var before := nodes;
      if head != null {
        head := head.next;
        nodes := before[1..];
        assert forall i :: 0 <= i < |nodes| ==> nodes[i] == before[i + 1];
        assert nodes != [] ==> nodes[|nodes| - 1] == before[|before| - 1];
      }
      if head == null {
        tail := null;
      }
    }

    /** Frees every queued node with its buffers, oldest first, and then the queue; a missing
        queue or a lock that cannot be had is reported and nothing is freed. */
    static method Destroy(queue: LogQueue?, lockOk: bool, ledger: Ledger) returns (status: Status)
      requires queue != null ==> queue.Valid()
      modifies ledger
      ensures status == if queue == null then QueueNullPointer else if !lockOk then LockFailed else Success
      ensures ledger.freed == if status == Success
                              then old(ledger.freed) + PartsFrom(queue.nodes, 0) + [Queue]
                              else old(ledger.freed)
      ensures status == Success ==>
        |ledger.freed| == |old(ledger.freed)| + 3 * |queue.nodes| + 1 && ledger.freed[|ledger.freed| - 1] == Queue &&
        forall i :: 0 <= i < |queue.nodes| ==> FreedAt(ledger.freed, |old(ledger.freed)| + 3 * i, queue.nodes[i])
    {
      hide LogQueue.Contents, FreedAt;
      if queue == null {
        return QueueNullPointer;
      }
      if !lockOk {
        return LockFailed;
      }
      var current := queue.head;
      ghost var nodes, i := queue.nodes, 0;
      var empty := queue.Empty();
      if !empty {
        while current != null
          invariant 0 <= i <= |nodes| && current == (if i < |nodes| then nodes[i] else null)
          invariant ledger.freed + PartsFrom(nodes, i) == old(ledger.freed) + PartsFrom(nodes, 0)
          decreases |nodes| - i
        {
          var next := current.next;
          Regroup(ledger.freed, NodeParts(current), PartsFrom(nodes, i + 1));
          DestroyQueueLoggerNode(current, ledger);
          current := next;
          i := i + 1;
        }
      }
      assert PartsFrom(nodes, |nodes|) == [];
      ledger.Free(Queue);
      AllFreedAt(old(ledger.freed), nodes, ledger.freed);
      return Success;
    }
  }
}
