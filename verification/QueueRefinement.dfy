/** The linked list does, inside the lock, what the protocol's steps do to its queue. */
module QueueRefinement {
  import opened LogQueueList
  import P = QueueProtocol

  /** A message is known to the protocol by the handle of its text. */
  ghost function Ids(c: seq<Record>): (ids: seq<nat>)
    ensures |ids| == |c| && forall i :: 0 <= i < |c| ==> ids[i] == c[i].message
  {
    seq(|c|, i requires 0 <= i < |c| => c[i].message)
  }

  /** The list holds the protocol's queue and stop flag. */
  ghost predicate Holds(q: LogQueue, s: P.State)
    reads q, q.nodes
    requires q.Valid()
  {
    Ids(q.Contents()) == s.queue && q.stopWait == s.stop
  }

  /** Linking a node. */
  method Link(q: LogQueue, record: Record, ghost s: P.State, ghost t: nat)
    requires q.Valid() && Holds(q, s)
    requires t in s.producers && s.producers[t] == P.Locked(record.message)
    modifies q, q.nodes
    ensures q.Valid() && Holds(q, P.DoProducer(s, t, P.PushLink))
  {
    q.Append(record);
    assert Ids(q.Contents()) == s.queue + [record.message];
  }

  /** The emptiness test the consumer decides on. */
  method TestEmpty(q: LogQueue, ghost s: P.State) returns (empty: bool)
    requires q.Valid() && Holds(q, s) && s.consumer.Nested?
    ensures P.DoConsumer(s, P.EmptyUnlock).consumer == P.Tested(empty)
  {
    empty := q.Empty();
    assert |Ids(q.Contents())| == |q.Contents()|;
  }

  /** The end of a pull, stopped or not: the record returned is the message the step returns. */
  method TakeOne(q: LogQueue, ghost s: P.State) returns (elem: LogNode?)
    requires q.Valid() && Holds(q, s) && s.consumer.Taking?
    modifies q
    ensures q.Valid()
    ensures var s' := P.DoConsumer(s, if s.stop then P.TakeStop else P.TakeNode);
            Holds(q, s') && s'.consumer.Leaving? &&
            (elem == null <==> s'.consumer.result.None?) &&
            (elem != null ==> s'.consumer.result.value == elem.record.message)
  {
    elem := q.Take();
    assert Ids(q.Contents()) == if s.stop || s.queue == [] then s.queue else s.queue[1..];
  }

  /** The stop request. */
  method SetStop(q: LogQueue, ghost s: P.State)
    requires q.Valid() && Holds(q, s) && s.stopper.StopLocked?
    modifies q`stopWait
    ensures q.Valid() && Holds(q, P.DoStopper(s, P.SetStop))
  {
    q.StopWait();
  }

  // ---------- What is freed ----------

  /** The protocol's names for what the code frees; the queue itself has none. */
  type Names = map<Freed, P.Resource>

  ghost predicate Named(names: Names, r: Record, id: nat) {
    Buffer(r.timeLog) in names && names[Buffer(r.timeLog)] == P.TimeLog(id) &&
    Buffer(r.message) in names && names[Buffer(r.message)] == P.Text(id)
  }

  ghost predicate NodeNamed(names: Names, n: LogNode, id: nat)
    reads n
  {
    Named(names, n.record, id) && Node(n) in names && names[Node(n)] == P.Node(id)
  }

  /** A ledger in the protocol's terms: how often each thing was freed. */
  ghost function Tally(freed: seq<Freed>, names: Names): multiset<P.Resource> {
    if freed == [] then multiset{}
    else
      var (init, last) := (freed[..|freed| - 1], freed[|freed| - 1]);
      Tally(init, names) + (if last in names then multiset{names[last]} else multiset{})
  }

  lemma TallyOne(freed: seq<Freed>, item: Freed, names: Names)
    ensures Tally(freed + [item], names) ==
            Tally(freed, names) + (if item in names then multiset{names[item]} else multiset{})
  {
    assert (freed + [item])[..|freed|] == freed;
  }

  lemma TallyTwo(freed: seq<Freed>, x: Freed, y: Freed, names: Names)
    requires x in names && y in names
    ensures Tally(freed + [x, y], names) == Tally(freed, names) + multiset{names[x], names[y]}
  {
    hide Tally;
    TallyOne(freed, x, names);
    TallyOne(freed + [x], y, names);
    assert freed + [x, y] == freed + [x] + [y];
  }

  lemma TallyThree(freed: seq<Freed>, x: Freed, y: Freed, z: Freed, names: Names)
    requires x in names && y in names && z in names
    ensures Tally(freed + [x, y, z], names) == Tally(freed, names) + multiset{names[x], names[y], names[z]}
  {
    hide Tally;
    TallyTwo(freed, x, y, names);
    TallyOne(freed + [x, y], z, names);
    assert freed + [x, y, z] == freed + [x, y] + [z];
  }

  lemma TallyNode(freed: seq<Freed>, n: LogNode, id: nat, names: Names)
    requires NodeNamed(names, n, id)
    ensures Tally(freed + [Buffer(n.record.timeLog), Buffer(n.record.message), Node(n)], names) ==
            Tally(freed, names) + multiset{P.TimeLog(id), P.Text(id), P.Node(id)}
  {
    TallyThree(freed, Buffer(n.record.timeLog), Buffer(n.record.message), Node(n), names);
    hide Tally;
  }

  /** The consumer frees what it pulled. */
  method FreePulled(n: LogNode, ledger: Ledger, ghost s: P.State, ghost names: Names)
    requires s.consumer == P.Holding(n.record.message) && NodeNamed(names, n, n.record.message)
    requires Tally(ledger.freed, names) == s.freed
    modifies ledger
    ensures Tally(ledger.freed, names) == P.DoConsumer(s, P.DestroyNode).freed
  {
    TallyNode(ledger.freed, n, n.record.message, names);
    DestroyQueueLoggerNode(n, ledger);
  }

  /** A push that cannot lock, or has no memory for a node, frees both buffers. */
  method FailPush(q: LogQueue, record: Record, lockOk: bool, ledger: Ledger, ghost s: P.State, ghost t: nat,
                  ghost names: Names)
    requires q.Valid() && t in s.producers && Named(names, record, record.message)
    requires s.producers[t] == if lockOk then P.Locked(record.message) else P.Locking(record.message)
    requires Tally(ledger.freed, names) == s.freed
    modifies ledger, q, q.nodes
    ensures var s' := P.DoProducer(s, t, if lockOk then P.PushAllocFails else P.PushLockFails);
            Tally(ledger.freed, names) == s'.freed
  {
    TallyTwo(ledger.freed, Buffer(record.timeLog), Buffer(record.message), names);
    var status := LogQueue.PushAndSignal(q, record, lockOk, false, ledger);
  }

  /** The state once the stopper has freed the nodes one by one. */
  ghost function AllFreed(s: P.State): P.State
    requires s.stopper.Freeing?
    decreases |s.stopper.rest|
  {
    if s.stopper.rest == [] then s else AllFreed(P.DoStopper(s, P.FreeOne))
  }

  lemma FreeOneIs(s: P.State)
    requires s.stopper.Freeing? && s.stopper.rest != []
    ensures var (s', id) := (P.DoStopper(s, P.FreeOne), s.stopper.rest[0]);
            s'.stopper == P.Freeing(s.stopper.rest[1..]) &&
            s'.freed == s.freed + multiset{P.TimeLog(id), P.Text(id), P.Node(id)}
  {
  }

  lemma {:induction false} PartsTally(freed: seq<Freed>, nodes: seq<LogNode>, ids: seq<nat>, i: nat, s: P.State,
                                      names: Names)
    requires s.stopper.Freeing? && i <= |nodes| == |ids| && Tally(freed, names) == s.freed
    requires s.stopper.rest == ids[i..]
    requires forall k :: 0 <= k < |nodes| ==> NodeNamed(names, nodes[k], ids[k])
    ensures Tally(freed + PartsFrom(nodes, i), names) == AllFreed(s).freed
    decreases |nodes| - i
  {
    hide Tally, NodeNamed, P.DoStopper;
    if i == |nodes| {
      assert freed + PartsFrom(nodes, i) == freed;
    } else {
      var s' := P.DoStopper(s, P.FreeOne);
      var freed' := freed + NodeParts(nodes[i]);
      FreeOneIs(s);
      assert s'.stopper.rest == ids[i + 1..];
      TallyNode(freed, nodes[i], ids[i], names);
      PartsTally(freed', nodes, ids, i + 1, s', names);
      Regroup(freed, NodeParts(nodes[i]), PartsFrom(nodes, i + 1));
    }
  }

  /** Tearing the list down frees what the protocol's stopper frees, node by node. */
  method TearDown(q: LogQueue, ledger: Ledger, ghost s: P.State, ghost names: Names)
    requires q.Valid() && Holds(q, s) && s.stopper == P.Freeing(s.queue)
    requires Tally(ledger.freed, names) == s.freed && Queue !in names
    requires forall n :: n in q.nodes ==> NodeNamed(names, n, n.record.message)
    modifies ledger
    ensures Tally(ledger.freed, names) == AllFreed(s).freed && AllFreed(s).stopper == P.Freeing([])
  {
    ghost var before, parts := ledger.freed, PartsFrom(q.nodes, 0);
    TearDownTally(q, before, s, names);
    hide Tally, NodeNamed, AllFreed, Holds, FreedAt, PartsFrom;
    var status := LogQueue.Destroy(q, true, ledger);
    assert ledger.freed == before + parts + [Queue];
  }

  lemma TearDownTally(q: LogQueue, before: seq<Freed>, s: P.State, names: Names)
    requires q.Valid() && Holds(q, s) && s.stopper == P.Freeing(s.queue)
    requires Tally(before, names) == s.freed && Queue !in names
    requires forall n :: n in q.nodes ==> NodeNamed(names, n, n.record.message)
    ensures Tally(before + PartsFrom(q.nodes, 0) + [Queue], names) == AllFreed(s).freed
    ensures AllFreed(s).stopper == P.Freeing([])
  {
    assert s.queue[0..] == s.queue;
    assert |s.queue| == |q.nodes| && forall k :: 0 <= k < |q.nodes| ==> s.queue[k] == q.nodes[k].record.message;
    hide Tally, NodeNamed, AllFreed, Holds, PartsFrom, LogQueue.Valid;
    PartsTally(before, q.nodes, s.queue, 0, s, names);
    AllFreedRest(s);
    TallyOne(before + PartsFrom(q.nodes, 0), Queue, names);
  }

  lemma {:induction false} AllFreedRest(s: P.State)
    requires s.stopper.Freeing?
    ensures AllFreed(s).stopper == P.Freeing([])
    decreases |s.stopper.rest|
  {
    if s.stopper.rest != [] { AllFreedRest(P.DoStopper(s, P.FreeOne)); }
  }
}
