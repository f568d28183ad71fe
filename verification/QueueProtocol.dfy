/** The queue's locking protocol as a state machine: any number of producers, the logging
    thread as consumer, and one stopper that later tears the queue down.  A step is one
    action of one thread, so a run is any interleaving. */
module QueueProtocol {
  import opened Wrappers

  // ---------- Threads ----------

  /** Where a producer is inside its push of message `id`. */
  datatype Producer =
    | Idle
    | Locking(id: nat)      // called, not yet holding the lock
    | Locked(id: nat)       // holding it, node not yet allocated
    | Linked(id: nat)       // node in the list, not yet signalled
    | Unlocking

  datatype Consumer =
    | Entering              // about to lock, at the start of a pull
    | Testing               // in the wait loop, before the emptiness test
    | Nested                // inside the emptiness test: the recursive lock held twice
    | Tested(empty: bool)   // after it, before looking at the stop flag
    | Parked(signalled: bool)
    | Taking                // past the loop
    | Leaving(result: Option<nat>)
    | Holding(id: nat)      // logging a message it has pulled
    | Ended

  datatype Stopper =
    | NotStopping
    | StopLocked
    | StopSet               // flag set, not yet signalled
    | StopUnlocking
    | Joining
    | Joined
    | Freeing(rest: seq<nat>)
    | Done

  datatype Owner = ByProducer(t: nat) | ByConsumer | ByStopper | Nobody

  /** What is allocated for a message: two buffers from its caller, and a node. */
  datatype Resource = TimeLog(id: nat) | Text(id: nat) | Node(id: nat)

  /** Who is to free a message: a history variable. */
  datatype Place = WithProducer(t: nat) | Queued | WithConsumer | Freed

  datatype State = State(
    owner: Owner, depth: nat,
    queue: seq<nat>, stop: bool,
    producers: map<nat, Producer>, consumer: Consumer, stopper: Stopper,
    place: seq<Place>,         // one entry for each message ever handed to push
    accepted: seq<nat>,        // pushes that succeeded, in order
    pulled: seq<nat>,          // pulls that returned a message, in order
    freed: multiset<Resource>)

  function Init(threads: set<nat>): State {
    State(Nobody, 0, [], false, map t | t in threads :: Idle, Entering, NotStopping, [], [], [], multiset{})
  }

  // ---------- Steps ----------

  datatype ProducerStep =
    | Push                       // called with a new message
    | PushLockFails
    | PushLock
    | PushAllocFails
    | PushLink
    | PushSignal
    | PushUnlock

  datatype ConsumerStep =
    | PullLock
    | EmptyLock
    | EmptyUnlock
    | Wait
    | LoopDone
    | Wake                       // after a signal
    | SpuriousWake
    | TakeStop
    | TakeNode
    | PullUnlock
    | DestroyNode

  datatype StopperStep =
    | StopLock
    | SetStop
    | StopSignal
    | StopUnlock
    | Join
    | DestroyLock
    | FreeOne
    | DestroyUnlock

  datatype Step = OfProducer(t: nat, p: ProducerStep) | OfConsumer(c: ConsumerStep) | OfStopper(s: StopperStep)

  predicate AllIdle(s: State) {
    forall t :: t in s.producers ==> s.producers[t].Idle?
  }

  /** Once the queue is being torn down, nobody may start a push: its memory is going. */
  predicate TornDown(s: State) {
    s.stopper.Freeing? || s.stopper.Done?
  }

  predicate ProducerEnabled(s: State, t: nat, step: ProducerStep) {
    t in s.producers &&
    match step
    case Push => s.producers[t].Idle? && !TornDown(s)
    case PushLockFails => s.producers[t].Locking?
    case PushLock => s.producers[t].Locking? && s.owner.Nobody?
    case PushAllocFails => s.producers[t].Locked?
    case PushLink => s.producers[t].Locked?
    case PushSignal => s.producers[t].Linked?
    case PushUnlock => s.producers[t].Unlocking?
  }

  predicate ConsumerEnabled(s: State, step: ConsumerStep) {
    match step
    case PullLock => s.consumer.Entering? && s.owner.Nobody?
    case EmptyLock => s.consumer.Testing?
    case EmptyUnlock => s.consumer.Nested?
    case Wait => s.consumer == Tested(true) && !s.stop
    case LoopDone => s.consumer.Tested? && (!s.consumer.empty || s.stop)
    case Wake => s.consumer == Parked(true) && s.owner.Nobody?
    case SpuriousWake => s.consumer.Parked? && s.owner.Nobody?
    case TakeStop => s.consumer.Taking? && s.stop
    case TakeNode => s.consumer.Taking? && !s.stop
    case PullUnlock => s.consumer.Leaving?
    case DestroyNode => s.consumer.Holding?
  }

  predicate StopperEnabled(s: State, step: StopperStep) {
    match step
    case StopLock => s.stopper.NotStopping? && s.owner.Nobody?
    case SetStop => s.stopper.StopLocked?
    case StopSignal => s.stopper.StopSet?
    case StopUnlock => s.stopper.StopUnlocking?
    case Join => s.stopper.Joining? && s.consumer.Ended?
    case DestroyLock => s.stopper.Joined? && AllIdle(s) && s.owner.Nobody?
    case FreeOne => s.stopper.Freeing? && s.stopper.rest != []
    case DestroyUnlock => s.stopper.Freeing? && s.stopper.rest == []
  }

  predicate Enabled(s: State, step: Step) {
    match step
    case OfProducer(t, p) => ProducerEnabled(s, t, p)
    case OfConsumer(c) => ConsumerEnabled(s, c)
    case OfStopper(p) => StopperEnabled(s, p)
  }

  function Acquired(s: State, who: Owner): State {
    s.(owner := who, depth := s.depth + 1)
  }

  function Released(s: State): State {
    if s.depth <= 1 then s.(owner := Nobody, depth := 0) else s.(depth := s.depth - 1)
  }

  /** Signalling wakes the consumer if it is parked, and is lost otherwise. */
  function Signalled(s: State): State {
    if s.consumer.Parked? then s.(consumer := Parked(true)) else s
  }

  function Move(s: State, t: nat, p: Producer): State {
    s.(producers := s.producers[t := p])
  }

  function Placed(s: State, id: nat, p: Place): (r: State)
    ensures |r.place| == |s.place|
    ensures r == s.(place := r.place)
  {
    if id < |s.place| then s.(place := s.place[id := p]) else s
  }

  function FreeBuffers(s: State, id: nat): State {
    Placed(s, id, Freed).(freed := s.freed + multiset{TimeLog(id), Text(id)})
  }

  function FreeNode(s: State, id: nat): State {
    Placed(s, id, Freed).(freed := s.freed + multiset{TimeLog(id), Text(id), Node(id)})
  }

  function DoProducer(s: State, t: nat, step: ProducerStep): State
    requires ProducerEnabled(s, t, step)
  {
    match step
    case Push => Move(s.(place := s.place + [WithProducer(t)]), t, Locking(|s.place|))
    case PushLockFails => Move(FreeBuffers(s, s.producers[t].id), t, Idle)
    case PushLock => Move(Acquired(s, ByProducer(t)), t, Locked(s.producers[t].id))
    case PushAllocFails => Move(FreeBuffers(s, s.producers[t].id), t, Unlocking)
    case PushLink =>
      var id := s.producers[t].id;
      Move(Placed(s.(queue := s.queue + [id], accepted := s.accepted + [id]), id, Queued), t, Linked(id))
    case PushSignal => Move(Signalled(s), t, Unlocking)
    case PushUnlock => Move(Released(s), t, Idle)
  }

  function DoConsumer(s: State, step: ConsumerStep): State
    requires ConsumerEnabled(s, step)
  {
    match step
    case PullLock => Acquired(s, ByConsumer).(consumer := Testing)
    case EmptyLock => Acquired(s, ByConsumer).(consumer := Nested)
    case EmptyUnlock => Released(s).(consumer := Tested(s.queue == []))
    case Wait => Released(s).(consumer := Parked(false))
    case LoopDone => s.(consumer := Taking)
    case Wake => Acquired(s, ByConsumer).(consumer := Testing)
    case SpuriousWake => Acquired(s, ByConsumer).(consumer := Testing)
    case TakeStop => s.(consumer := Leaving(None))
    case TakeNode =>
      if s.queue == [] then s.(consumer := Leaving(None))
      else Placed(s, s.queue[0], WithConsumer).(queue := s.queue[1..], pulled := s.pulled + [s.queue[0]],
                                                consumer := Leaving(Some(s.queue[0])))
    case PullUnlock =>
      Released(s).(consumer := if s.consumer.result.None? then Ended else Holding(s.consumer.result.value))
    case DestroyNode => FreeNode(s, s.consumer.id).(consumer := Entering)
  }

  function DoStopper(s: State, step: StopperStep): State
    requires StopperEnabled(s, step)
  {
    match step
    case StopLock => Acquired(s, ByStopper).(stopper := StopLocked)
    case SetStop => s.(stop := true, stopper := StopSet)
    case StopSignal => Signalled(s).(stopper := StopUnlocking)
    case StopUnlock => Released(s).(stopper := Joining)
    case Join => s.(stopper := Joined)
    case DestroyLock => Acquired(s, ByStopper).(stopper := Freeing(s.queue))
    case FreeOne => FreeNode(s, s.stopper.rest[0]).(stopper := Freeing(s.stopper.rest[1..]))
    case DestroyUnlock => Released(s).(stopper := Done)
  }

  function Do(s: State, step: Step): State
    requires Enabled(s, step)
  {
    match step
    case OfProducer(t, p) => DoProducer(s, t, p)
    case OfConsumer(c) => DoConsumer(s, c)
    case OfStopper(p) => DoStopper(s, p)
  }

  // ---------- The invariant ----------

  predicate ProducerHolds(p: Producer) {
    p.Locked? || p.Linked? || p.Unlocking?
  }

  predicate ConsumerHolds(c: Consumer) {
    c.Testing? || c.Nested? || c.Tested? || c.Taking? || c.Leaving?
  }

  predicate StopperHolds(p: Stopper) {
    p.StopLocked? || p.StopSet? || p.StopUnlocking? || p.Freeing?
  }

  /** Mutual exclusion, and how deep the recursive lock is held. */
  ghost predicate LockInv(s: State) {
    (forall t :: t in s.producers ==> (ProducerHolds(s.producers[t]) <==> s.owner == ByProducer(t))) &&
    (s.owner.ByProducer? ==> s.owner.t in s.producers) &&
    (ConsumerHolds(s.consumer) <==> s.owner.ByConsumer?) &&
    (StopperHolds(s.stopper) <==> s.owner.ByStopper?) &&
    s.depth == if s.owner.Nobody? then 0 else if s.consumer.Nested? then 2 else 1
  }

  /** The stop flag, and what each thread may conclude from it. */
  ghost predicate StopInv(s: State) {
    (s.stop <==> !s.stopper.NotStopping? && !s.stopper.StopLocked?) &&
    (s.consumer.Ended? || s.consumer == Leaving(None) ==> s.stop) &&
    (s.stopper.Joined? || TornDown(s) ==> s.consumer.Ended?) &&
    (TornDown(s) ==> AllIdle(s))
  }

  /** What the consumer knows of the queue while it holds the lock. */
  ghost predicate TestInv(s: State) {
    (s.consumer.Tested? ==> s.consumer.empty == (s.queue == [])) &&
    (s.consumer.Taking? ==> s.stop || s.queue != [])
  }

  /** Some thread holds the lock and is about to signal. */
  ghost predicate SignalComing(s: State) {
    s.stopper.StopSet? || (s.owner.ByProducer? && s.owner.t in s.producers && s.producers[s.owner.t].Linked?)
  }

  /** No lost wake-up: parked with no signal pending, the consumer has nothing to do. */
  ghost predicate WakeInv(s: State) {
    s.consumer == Parked(false) ==> (s.queue == [] && !s.stop) || SignalComing(s)
  }

  ghost predicate FifoInv(s: State) {
    s.accepted == s.pulled + s.queue
  }

  /** Messages not yet freed that are in the list. */
  function InList(s: State): seq<nat> {
    if s.stopper.Freeing? then s.stopper.rest else if s.stopper.Done? then [] else s.queue
  }

  ghost predicate Distinct(q: seq<nat>) {
    forall i, j :: 0 <= i < j < |q| ==> q[i] != q[j]
  }

  predicate Carries(p: Producer, id: nat) {
    (p.Locking? || p.Locked?) && p.id == id
  }

  predicate ConsumerCarries(c: Consumer, id: nat) {
    c == Holding(id) || c == Leaving(Some(id))
  }

  ghost predicate ListInv(s: State) {
    Distinct(InList(s)) &&
    (forall id :: id in InList(s) ==> id < |s.place|) &&
    (forall id :: 0 <= id < |s.place| ==> (s.place[id].Queued? <==> id in InList(s)))
  }

  ghost predicate ProducerPlaceInv(s: State) {
    (forall t :: t in s.producers && Carrying(s.producers[t]) ==>
       s.producers[t].id < |s.place| && s.place[s.producers[t].id] == WithProducer(t)) &&
    (forall id :: 0 <= id < |s.place| && s.place[id].WithProducer? ==>
       s.place[id].t in s.producers && Carries(s.producers[s.place[id].t], id))
  }

  ghost predicate ConsumerPlaceInv(s: State) {
    (s.consumer.Holding? ==> s.consumer.id < |s.place|) &&
    (s.consumer.Leaving? && s.consumer.result.Some? ==> s.consumer.result.value < |s.place|) &&
    (forall id :: 0 <= id < |s.place| ==> (s.place[id].WithConsumer? <==> ConsumerCarries(s.consumer, id)))
  }

  /** Each message is in exactly one place. */
  ghost predicate PlaceInv(s: State) {
    ListInv(s) && ProducerPlaceInv(s) && ConsumerPlaceInv(s)
  }

  /** Whether message `id` got a node, and so is past its producer's failure paths. */
  ghost predicate NodeInv(s: State) {
    (forall id :: id in s.accepted ==> id < |s.place| && !s.place[id].WithProducer?) &&
    (forall id :: 0 <= id < |s.place| && (s.place[id].Queued? || s.place[id].WithConsumer?) ==> id in s.accepted)
  }

  /** A message's buffers are freed once if it is in no other place, and its node likewise. */
  ghost predicate FreedInv(s: State) {
    forall id :: s.freed[TimeLog(id)] == FreedTimes(s, id) && s.freed[Text(id)] == FreedTimes(s, id) &&
                 s.freed[Node(id)] == (if id in s.accepted then FreedTimes(s, id) else 0)
  }

  ghost function FreedTimes(s: State, id: nat): nat {
    if id < |s.place| && s.place[id].Freed? then 1 else 0
  }

  ghost predicate Inv(s: State) {
    LockInv(s) && StopInv(s) && TestInv(s) && WakeInv(s) && FifoInv(s) && PlaceInv(s) && NodeInv(s) && FreedInv(s)
  }

  // ---------- Every step keeps it ----------

  lemma PopFirst(q: seq<nat>)
    requires q != [] && Distinct(q)
    ensures q[0] in q && Distinct(q[1..])
    ensures forall id :: id in q[1..] <==> id in q && id != q[0]
  {
    assert q == [q[0]] + q[1..];
  }

  lemma ProducerKeepsLock(s: State, t: nat, step: ProducerStep)
    requires LockInv(s) && ProducerEnabled(s, t, step)
    ensures LockInv(DoProducer(s, t, step))
  {
  }

  lemma ConsumerKeepsLock(s: State, step: ConsumerStep)
    requires LockInv(s) && ConsumerEnabled(s, step)
    ensures LockInv(DoConsumer(s, step))
  {
  }

  lemma StopperKeepsLock(s: State, step: StopperStep)
    requires LockInv(s) && StopperEnabled(s, step)
    ensures LockInv(DoStopper(s, step))
  {
  }

  lemma ProducerKeepsStop(s: State, t: nat, step: ProducerStep)
    requires LockInv(s) && StopInv(s) && TestInv(s) && ProducerEnabled(s, t, step)
    ensures StopInv(DoProducer(s, t, step))
  {
  }

  lemma ConsumerKeepsStop(s: State, step: ConsumerStep)
    requires LockInv(s) && StopInv(s) && TestInv(s) && ConsumerEnabled(s, step)
    ensures StopInv(DoConsumer(s, step))
  {
  }

  lemma StopperKeepsStop(s: State, step: StopperStep)
    requires LockInv(s) && StopInv(s) && TestInv(s) && StopperEnabled(s, step)
    ensures StopInv(DoStopper(s, step))
  {
  }

  lemma ProducerKeepsTest(s: State, t: nat, step: ProducerStep)
    requires LockInv(s) && StopInv(s) && TestInv(s) && ProducerEnabled(s, t, step)
    ensures TestInv(DoProducer(s, t, step))
  {
  }

  lemma ConsumerKeepsTest(s: State, step: ConsumerStep)
    requires LockInv(s) && StopInv(s) && TestInv(s) && ConsumerEnabled(s, step)
    ensures TestInv(DoConsumer(s, step))
  {
  }

  lemma StopperKeepsTest(s: State, step: StopperStep)
    requires LockInv(s) && StopInv(s) && TestInv(s) && StopperEnabled(s, step)
    ensures TestInv(DoStopper(s, step))
  {
  }

  lemma ProducerKeepsWake(s: State, t: nat, step: ProducerStep)
    requires LockInv(s) && StopInv(s) && TestInv(s) && WakeInv(s) && ProducerEnabled(s, t, step)
    ensures WakeInv(DoProducer(s, t, step))
  {
  }

  lemma ConsumerKeepsWake(s: State, step: ConsumerStep)
    requires LockInv(s) && StopInv(s) && TestInv(s) && WakeInv(s) && ConsumerEnabled(s, step)
    ensures WakeInv(DoConsumer(s, step))
  {
  }

  lemma StopperKeepsWake(s: State, step: StopperStep)
    requires LockInv(s) && StopInv(s) && TestInv(s) && WakeInv(s) && StopperEnabled(s, step)
    ensures WakeInv(DoStopper(s, step))
  {
  }

  lemma ProducerKeepsFifo(s: State, t: nat, step: ProducerStep)
    requires FifoInv(s) && ProducerEnabled(s, t, step)
    ensures FifoInv(DoProducer(s, t, step))
  {
  }

  lemma ConsumerKeepsFifo(s: State, step: ConsumerStep)
    requires FifoInv(s) && ConsumerEnabled(s, step)
    ensures FifoInv(DoConsumer(s, step))
  {
  }

  lemma StopperKeepsFifo(s: State, step: StopperStep)
    requires FifoInv(s) && StopperEnabled(s, step)
    ensures FifoInv(DoStopper(s, step))
  {
  }

  lemma ListSame(s: State, s': State)
    requires ListInv(s) && InList(s') == InList(s) && |s.place| <= |s'.place|
    requires forall id :: 0 <= id < |s.place| ==>
      s'.place[id] == s.place[id] || (s.place[id].WithProducer? && s'.place[id].Freed?)
    requires forall id :: |s.place| <= id < |s'.place| ==> s'.place[id].WithProducer?
    ensures ListInv(s')
  {
  }

  lemma ListLinks(s: State, id: nat, s': State)
    requires ListInv(s) && id < |s.place| && s.place[id].WithProducer?
    requires InList(s') == InList(s) + [id] && s'.place == s.place[id := Queued]
    ensures ListInv(s')
  {
  }

  lemma ProducerKeepsList(s: State, t: nat, step: ProducerStep)
    requires LockInv(s) && StopInv(s) && PlaceInv(s) && ProducerEnabled(s, t, step)
    ensures ListInv(DoProducer(s, t, step))
  {
    var s' := DoProducer(s, t, step);
    if step.PushLink? {
      ListLinks(s, s.producers[t].id, s');
    } else {
      ListSame(s, s');
    }
  }

  lemma ConsumerKeepsList(s: State, step: ConsumerStep)
    requires LockInv(s) && StopInv(s) && PlaceInv(s) && ConsumerEnabled(s, step)
    ensures ListInv(DoConsumer(s, step))
  {
    if step.TakeNode? && s.queue != [] { PopFirst(s.queue); }
  }

  lemma StopperKeepsList(s: State, step: StopperStep)
    requires LockInv(s) && StopInv(s) && PlaceInv(s) && StopperEnabled(s, step)
    ensures ListInv(DoStopper(s, step))
  {
    if step.FreeOne? { PopFirst(s.stopper.rest); }
  }

  /** A push starts: its message is with its producer. */
  lemma NewMessage(s: State, t: nat, s': State)
    requires ProducerPlaceInv(s) && t in s.producers && s.producers[t].Idle?
    requires s'.place == s.place + [WithProducer(t)] && s'.producers == s.producers[t := Locking(|s.place|)]
    ensures ProducerPlaceInv(s')
  {
  }

  /** A producer is done with its message, which is now in the list or freed. */
  lemma HandsOver(s: State, t: nat, s': State)
    requires ProducerPlaceInv(s) && t in s.producers && Carrying(s.producers[t])
    requires s.producers[t].id < |s.place| == |s'.place| && !s'.place[s.producers[t].id].WithProducer?
    requires s'.place == s.place[s.producers[t].id := s'.place[s.producers[t].id]]
    requires t in s'.producers && s'.producers == s.producers[t := s'.producers[t]]
    requires !Carrying(s'.producers[t])
    ensures ProducerPlaceInv(s')
  {
  }

  predicate Carrying(p: Producer) {
    p.Locking? || p.Locked?
  }

  lemma CarriesOn(s: State, t: nat, s': State)
    requires ProducerPlaceInv(s) && s'.place == s.place
    requires t in s.producers && t in s'.producers && s'.producers == s.producers[t := s'.producers[t]]
    requires Carrying(s.producers[t]) == Carrying(s'.producers[t])
    requires Carrying(s.producers[t]) ==> s.producers[t].id == s'.producers[t].id
    ensures ProducerPlaceInv(s')
  {
  }

  lemma ProducerKeepsProducerPlace(s: State, t: nat, step: ProducerStep)
    requires LockInv(s) && StopInv(s) && PlaceInv(s) && ProducerEnabled(s, t, step)
    ensures ProducerPlaceInv(DoProducer(s, t, step))
  {
    var s' := DoProducer(s, t, step);
    match step
    case Push => NewMessage(s, t, s');
    case PushLockFails => HandsOver(s, t, s');
    case PushAllocFails => HandsOver(s, t, s');
    case PushLink => HandsOver(s, t, s');
    case PushLock => CarriesOn(s, t, s');
    case PushSignal => CarriesOn(s, t, s');
    case PushUnlock => CarriesOn(s, t, s');
  }

  lemma ConsumerKeepsProducerPlace(s: State, step: ConsumerStep)
    requires LockInv(s) && StopInv(s) && PlaceInv(s) && ConsumerEnabled(s, step)
    ensures ProducerPlaceInv(DoConsumer(s, step))
  {
    if step.TakeNode? && s.queue != [] { assert s.queue[0] in InList(s); }
  }

  lemma StopperKeepsProducerPlace(s: State, step: StopperStep)
    requires LockInv(s) && StopInv(s) && PlaceInv(s) && StopperEnabled(s, step)
    ensures ProducerPlaceInv(DoStopper(s, step))
  {
  }

  /** Producers move only what is not with the consumer, and not to it. */
  lemma ConsumerUntouched(s: State, s': State)
    requires ConsumerPlaceInv(s) && (s'.consumer == s.consumer || (s.consumer.Parked? && s'.consumer.Parked?))
    requires |s.place| <= |s'.place|
    requires forall id :: 0 <= id < |s.place| ==>
      s'.place[id] == s.place[id] || (s.place[id].WithProducer? && !s'.place[id].WithConsumer?)
    requires forall id :: |s.place| <= id < |s'.place| ==> s'.place[id].WithProducer?
    ensures ConsumerPlaceInv(s')
  {
  }

  lemma ProducerKeepsConsumerPlace(s: State, t: nat, step: ProducerStep)
    requires LockInv(s) && StopInv(s) && PlaceInv(s) && ProducerEnabled(s, t, step)
    ensures ConsumerPlaceInv(DoProducer(s, t, step))
  {
    ProducerPlaceOf(s, t);
    hide LockInv, StopInv, ListInv, ProducerPlaceInv, ConsumerPlaceInv, Carrying, Carries;
    ConsumerUntouched(s, DoProducer(s, t, step));
  }

  lemma ProducerPlaceOf(s: State, t: nat)
    requires ProducerPlaceInv(s) && t in s.producers
    ensures var p := s.producers[t];
            p.Locking? || p.Locked? ==> p.id < |s.place| && s.place[p.id] == WithProducer(t)
  {
  }

  lemma ConsumerKeepsConsumerPlace(s: State, step: ConsumerStep)
    requires LockInv(s) && StopInv(s) && PlaceInv(s) && ConsumerEnabled(s, step)
    ensures ConsumerPlaceInv(DoConsumer(s, step))
  {
    if step.TakeNode? && s.queue != [] { assert s.queue[0] in InList(s); }
  }

  lemma StopperKeepsConsumerPlace(s: State, step: StopperStep)
    requires LockInv(s) && StopInv(s) && PlaceInv(s) && StopperEnabled(s, step)
    ensures ConsumerPlaceInv(DoStopper(s, step))
  {
  }

  /** Messages start with a producer, and may be freed from there without a node. */
  lemma NodesSame(s: State, s': State)
    requires NodeInv(s) && s'.accepted == s.accepted && |s.place| <= |s'.place|
    requires forall id :: 0 <= id < |s.place| ==>
      s'.place[id] == s.place[id] || (s.place[id].WithProducer? && s'.place[id].Freed? && id !in s.accepted)
    requires forall id :: |s.place| <= id < |s'.place| ==> s'.place[id].WithProducer?
    ensures NodeInv(s')
  {
  }

  lemma ProducerKeepsNode(s: State, t: nat, step: ProducerStep)
    requires LockInv(s) && StopInv(s) && PlaceInv(s) && NodeInv(s) && ProducerEnabled(s, t, step)
    ensures NodeInv(DoProducer(s, t, step))
  {
    if !step.PushLink? {
      NodesSame(s, DoProducer(s, t, step));
    }
  }

  lemma ConsumerKeepsNode(s: State, step: ConsumerStep)
    requires LockInv(s) && StopInv(s) && PlaceInv(s) && NodeInv(s) && ConsumerEnabled(s, step)
    ensures NodeInv(DoConsumer(s, step))
  {
  }

  lemma StopperKeepsNode(s: State, step: StopperStep)
    requires LockInv(s) && StopInv(s) && PlaceInv(s) && NodeInv(s) && StopperEnabled(s, step)
    ensures NodeInv(DoStopper(s, step))
  {
  }

  /** Nothing is freed, and a newly accepted message was not freed before. */
  lemma FreesNone(s: State, s': State)
    requires FreedInv(s) && s'.freed == s.freed
    requires forall id: nat :: FreedTimes(s', id) == FreedTimes(s, id)
    requires forall id :: id in s.accepted ==> id in s'.accepted
    requires forall id :: id in s'.accepted && id !in s.accepted ==> FreedTimes(s, id) == 0
    ensures FreedInv(s')
  {
  }

  /** A message that never got into the list: its two buffers go. */
  lemma FreesBuffers(s: State, id: nat, s': State)
    requires FreedInv(s) && id < |s.place| && !s.place[id].Freed? && id !in s.accepted
    requires s'.place == s.place[id := Freed] && s'.accepted == s.accepted
    requires s'.freed == s.freed + multiset{TimeLog(id), Text(id)}
    ensures FreedInv(s')
  {
  }

  /** A message that was in the list: its buffers and its node go. */
  lemma FreesAll(s: State, id: nat, s': State)
    requires FreedInv(s) && id < |s.place| && !s.place[id].Freed? && id in s.accepted
    requires s'.place == s.place[id := Freed] && s'.accepted == s.accepted
    requires s'.freed == s.freed + multiset{TimeLog(id), Text(id), Node(id)}
    ensures FreedInv(s')
  {
  }

  lemma ProducerKeepsFreed(s: State, t: nat, step: ProducerStep)
    requires LockInv(s) && StopInv(s) && PlaceInv(s) && NodeInv(s) && FreedInv(s) && ProducerEnabled(s, t, step)
    ensures FreedInv(DoProducer(s, t, step))
  {
    var s' := DoProducer(s, t, step);
    if step.PushLockFails? || step.PushAllocFails? {
      FreesBuffers(s, s.producers[t].id, s');
    } else {
      FreesNone(s, s');
    }
  }

  lemma ConsumerKeepsFreed(s: State, step: ConsumerStep)
    requires LockInv(s) && StopInv(s) && PlaceInv(s) && NodeInv(s) && FreedInv(s) && ConsumerEnabled(s, step)
    ensures FreedInv(DoConsumer(s, step))
  {
    var s' := DoConsumer(s, step);
    if step.DestroyNode? {
      FreesAll(s, s.consumer.id, s');
    } else {
      if step.TakeNode? && s.queue != [] { assert s.queue[0] in InList(s); }
      FreesNone(s, s');
    }
  }

  lemma StopperKeepsFreed(s: State, step: StopperStep)
    requires LockInv(s) && StopInv(s) && PlaceInv(s) && NodeInv(s) && FreedInv(s) && StopperEnabled(s, step)
    ensures FreedInv(DoStopper(s, step))
  {
    var s' := DoStopper(s, step);
    if step.FreeOne? {
      assert s.stopper.rest[0] in InList(s);
      FreesAll(s, s.stopper.rest[0], s');
    } else {
      FreesNone(s, s');
    }
  }
}
