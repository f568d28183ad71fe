/** What holds at every reachable state of the queue protocol. */
module QueueTheorems {
  import opened QueueProtocol
  import opened Wrappers

  ghost predicate Next(s: State, s': State) {
    exists step :: Enabled(s, step) && s' == Do(s, step)
  }

  /** Any interleaving of any producers, the consumer and the stopper. */
  ghost predicate IsRun(threads: set<nat>, run: seq<State>) {
    run != [] && run[0] == Init(threads) && forall i, j :: 0 <= i && j == i + 1 && j < |run| ==> Next(run[i], run[j])
  }

  lemma InitInv(threads: set<nat>)
    ensures Inv(Init(threads))
  {
  }

  lemma ProducerKeeps(s: State, t: nat, step: ProducerStep)
    requires Inv(s) && ProducerEnabled(s, t, step)
    ensures Inv(DoProducer(s, t, step))
  {
    hide DoProducer, ProducerEnabled, LockInv, StopInv, TestInv, WakeInv, FifoInv, ListInv,
         ProducerPlaceInv, ConsumerPlaceInv, NodeInv, FreedInv;
    ProducerKeepsLock(s, t, step);
    ProducerKeepsStop(s, t, step);
    ProducerKeepsTest(s, t, step);
    ProducerKeepsWake(s, t, step);
    ProducerKeepsFifo(s, t, step);
    ProducerKeepsList(s, t, step);
    ProducerKeepsProducerPlace(s, t, step);
    ProducerKeepsConsumerPlace(s, t, step);
    ProducerKeepsNode(s, t, step);
    ProducerKeepsFreed(s, t, step);
  }

  lemma ConsumerKeeps(s: State, step: ConsumerStep)
    requires Inv(s) && ConsumerEnabled(s, step)
    ensures Inv(DoConsumer(s, step))
  {
    hide DoConsumer, ConsumerEnabled, LockInv, StopInv, TestInv, WakeInv, FifoInv, ListInv,
         ProducerPlaceInv, ConsumerPlaceInv, NodeInv, FreedInv;
    ConsumerKeepsLock(s, step);
    ConsumerKeepsStop(s, step);
    ConsumerKeepsTest(s, step);
    ConsumerKeepsWake(s, step);
    ConsumerKeepsFifo(s, step);
    ConsumerKeepsList(s, step);
    ConsumerKeepsProducerPlace(s, step);
    ConsumerKeepsConsumerPlace(s, step);
    ConsumerKeepsNode(s, step);
    ConsumerKeepsFreed(s, step);
  }

  lemma StopperKeeps(s: State, step: StopperStep)
    requires Inv(s) && StopperEnabled(s, step)
    ensures Inv(DoStopper(s, step))
  {
    hide DoStopper, StopperEnabled, LockInv, StopInv, TestInv, WakeInv, FifoInv, ListInv,
         ProducerPlaceInv, ConsumerPlaceInv, NodeInv, FreedInv;
    StopperKeepsLock(s, step);
    StopperKeepsStop(s, step);
    StopperKeepsTest(s, step);
    StopperKeepsWake(s, step);
    StopperKeepsFifo(s, step);
    StopperKeepsList(s, step);
    StopperKeepsProducerPlace(s, step);
    StopperKeepsConsumerPlace(s, step);
    StopperKeepsNode(s, step);
    StopperKeepsFreed(s, step);
  }

  lemma StepKeeps(s: State, step: Step)
    requires Inv(s) && Enabled(s, step)
    ensures Inv(Do(s, step))
  {
    hide Inv, DoProducer, DoConsumer, DoStopper, ProducerEnabled, ConsumerEnabled, StopperEnabled;
    match step
    case OfProducer(t, p) => ProducerKeeps(s, t, p);
    case OfConsumer(c) => ConsumerKeeps(s, c);
    case OfStopper(p) => StopperKeeps(s, p);
  }

  /** The invariant holds at every state of every run. */
  lemma {:induction false} RunKeeps(threads: set<nat>, run: seq<State>, i: nat)
    requires IsRun(threads, run) && i < |run|
    ensures Inv(run[i])
  {
    hide Inv, Do, Enabled, Init;
    if i == 0 {
      InitInv(threads);
    } else {
      RunKeeps(threads, run, i - 1);
      assert Next(run[i - 1], run[i]);
      var step :| Enabled(run[i - 1], step) && run[i] == Do(run[i - 1], step);
      StepKeeps(run[i - 1], step);
    }
  }

  /** No lost wake-up: whenever the consumer is parked with no signal pending, either a
      thread holding the lock is about to signal, or there is nothing to wake up for; with
      the lock free, the latter. */
  lemma NoLostWakeUp(threads: set<nat>, run: seq<State>, i: nat)
    requires IsRun(threads, run) && i < |run|
    requires run[i].consumer == Parked(false)
    ensures SignalComing(run[i]) || (run[i].queue == [] && !run[i].stop)
    ensures run[i].owner.Nobody? ==> run[i].queue == [] && !run[i].stop
  {
    RunKeeps(threads, run, i);
  }

  /** The recursive lock is held exactly once when the consumer waits, so the wait frees it. */
  lemma HeldOnceAtWait(threads: set<nat>, run: seq<State>, i: nat)
    requires IsRun(threads, run) && i < |run|
    requires ConsumerEnabled(run[i], Wait)
    ensures run[i].owner == ByConsumer && run[i].depth == 1
    ensures DoConsumer(run[i], Wait).owner == Nobody
  {
    RunKeeps(threads, run, i);
  }

  /** Only one thread is in its critical section, and the lock is as deep as that thread made it. */
  lemma MutualExclusion(threads: set<nat>, run: seq<State>, i: nat, t: nat)
    requires IsRun(threads, run) && i < |run|
    requires t in run[i].producers && ProducerHolds(run[i].producers[t])
    ensures !ConsumerHolds(run[i].consumer) && !StopperHolds(run[i].stopper) && run[i].depth == 1
    ensures forall u :: u in run[i].producers && u != t ==> !ProducerHolds(run[i].producers[u])
  {
    RunKeeps(threads, run, i);
  }

  /** A pull ends with nothing only after a stop, and the thread ends only then. */
  lemma NullOnlyAfterStop(threads: set<nat>, run: seq<State>, i: nat)
    requires IsRun(threads, run) && i < |run|
    requires run[i].consumer == Leaving(None) || run[i].consumer.Ended?
    ensures run[i].stop
  {
    RunKeeps(threads, run, i);
  }

  /** First in, first out, nothing lost: accepted pushes are what was pulled and what is queued. */
  lemma FirstInFirstOut(threads: set<nat>, run: seq<State>, i: nat)
    requires IsRun(threads, run) && i < |run|
    ensures run[i].accepted == run[i].pulled + run[i].queue
  {
    RunKeeps(threads, run, i);
  }

  lemma StepAfterStop(s: State, step: Step)
    requires s.stop && Enabled(s, step)
    ensures Do(s, step).stop && Do(s, step).pulled == s.pulled
  {
  }

  /** Once the stop flag is set, nothing is ever pulled again. */
  lemma {:induction false} NothingPulledAfterStop(threads: set<nat>, run: seq<State>, i: nat, j: nat)
    requires IsRun(threads, run) && i <= j < |run| && run[i].stop
    ensures run[j].stop && run[j].pulled == run[i].pulled
    decreases j
  {
    hide Do, Enabled, Init;
    if i < j {
      NothingPulledAfterStop(threads, run, i, j - 1);
      assert Next(run[j - 1], run[j]);
      var step :| Enabled(run[j - 1], step) && run[j] == Do(run[j - 1], step);
      StepAfterStop(run[j - 1], step);
    }
  }

  /** After the tear-down every buffer handed to a push, failed pushes included, and every
      node has been freed exactly once, and nothing else was. */
  lemma EverythingFreedOnce(threads: set<nat>, run: seq<State>, i: nat, id: nat)
    requires IsRun(threads, run) && i < |run| && run[i].stopper.Done?
    ensures var s := run[i]; var handed := id < |s.place|;
            s.freed[TimeLog(id)] == (if handed then 1 else 0) &&
            s.freed[Text(id)] == (if handed then 1 else 0) &&
            s.freed[Node(id)] == (if id in s.accepted then 1 else 0)
  {
    RunKeeps(threads, run, i);
    var s := run[i];
    AllPlacesFreed(s, id);
    assert id in s.accepted ==> id < |s.place|;
  }

  lemma AllPlacesFreed(s: State, id: nat)
    requires StopInv(s) && PlaceInv(s) && s.stopper.Done?
    ensures id < |s.place| ==> s.place[id].Freed?
  {
    if id < |s.place| {
      assert id !in InList(s);
      assert !ConsumerCarries(s.consumer, id);
    }
  }

  /** Nothing is freed twice, at any time. */
  lemma NeverFreedTwice(threads: set<nat>, run: seq<State>, i: nat, r: Resource)
    requires IsRun(threads, run) && i < |run|
    ensures run[i].freed[r] <= 1
  {
    RunKeeps(threads, run, i);
    assert FreedTimes(run[i], r.id) <= 1;
    match r
    case TimeLog(id) => assert run[i].freed[TimeLog(id)] == FreedTimes(run[i], id);
    case Text(id) => assert run[i].freed[Text(id)] == FreedTimes(run[i], id);
    case Node(id) => assert run[i].freed[Node(id)] <= FreedTimes(run[i], id);
  }

  /** A step that neither starts a new push nor is a spurious wake-up. */
  predicate Proper(step: Step) {
    !(step.OfProducer? && step.p.Push?) && step != OfConsumer(SpuriousWake)
  }

  ghost predicate CanMove(s: State) {
    exists step :: Proper(step) && Enabled(s, step)
  }

  /** Whoever holds the lock can go on. */
  lemma HolderMoves(s: State)
    requires Inv(s) && !s.owner.Nobody?
    ensures CanMove(s)
  {
    var step := match s.owner
      case ByProducer(t) =>
        OfProducer(t, if s.producers[t].Locked? then PushLink
                      else if s.producers[t].Linked? then PushSignal else PushUnlock)
      case ByConsumer => OfConsumer(HolderStep(s))
      case ByStopper =>
        OfStopper(if s.stopper.StopLocked? then SetStop else if s.stopper.StopSet? then StopSignal
                  else if s.stopper.StopUnlocking? then StopUnlock
                  else if s.stopper.rest != [] then FreeOne else DestroyUnlock);
    assert Proper(step) && Enabled(s, step);
  }

  function HolderStep(s: State): ConsumerStep {
    match s.consumer
    case Testing => EmptyLock
    case Nested => EmptyUnlock
    case Tested(empty) => if empty && !s.stop then Wait else LoopDone
    case Taking => if s.stop then TakeStop else TakeNode
    case _ => PullUnlock
  }

  /** With the lock free and work queued or a stop requested, the consumer itself can go on,
      without any further signal. */
  lemma ConsumerMoves(s: State)
    requires Inv(s) && s.owner.Nobody? && (s.queue != [] || s.stop) && !s.consumer.Ended?
    ensures ConsumerEnabled(s, PullLock) || ConsumerEnabled(s, Wake) || ConsumerEnabled(s, DestroyNode)
  {
  }

  /** No deadlock: after a stop request some thread can always go on, until all is torn down. */
  lemma ShutdownMoves(threads: set<nat>, run: seq<State>, i: nat)
    requires IsRun(threads, run) && i < |run|
    requires run[i].stop && !run[i].stopper.Done?
    ensures CanMove(run[i])
  {
    RunKeeps(threads, run, i);
    var s := run[i];
    if !s.owner.Nobody? {
      HolderMoves(s);
    } else if !s.consumer.Ended? {
      ConsumerMoves(s);
      var c := if ConsumerEnabled(s, PullLock) then PullLock
               else if ConsumerEnabled(s, Wake) then Wake else DestroyNode;
      assert Proper(OfConsumer(c)) && Enabled(s, OfConsumer(c));
    } else if s.stopper.Joining? {
      assert Proper(OfStopper(Join)) && Enabled(s, OfStopper(Join));
    } else if AllIdle(s) {
      assert Proper(OfStopper(DestroyLock)) && Enabled(s, OfStopper(DestroyLock));
    } else {
      var t :| t in s.producers && !s.producers[t].Idle?;
      assert Proper(OfProducer(t, PushLock)) && Enabled(s, OfProducer(t, PushLock));
    }
  }

  // ---------- Shutdown ends ----------

  function ProducerRank(p: Producer): nat {
    match p
    case Locking(_) => 4
    case Locked(_) => 3
    case Linked(_) => 2
    case Unlocking => 1
    case Idle => 0
  }

  function ConsumerRank(c: Consumer): nat {
    match c
    case Leaving(result) => if result.Some? then 9 else 1
    case Holding(_) => 8
    case Entering => 7
    case Parked(_) => 7
    case Testing => 6
    case Nested => 5
    case Tested(_) => 4
    case Taking => 3
    case Ended => 0
  }

  function StopperRank(s: State): nat {
    match s.stopper
    case Freeing(rest) => 1 + |rest|
    case Done => 0
    case Joined => 2 + |s.queue|
    case Joining => 3 + |s.queue|
    case StopUnlocking => 4 + |s.queue|
    case _ => 5 + |s.queue|
  }

  ghost function Work(producers: map<nat, Producer>): nat
    decreases |producers|
  {
    if producers == map[] then 0
    else
      var t :| t in producers;
      FewerThreads(producers, t);
      ProducerRank(producers[t]) + Work(producers - {t})
  }

  lemma FewerThreads(producers: map<nat, Producer>, t: nat)
    requires t in producers
    ensures |producers - {t}| == |producers| - 1
  {
    assert (producers - {t}).Keys == producers.Keys - {t};
  }

  lemma {:induction false} WorkSplit(producers: map<nat, Producer>, t: nat)
    requires t in producers
    ensures Work(producers) == ProducerRank(producers[t]) + Work(producers - {t})
    decreases |producers|
  {
    var u :| u in producers && Work(producers) == ProducerRank(producers[u]) + Work(producers - {u});
    if u != t {
      FewerThreads(producers, u);
      FewerThreads(producers, t);
      WorkSplit(producers - {u}, t);
      WorkSplit(producers - {t}, u);
      assert producers - {u} - {t} == producers - {t} - {u};
    }
  }

  lemma WorkMove(producers: map<nat, Producer>, t: nat, p: Producer)
    requires t in producers
    ensures Work(producers[t := p]) == Work(producers) - ProducerRank(producers[t]) + ProducerRank(p)
  {
    WorkSplit(producers, t);
    WorkSplit(producers[t := p], t);
    assert producers[t := p] - {t} == producers - {t};
  }

  /** A bound on the steps left once a stop has been requested and no new push starts. */
  ghost function Remaining(s: State): nat {
    2 * Work(s.producers) + ConsumerRank(s.consumer) + StopperRank(s)
  }

  lemma ProducerOwn(s: State, t: nat, step: ProducerStep)
    requires ProducerEnabled(s, t, step) && !step.Push?
    ensures var s' := DoProducer(s, t, step);
            t in s.producers && t in s'.producers && s'.producers == s.producers[t := s'.producers[t]] &&
            ProducerRank(s'.producers[t]) < ProducerRank(s.producers[t])
  {
    hide Placed;
  }

  lemma ProducerOthers(s: State, t: nat, step: ProducerStep)
    requires ProducerEnabled(s, t, step) && !step.Push?
    ensures var s' := DoProducer(s, t, step);
            s'.stopper == s.stopper && |s'.queue| == |s.queue| + (if step.PushLink? then 1 else 0) &&
            (s'.consumer == s.consumer || (step.PushSignal? && s.consumer.Parked? && s'.consumer == Parked(true)))
  {
    hide Placed;
  }

  /** What of the rest a producer's step touches: an entry linked, or a sleeper signalled. */
  lemma ProducerEffects(s: State, t: nat, step: ProducerStep)
    requires ProducerEnabled(s, t, step) && !step.Push?
    ensures var s' := DoProducer(s, t, step);
            t in s.producers && t in s'.producers && s'.producers == s.producers[t := s'.producers[t]] &&
            s'.stopper == s.stopper && |s'.queue| == |s.queue| + (if step.PushLink? then 1 else 0) &&
            (s'.consumer == s.consumer || (step.PushSignal? && s.consumer.Parked? && s'.consumer == Parked(true))) &&
            ProducerRank(s'.producers[t]) < ProducerRank(s.producers[t])
  {
    ProducerOwn(s, t, step);
    ProducerOthers(s, t, step);
    hide DoProducer, ProducerEnabled, ProducerRank;
  }

  lemma ProducerDrops(s: State, t: nat, step: ProducerStep)
    requires ProducerEnabled(s, t, step) && !step.Push?
    ensures Remaining(DoProducer(s, t, step)) < Remaining(s)
  {
    ProducerEffects(s, t, step);
    hide Work, DoProducer, ProducerEnabled, ProducerRank;
    WorkMove(s.producers, t, DoProducer(s, t, step).producers[t]);
  }

  lemma ConsumerAlone(s: State, step: ConsumerStep)
    requires ConsumerEnabled(s, step)
    ensures var s' := DoConsumer(s, step);
            s'.producers == s.producers && s'.stopper == s.stopper && |s'.queue| <= |s.queue| &&
            (step.TakeNode? && s.queue != [] ==> |s'.queue| < |s.queue|)
  {
    hide Placed;
  }

  lemma ConsumerRankDrops(s: State, step: ConsumerStep)
    requires s.stop && ConsumerEnabled(s, step)
    ensures ConsumerRank(DoConsumer(s, step).consumer) < ConsumerRank(s.consumer)
  {
    hide Placed, Acquired, Released, FreeNode;
    var c := DoConsumer(s, step).consumer;
    match step
    case PullLock => assert c == Testing;
    case EmptyLock => assert c == Nested;
    case EmptyUnlock => assert c.Tested?;
    case LoopDone => assert c == Taking;
    case Wake => assert c == Testing;
    case SpuriousWake => assert c == Testing;
    case TakeStop => assert c == Leaving(None);
    case PullUnlock => assert c.Ended? || c.Holding?;
    case DestroyNode => assert c == Entering;
  }

  lemma ConsumerDrops(s: State, step: ConsumerStep)
    requires s.stop && ConsumerEnabled(s, step)
    ensures Remaining(DoConsumer(s, step)) < Remaining(s)
  {
    ConsumerAlone(s, step);
    ConsumerRankDrops(s, step);
    hide Work, DoConsumer, ConsumerEnabled, ConsumerRank;
  }

  lemma StopperAlone(s: State, step: StopperStep)
    requires StopperEnabled(s, step)
    ensures var s' := DoStopper(s, step);
            s'.producers == s.producers && s'.queue == s.queue &&
            (s'.consumer == s.consumer || (step.StopSignal? && s.consumer.Parked? && s'.consumer == Parked(true)))
  {
    hide Placed;
  }

  lemma StopperRankDrops(s: State, step: StopperStep)
    requires s.stop && StopInv(s) && StopperEnabled(s, step)
    ensures StopperRank(DoStopper(s, step)) < StopperRank(s)
  {
    StopperAlone(s, step);
    hide Placed, Acquired, Released, Signalled, FreeNode;
    var s' := DoStopper(s, step);
    match step
    case StopSignal => assert s'.stopper == StopUnlocking;
    case StopUnlock => assert s'.stopper == Joining;
    case Join => assert s'.stopper == Joined;
    case DestroyLock => assert s'.stopper == Freeing(s.queue);
    case FreeOne => assert s'.stopper == Freeing(s.stopper.rest[1..]);
    case DestroyUnlock => assert s'.stopper == Done;
    case _ =>
  }

  lemma StopperDrops(s: State, step: StopperStep)
    requires StopInv(s) && s.stop && StopperEnabled(s, step)
    ensures Remaining(DoStopper(s, step)) < Remaining(s)
  {
    StopperAlone(s, step);
    StopperRankDrops(s, step);
    hide Work, DoStopper, StopperEnabled, StopperRank, StopInv;
  }

  lemma RemainingDrops(s: State, step: Step)
    requires Inv(s) && s.stop && Enabled(s, step) && |Do(s, step).place| == |s.place|
    ensures Remaining(Do(s, step)) < Remaining(s)
  {
    hide Remaining, DoConsumer, DoStopper, StopInv, LockInv, PlaceInv, NodeInv, FreedInv, WakeInv, FifoInv;
    match step
    case OfProducer(t, p) => ProducerDrops(s, t, p);
    case OfConsumer(c) => ConsumerDrops(s, c);
    case OfStopper(p) => StopperDrops(s, p);
  }

  /** After a stop request, with no new pushes, every interleaving is over within a bound
      known at the request; with `ShutdownMoves`, it can only be over when all is freed. */
  lemma {:induction false} ShutdownEnds(threads: set<nat>, run: seq<State>, i: nat, j: nat)
    requires IsRun(threads, run) && i <= j < |run| && run[i].stop
    requires |run[j].place| == |run[i].place|
    ensures j - i + Remaining(run[j]) <= Remaining(run[i])
    decreases j
  {
    hide Inv, Do, Enabled, Init, Remaining;
    if i < j {
      PlacesGrow(threads, run, i, j - 1);
      PlacesGrow(threads, run, j - 1, j);
      ShutdownEnds(threads, run, i, j - 1);
      NothingPulledAfterStop(threads, run, i, j - 1);
      RunKeeps(threads, run, j - 1);
      assert Next(run[j - 1], run[j]);
      var step :| Enabled(run[j - 1], step) && run[j] == Do(run[j - 1], step);
      RemainingDrops(run[j - 1], step);
    }
  }

  lemma ProducerPlaces(s: State, t: nat, step: ProducerStep)
    requires ProducerEnabled(s, t, step)
    ensures |s.place| <= |DoProducer(s, t, step).place|
  {
  }

  lemma OtherPlaces(s: State)
    ensures forall step :: ConsumerEnabled(s, step) ==> |s.place| == |DoConsumer(s, step).place|
    ensures forall step :: StopperEnabled(s, step) ==> |s.place| == |DoStopper(s, step).place|
  {
  }

  lemma StepPlaces(s: State, step: Step)
    requires Enabled(s, step)
    ensures |s.place| <= |Do(s, step).place|
  {
    hide DoProducer, DoConsumer, DoStopper, ProducerEnabled, ConsumerEnabled, StopperEnabled;
    match step
    case OfProducer(t, p) => ProducerPlaces(s, t, p);
    case OfConsumer(c) => OtherPlaces(s);
    case OfStopper(p) => OtherPlaces(s);
  }

  lemma {:induction false} PlacesGrow(threads: set<nat>, run: seq<State>, i: nat, j: nat)
    requires IsRun(threads, run) && i <= j < |run|
    ensures |run[i].place| <= |run[j].place|
    decreases j
  {
    hide Do, Enabled, Init;
    if i < j {
      PlacesGrow(threads, run, i, j - 1);
      assert Next(run[j - 1], run[j]);
      var step :| Enabled(run[j - 1], step) && run[j] == Do(run[j - 1], step);
      StepPlaces(run[j - 1], step);
    }
  }
}
