/** Progress without a stop: left alone, the consumer empties the queue. */
module QueueDrain {
  import opened QueueProtocol
  import opened QueueTheorems
  import opened Wrappers

  // ---------- A bound on the steps ----------

  /** What the consumer still has to do for the message at hand; nothing while it sleeps. */
  function ConsumerLoad(c: Consumer): nat {
    match c
    case Leaving(result) => if result.Some? then 9 else 1
    case Holding(_) => 8
    case Entering => 7
    case Parked(signalled) => if signalled then 6 else 0
    case Testing => 5
    case Nested => 4
    case Tested(_) => 3
    case Taking => 2
    case Ended => 0
  }

  /** A signal costs the sleeping consumer six steps. */
  function StopperLoad(s: State): nat {
    match s.stopper
    case Freeing(rest) => 1 + |rest|
    case Done => 0
    case Joined => 2 + |s.queue|
    case Joining => 3 + |s.queue|
    case StopUnlocking => 4 + |s.queue|
    case StopSet => 11 + |s.queue|
    case StopLocked => 12 + |s.queue|
    case NotStopping => 13 + |s.queue|
  }

  /** A queued message costs ten steps, a push twelve for each of its own. */
  ghost function Load(s: State): nat {
    12 * Work(s.producers) + ConsumerLoad(s.consumer) + 10 * |s.queue| + StopperLoad(s)
  }

  lemma ProducerLowers(s: State, t: nat, step: ProducerStep)
    requires ProducerEnabled(s, t, step) && !step.Push?
    ensures Load(DoProducer(s, t, step)) < Load(s)
  {
    ProducerEffects(s, t, step);
    hide Work, DoProducer, ProducerEnabled, ProducerRank;
    WorkMove(s.producers, t, DoProducer(s, t, step).producers[t]);
  }

  lemma ConsumerEffects(s: State, step: ConsumerStep)
    requires StopInv(s) && TestInv(s) && ConsumerEnabled(s, step) && step != SpuriousWake
    ensures ConsumerLoad(DoConsumer(s, step).consumer) + (if step.TakeNode? then 0 else 10) < ConsumerLoad(s.consumer) + 10
    ensures step.TakeNode? ==> s.queue != []
  {
    hide Placed, Acquired, Released, FreeNode;
    var c := DoConsumer(s, step).consumer;
    match step
    case PullLock => assert c == Testing;
    case EmptyLock => assert c == Nested;
    case EmptyUnlock => assert c.Tested?;
    case Wait => assert c == Parked(false);
    case LoopDone => assert c == Taking;
    case Wake => assert c == Testing;
    case TakeStop => assert c == Leaving(None);
    case TakeNode => assert c == Leaving(Some(s.queue[0]));
    case PullUnlock => assert c.Ended? || c.Holding?;
    case DestroyNode => assert c == Entering;
  }

  lemma ConsumerLowers(s: State, step: ConsumerStep)
    requires StopInv(s) && TestInv(s) && ConsumerEnabled(s, step) && step != SpuriousWake
    ensures Load(DoConsumer(s, step)) < Load(s)
  {
    ConsumerAlone(s, step);
    ConsumerEffects(s, step);
    hide Work, DoConsumer, ConsumerEnabled, ConsumerLoad, StopInv, TestInv;
  }

  lemma StopperEffects(s: State, step: StopperStep)
    requires StopperEnabled(s, step)
    ensures StopperLoad(DoStopper(s, step)) + (if step.StopSignal? then 6 else 0) < StopperLoad(s)
  {
    StopperAlone(s, step);
    hide Placed, Acquired, Released, Signalled, FreeNode;
    var s' := DoStopper(s, step);
    match step
    case StopLock => assert s'.stopper == StopLocked;
    case SetStop => assert s'.stopper == StopSet;
    case StopSignal => assert s'.stopper == StopUnlocking;
    case StopUnlock => assert s'.stopper == Joining;
    case Join => assert s'.stopper == Joined;
    case DestroyLock => assert s'.stopper == Freeing(s.queue);
    case FreeOne => assert s'.stopper == Freeing(s.stopper.rest[1..]);
    case DestroyUnlock => assert s'.stopper == Done;
  }

  lemma StopperLowers(s: State, step: StopperStep)
    requires StopperEnabled(s, step)
    ensures Load(DoStopper(s, step)) < Load(s)
  {
    StopperAlone(s, step);
    StopperEffects(s, step);
    hide Work, DoStopper, StopperEnabled, StopperLoad;
  }

  lemma StepLowers(s: State, step: Step)
    requires Inv(s) && Enabled(s, step) && Proper(step)
    ensures Load(Do(s, step)) < Load(s)
  {
    hide Load, DoProducer, DoConsumer, DoStopper, StopInv, TestInv, LockInv, PlaceInv, NodeInv, FreedInv, WakeInv, FifoInv;
    match step
    case OfProducer(t, p) => ProducerLowers(s, t, p);
    case OfConsumer(c) => ConsumerLowers(s, c);
    case OfStopper(p) => StopperLowers(s, p);
  }

  /** A step other than the start of a push and a spurious wake-up. */
  ghost predicate NextProper(s: State, s': State) {
    exists step :: Proper(step) && Enabled(s, step) && s' == Do(s, step)
  }

  /** Without new pushes and spurious wake-ups, no run takes more steps than a bound known
      at its start, stop or no stop. */
  lemma {:induction false} StretchEnds(threads: set<nat>, run: seq<State>, i: nat, j: nat)
    requires IsRun(threads, run) && i <= j < |run|
    requires forall k, l :: i <= k && l == k + 1 && l <= j ==> NextProper(run[k], run[l])
    ensures j - i + Load(run[j]) <= Load(run[i])
    decreases j
  {
    hide Inv, Do, Enabled, Init, Load, Proper;
    if i < j {
      StretchEnds(threads, run, i, j - 1);
      RunKeeps(threads, run, j - 1);
      assert NextProper(run[j - 1], run[j]);
      var step :| Proper(step) && Enabled(run[j - 1], step) && run[j] == Do(run[j - 1], step);
      StepLowers(run[j - 1], step);
    }
  }

  // ---------- What is true when it is over ----------

  /** Some thread can go on without a new push, a spurious wake-up or a stop request. */
  ghost predicate CanServe(s: State) {
    exists step :: Proper(step) && step != OfStopper(StopLock) && Enabled(s, step)
  }

  lemma HeldCanServe(s: State)
    requires Inv(s)
    ensures !s.owner.Nobody? ==> CanServe(s)
  {
    if !s.owner.Nobody? {
      HolderMoves(s);
      hide Inv;
      var step :| Proper(step) && Enabled(s, step);
      assert step != OfStopper(StopLock);
    }
  }

  lemma StillProducers(s: State)
    requires LockInv(s) && s.owner.Nobody? && !CanServe(s)
    ensures AllIdle(s)
  {
    forall t | t in s.producers ensures s.producers[t].Idle? {
      var step := OfProducer(t, PushLock);
      assert Proper(step) && step != OfStopper(StopLock);
      assert !Enabled(s, step);
    }
  }

  lemma StillConsumer(s: State)
    requires LockInv(s) && StopInv(s) && WakeInv(s) && s.owner.Nobody? && !CanServe(s) && !s.stop
    ensures s.consumer == Parked(false) && s.queue == []
  {
    forall c | c == PullLock || c == Wake || c == DestroyNode ensures !ConsumerEnabled(s, c) {
      var step := OfConsumer(c);
      assert Proper(step) && step != OfStopper(StopLock);
      assert !Enabled(s, step);
    }
    assert !ConsumerEnabled(s, PullLock) && !ConsumerEnabled(s, Wake) && !ConsumerEnabled(s, DestroyNode);
  }

  /** The queue drains: when, with no stop requested, nothing is left to do, the consumer
      sleeps, every accepted message has been pulled, and every message ever handed to a push
      has been freed. */
  lemma DrainedWhenStill(threads: set<nat>, run: seq<State>, i: nat)
    requires IsRun(threads, run) && i < |run| && !run[i].stop && !CanServe(run[i])
    ensures var s := run[i];
            s.queue == [] && s.consumer == Parked(false) && AllIdle(s) && s.pulled == s.accepted &&
            forall id :: 0 <= id < |s.place| ==> s.place[id].Freed?
  {
    var s := run[i];
    RunKeeps(threads, run, i);
    HeldCanServe(s);
    StillProducers(s);
    StillConsumer(s);
    hide CanServe, LockInv, TestInv, WakeInv, NodeInv, FreedInv;
    forall id | 0 <= id < |s.place| ensures s.place[id].Freed? {
      assert id !in InList(s);
      assert !ConsumerCarries(s.consumer, id);
    }
  }
}
