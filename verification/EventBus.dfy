/**
 internal/eventbus/eventbus.go: the in-memory bus as a step machine.

 Publishers, the dispatch loop, handler goroutines, subscribers and context cancellation
 interleave freely. Each step is one atomic action of the code: a channel operation, a
 section under the bus mutex, or a handler's check of its context.
 */
module EventBus {

  datatype Envelope = Envelope(id: string, eventType: string, source: string, priority: int)

  datatype Filter = Filter(types: seq<string>, sources: seq<string>)

  // ----- matchFilter -----

  predicate Matches(ev: Envelope, f: Filter) {
    (f.types == [] || ev.eventType in f.types) && (f.sources == [] || ev.source in f.sources)
  }

  method MatchValue(val: string, arr: seq<string>) returns (ok: bool)
    ensures ok <==> arr == [] || val in arr
  {
    if |arr| == 0 {
      return true;
    }
    for i := 0 to |arr|
      invariant val !in arr[..i]
    {
      if arr[i] == val {
        return true;
      }
    }
    return false;
  }

  method MatchFilter(ev: Envelope, f: Filter) returns (ok: bool)
    ensures ok == Matches(ev, f)
    ensures ok <==> (f.types == [] || ev.eventType in f.types) && (f.sources == [] || ev.source in f.sources)
  {
    ok := MatchValue(ev.eventType, f.types);
    if ok {
      ok := MatchValue(ev.source, f.sources);
    }
  }

  // ----- state -----

  /** Where the dispatch loop stands: at the channel, with a received event, or spawning handlers. */
  datatype Dispatcher = Waiting | Holding | Fanning(todo: set<nat>)

  /** A handler goroutine: the n-th dispatched event, for one subscriber. */
  datatype Task = Task(n: nat, sub: nat)

  /** Where a spawned handler stands: before its context check, past it, stopped by it, or counted. */
  datatype Phase = Pending | Running | Skipped | Finished

  datatype State = State(
    // the bus
    capacity: nat,
    buffer: seq<Envelope>,
    subscribers: map<nat, Filter>,
    nextId: nat,
    published: nat,
    consumed: nat,
    dropped: nat,
    // goroutines
    dispatcher: Dispatcher,
    sentUncounted: nat,            // publishers between their send and their Published++
    dropUncounted: nat,            // publishers between their drop and their Dropped++
    blocked: multiset<Envelope>,   // publishers waiting for room
    handlers: map<Task, Phase>,
    cancelled: set<nat>,           // subscribers whose context is done
    // history
    offered: multiset<Envelope>,
    sent: seq<Envelope>,
    received: seq<Envelope>,
    snapshots: seq<map<nat, Filter>>,
    drops: seq<Envelope>,
    refused: multiset<Envelope>)

  function Init(capacity: nat): (s: State) {
    State(capacity, [], map[], 0, 0, 0, 0, Waiting, 0, 0, multiset{}, map[], {},
          multiset{}, [], [], [], [], multiset{})
  }

  // ----- steps -----

  datatype Step =
    | Send(ev: Envelope, wasBlocked: bool)      // the channel accepts an event
    | Handoff(ev: Envelope, wasBlocked: bool)   // a waiting receiver takes an event directly
    | CountPublished
    | Drop(ev: Envelope)
    | CountDropped
    | Block(ev: Envelope)
    | GiveUp(ev: Envelope)                      // the publisher's context ends while it is blocked
    | Subscribe(filter: Filter)
    | Unsubscribe(id: nat)
    | CancelContext(id: nat)                    // the context given to Subscribe ends
    | Receive
    | Snapshot
    | Spawn(id: nat)
    | EndFan
    | Check(t: Task)
    | Finish(t: Task)

  predicate Enabled(s: State, step: Step) {
    match step
    case Send(ev, wasBlocked) => |s.buffer| < s.capacity && (wasBlocked ==> ev in s.blocked)
    case Handoff(ev, wasBlocked) => s.dispatcher.Waiting? && s.buffer == [] && (wasBlocked ==> ev in s.blocked)
    case CountPublished => s.sentUncounted > 0
    case Drop(ev) => |s.buffer| >= s.capacity && ev.priority < 5
    case CountDropped => s.dropUncounted > 0
    case Block(ev) => |s.buffer| >= s.capacity && ev.priority >= 5
    case GiveUp(ev) => ev in s.blocked
    case Subscribe(_) => true
    case Unsubscribe(_) => true
    case CancelContext(id) => id < s.nextId
    case Receive => s.dispatcher.Waiting? && s.buffer != []
    case Snapshot => s.dispatcher.Holding?
    case Spawn(id) => s.dispatcher.Fanning? && id in s.dispatcher.todo
    case EndFan => s.dispatcher == Fanning({})
    case Check(t) => t in s.handlers && s.handlers[t] == Pending
    case Finish(t) => t in s.handlers && s.handlers[t] == Running
  }

  /** The publisher's own bookkeeping for an event it manages to send. */
  function Sent(s: State, ev: Envelope, wasBlocked: bool): (s': State) {
    s.(sent := s.sent + [ev],
       sentUncounted := s.sentUncounted + 1,
       blocked := if wasBlocked then s.blocked - multiset{ev} else s.blocked,
       offered := if wasBlocked then s.offered else s.offered + multiset{ev})
  }

  /** The dispatcher's last snapshot has the filter of the subscriber, and it accepts the event. */
  predicate Wanted(s: State, n: nat, id: nat) {
    n < |s.snapshots| && n < |s.received| && id in s.snapshots[n] && Matches(s.received[n], s.snapshots[n][id])
  }

  function Apply(s: State, step: Step): (s': State)
    requires Enabled(s, step)
  {
    match step
    case Send(ev, wasBlocked) =>
      Sent(s, ev, wasBlocked).(buffer := s.buffer + [ev])
    case Handoff(ev, wasBlocked) =>
      Sent(s, ev, wasBlocked).(received := s.received + [ev], dispatcher := Holding)
    case CountPublished =>
      s.(published := s.published + 1, sentUncounted := s.sentUncounted - 1)
    case Drop(ev) =>
      s.(drops := s.drops + [ev], dropUncounted := s.dropUncounted + 1, offered := s.offered + multiset{ev})
    case CountDropped =>
      s.(dropped := s.dropped + 1, dropUncounted := s.dropUncounted - 1)
    case Block(ev) =>
      s.(blocked := s.blocked + multiset{ev}, offered := s.offered + multiset{ev})
    case GiveUp(ev) =>
      s.(blocked := s.blocked - multiset{ev}, refused := s.refused + multiset{ev})
    case Subscribe(filter) =>
      s.(subscribers := s.subscribers[s.nextId := filter], nextId := s.nextId + 1)
    case Unsubscribe(id) =>
      if id in s.subscribers
      then s.(subscribers := s.subscribers - {id}, cancelled := s.cancelled + {id})
      else s
    case CancelContext(id) =>
      s.(cancelled := s.cancelled + {id})
    case Receive =>
      s.(buffer := s.buffer[1..], received := s.received + [s.buffer[0]], dispatcher := Holding)
    case Snapshot =>
      s.(snapshots := s.snapshots + [s.subscribers], dispatcher := Fanning(s.subscribers.Keys))
    case Spawn(id) =>
      var n := |s.snapshots|;
      var s' := s.(dispatcher := Fanning(s.dispatcher.todo - {id}));
      if n > 0 && Wanted(s, n - 1, id) then s'.(handlers := s.handlers[Task(n - 1, id) := Pending]) else s'
    case EndFan =>
      s.(dispatcher := Waiting)
    case Check(t) =>
      s.(handlers := s.handlers[t := if t.sub in s.cancelled then Skipped else Running])
    case Finish(t) =>
      s.(handlers := s.handlers[t := Finished], consumed := s.consumed + 1)
  }

  // ----- what every reachable state keeps -----

  /** The channel is bounded and first-in first-out. */
  ghost predicate QueueInv(s: State) {
    |s.buffer| <= s.capacity && s.sent == s.received + s.buffer
  }

  /** Every offered event is in exactly one place: sent, dropped, waiting or refused. */
  ghost predicate OfferInv(s: State) {
    s.offered == multiset(s.sent) + multiset(s.drops) + s.blocked + s.refused
  }

  /** Only low priorities are dropped, only high ones wait, and the counters lag by the uncounted steps. */
  ghost predicate CountInv(s: State) {
    && (forall ev <- s.drops :: ev.priority < 5)
    && (forall ev <- s.blocked :: ev.priority >= 5)
    && (forall ev <- s.refused :: ev.priority >= 5)
    && s.published + s.sentUncounted == |s.sent|
    && s.dropped + s.dropUncounted == |s.drops|
  }

  ghost predicate IdInv(s: State) {
    && (forall id <- s.subscribers :: id < s.nextId)
    && (forall id <- s.cancelled :: id < s.nextId)
    && (forall id: nat :: id < s.nextId && id !in s.subscribers ==> id in s.cancelled)
  }

  ghost predicate DispatchInv(s: State) {
    && |s.received| == |s.snapshots| + (if s.dispatcher.Holding? then 1 else 0)
    && (s.dispatcher.Fanning? ==> |s.snapshots| > 0 && s.dispatcher.todo <= s.snapshots[|s.snapshots| - 1].Keys)
  }

  /** The task of the event being fanned out that its subscriber is still to get. */
  ghost predicate Unspawned(s: State, t: Task) {
    && s.dispatcher.Fanning? && t.n == |s.snapshots| - 1 && t.sub in s.dispatcher.todo
    && Wanted(s, t.n, t.sub)
  }

  ghost function InPhase(s: State, p: Phase): (ts: set<Task>) {
    set t | t in s.handlers && s.handlers[t] == p
  }

  /** Each wanted task is spawned exactly once or still to be spawned; nothing else is. */
  ghost predicate TaskInv(s: State) {
    && (forall t: Task :: Wanted(s, t.n, t.sub) <==> t in s.handlers || Unspawned(s, t))
    && (forall t <- s.handlers :: !Unspawned(s, t))
  }

  ghost predicate ConsumedInv(s: State) {
    s.consumed == |InPhase(s, Finished)|
  }

  /** Only handlers of cancelled subscribers are skipped. */
  ghost predicate SkipInv(s: State) {
    forall t <- s.handlers :: s.handlers[t] == Skipped ==> t.sub in s.cancelled
  }

  ghost predicate Inv(s: State) {
    QueueInv(s) && OfferInv(s) && CountInv(s) && IdInv(s) && DispatchInv(s) && TaskInv(s) && ConsumedInv(s) && SkipInv(s)
  }

  lemma InitInv(capacity: nat)
    ensures Inv(Init(capacity))
  {
  }

  lemma QueueStep(s: State, step: Step)
    requires QueueInv(s) && Enabled(s, step)
    ensures QueueInv(Apply(s, step))
  {
    var s' := Apply(s, step);
    match step
    case Receive =>
      assert s.buffer == [s.buffer[0]] + s.buffer[1..];
    case Handoff(ev, _) =>
      assert s'.sent == s.received + [ev];
    case _ =>
  }

  lemma OfferSent(s: State, ev: Envelope, wasBlocked: bool)
    requires OfferInv(s) && (wasBlocked ==> ev in s.blocked)
    ensures OfferInv(Sent(s, ev, wasBlocked))
  {
    assert multiset(s.sent + [ev]) == multiset(s.sent) + multiset{ev};
  }

  lemma OfferStep(s: State, step: Step)
    requires OfferInv(s) && Enabled(s, step)
    ensures OfferInv(Apply(s, step))
  {
    match step
    case Send(ev, wasBlocked) => OfferSent(s, ev, wasBlocked);
    case Handoff(ev, wasBlocked) => OfferSent(s, ev, wasBlocked);
    case Drop(ev) => OfferDropped(s, ev);
    case Block(_) => OfferBlocked(s, step);
    case GiveUp(_) => OfferBlocked(s, step);
    case _ => OffersKept(s, step);
  }

  lemma OfferDropped(s: State, ev: Envelope)
    requires OfferInv(s) && Enabled(s, Drop(ev))
    ensures OfferInv(Apply(s, Drop(ev)))
  {
    assert multiset(s.drops + [ev]) == multiset(s.drops) + multiset{ev};
  }

  lemma OfferBlocked(s: State, step: Step)
    requires OfferInv(s) && (step.Block? || step.GiveUp?) && Enabled(s, step)
    ensures OfferInv(Apply(s, step))
  {
  }

  /** A step that moves no event of a publisher. */
  predicate Bystander(step: Step) {
    !step.Send? && !step.Handoff? && !step.Drop? && !step.Block? && !step.GiveUp?
  }

  lemma OffersKept(s: State, step: Step)
    requires Enabled(s, step) && Bystander(step)
    ensures var s' := Apply(s, step);
            s'.offered == s.offered && s'.sent == s.sent && s'.drops == s.drops && s'.blocked == s.blocked && s'.refused == s.refused
  {
  }

  lemma CountSent(s: State, ev: Envelope, wasBlocked: bool)
    requires CountInv(s) && (wasBlocked ==> ev in s.blocked)
    ensures CountInv(Sent(s, ev, wasBlocked))
  {
  }

  lemma CountDropStep(s: State, ev: Envelope)
    requires CountInv(s) && Enabled(s, Drop(ev))
    ensures CountInv(Apply(s, Drop(ev)))
  {
  }

  /** The counters of a bystander's step. */
  lemma CountKept(s: State, step: Step)
    requires Enabled(s, step) && Bystander(step)
    ensures var s' := Apply(s, step);
            s'.published + s'.sentUncounted == s.published + s.sentUncounted && s'.dropped + s'.dropUncounted == s.dropped + s.dropUncounted
  {
  }

  lemma CountStep(s: State, step: Step)
    requires CountInv(s) && Enabled(s, step)
    ensures CountInv(Apply(s, step))
  {
    match step
    case Send(ev, wasBlocked) => CountSent(s, ev, wasBlocked);
    case Handoff(ev, wasBlocked) => CountSent(s, ev, wasBlocked);
    case Drop(ev) => CountDropStep(s, ev);
    case Block(_) =>
    case GiveUp(_) =>
    case _ =>
      OffersKept(s, step);
      CountKept(s, step);
  }

  lemma IdStep(s: State, step: Step)
    requires IdInv(s) && Enabled(s, step)
    ensures IdInv(Apply(s, step))
  {
  }

  lemma DispatchStep(s: State, step: Step)
    requires DispatchInv(s) && Enabled(s, step)
    ensures DispatchInv(Apply(s, step))
  {
  }

  /** Steps that touch neither the snapshots nor the handlers. */
  lemma OtherTasks(s: State, step: Step)
    requires TaskInv(s) && DispatchInv(s) && Enabled(s, step)
    requires !step.Snapshot? && !step.Spawn? && !step.Check? && !step.Finish?
    ensures TaskInv(Apply(s, step))
  {
    var s' := Apply(s, step);
    assert forall t: Task :: Wanted(s', t.n, t.sub) <==> Wanted(s, t.n, t.sub);
  }

  /** A snapshot adds the tasks of the received event, all of them unspawned. */
  lemma SnapshotTasks(s: State)
    requires TaskInv(s) && DispatchInv(s) && Enabled(s, Snapshot)
    ensures TaskInv(Apply(s, Snapshot))
  {
    var s' := Apply(s, Snapshot);
    var last := |s.snapshots|;
    assert forall t: Task :: t.n != last ==> (Wanted(s', t.n, t.sub) <==> Wanted(s, t.n, t.sub));
    assert forall t: Task :: t.n == last ==> !Wanted(s, t.n, t.sub);
  }

  lemma SpawnTasks(s: State, id: nat)
    requires TaskInv(s) && DispatchInv(s) && Enabled(s, Spawn(id))
    ensures TaskInv(Apply(s, Spawn(id)))
  {
    var s' := Apply(s, Spawn(id));
    assert forall t: Task :: Wanted(s', t.n, t.sub) <==> Wanted(s, t.n, t.sub);
    var spawned := Task(|s.snapshots| - 1, id);
    assert forall t: Task :: Unspawned(s', t) <==> Unspawned(s, t) && t != spawned;
  }

  lemma HandlerTasks(s: State, step: Step)
    requires TaskInv(s) && (step.Check? || step.Finish?) && Enabled(s, step)
    ensures TaskInv(Apply(s, step))
  {
    var s' := Apply(s, step);
    assert s'.handlers.Keys == s.handlers.Keys;
    assert forall t: Task :: Wanted(s', t.n, t.sub) <==> Wanted(s, t.n, t.sub);
  }

  lemma TaskStep(s: State, step: Step)
    requires TaskInv(s) && DispatchInv(s) && Enabled(s, step)
    ensures TaskInv(Apply(s, step))
  {
    match step
    case Snapshot => SnapshotTasks(s);
    case Spawn(id) => SpawnTasks(s, id);
    case Check(_) => HandlerTasks(s, step);
    case Finish(_) => HandlerTasks(s, step);
    case _ => OtherTasks(s, step);
  }

  /** Steps that touch no handler. */
  lemma HandlersKept(s: State, step: Step)
    requires Enabled(s, step) && !step.Spawn? && !step.Check? && !step.Finish?
    ensures Apply(s, step).handlers == s.handlers && Apply(s, step).consumed == s.consumed
  {
  }

  /** A spawned handler did not exist before. */
  lemma SpawnIsNew(s: State, id: nat)
    requires TaskInv(s) && DispatchInv(s) && Enabled(s, Spawn(id))
    ensures var t := Task(|s.snapshots| - 1, id);
            && Apply(s, Spawn(id)).consumed == s.consumed
            && (Apply(s, Spawn(id)).handlers == s.handlers
                || (t !in s.handlers && Apply(s, Spawn(id)).handlers == s.handlers[t := Pending]))
  {
    var t := Task(|s.snapshots| - 1, id);
    assert Wanted(s, t.n, id) ==> Unspawned(s, t);
  }

  lemma FinishStep(s: State, t: Task)
    requires ConsumedInv(s) && Enabled(s, Finish(t))
    ensures ConsumedInv(Apply(s, Finish(t)))
  {
    assert InPhase(Apply(s, Finish(t)), Finished) == InPhase(s, Finished) + {t};
  }

  /** The finished handlers do not change with a handler that is not finished. */
  lemma FinishedKept(s: State, s': State, t: Task, p: Phase)
    requires s'.handlers == s.handlers[t := p] && p != Finished && (t in s.handlers ==> s.handlers[t] != Finished)
    ensures InPhase(s', Finished) == InPhase(s, Finished)
  {
  }

  lemma ConsumedStep(s: State, step: Step)
    requires ConsumedInv(s) && TaskInv(s) && DispatchInv(s) && Enabled(s, step)
    ensures ConsumedInv(Apply(s, step))
  {
    var s' := Apply(s, step);
    match step
    case Finish(t) => FinishStep(s, t);
    case Spawn(id) =>
      SpawnIsNew(s, id);
      if s'.handlers != s.handlers {
        FinishedKept(s, s', Task(|s.snapshots| - 1, id), Pending);
      }
    case Check(t) => FinishedKept(s, s', t, s'.handlers[t]);
    case _ => HandlersKept(s, step);
  }

  lemma CancelledStay(s: State, step: Step)
    requires Enabled(s, step)
    ensures s.cancelled <= Apply(s, step).cancelled
  {
  }

  lemma SkipStep(s: State, step: Step)
    requires SkipInv(s) && TaskInv(s) && DispatchInv(s) && Enabled(s, step)
    ensures SkipInv(Apply(s, step))
  {
    CancelledStay(s, step);
    match step
    case Spawn(id) => SpawnIsNew(s, id);
    case Check(_) =>
    case Finish(_) =>
    case _ => HandlersKept(s, step);
  }

  lemma StepInv(s: State, step: Step)
    requires Inv(s) && Enabled(s, step)
    ensures Inv(Apply(s, step))
  {
    QueueStep(s, step);
    OfferStep(s, step);
    CountStep(s, step);
    IdStep(s, step);
    DispatchStep(s, step);
    TaskStep(s, step);
    ConsumedStep(s, step);
    SkipStep(s, step);
  }

  // ----- whole runs -----

  ghost predicate IsRun(states: seq<State>, steps: seq<Step>) {
    && |states| == |steps| + 1
    && states[0] == Init(states[0].capacity)
    && (forall i {:trigger steps[i]} :: 0 <= i < |steps| ==> Enabled(states[i], steps[i]) && states[i + 1] == Apply(states[i], steps[i]))
  }

  lemma {:induction false} RunInv(states: seq<State>, steps: seq<Step>, i: nat)
    requires IsRun(states, steps) && i < |states|
    ensures Inv(states[i])
  {
    if i == 0 {
      InitInv(states[0].capacity);
    } else {
      RunInv(states, steps, i - 1);
      StepInv(states[i - 1], steps[i - 1]);
    }
  }

  /**
   In every state of every run: the channel holds at most its capacity, events are dispatched
   in the order they were sent, nothing of priority 5 or more is dropped, and each offered
   event was sent, dropped, refused by its context, or is still waiting.
   */
  lemma RunSafety(states: seq<State>, steps: seq<Step>, i: nat)
    requires IsRun(states, steps) && i < |states|
    ensures var s := states[i];
            && |s.buffer| <= s.capacity
            && s.sent == s.received + s.buffer
            && s.published + s.sentUncounted == |s.sent|
            && s.dropped + s.dropUncounted == |s.drops|
            && (forall ev <- s.drops :: ev.priority < 5)
            && s.offered == multiset(s.sent) + multiset(s.drops) + s.blocked + s.refused
  {
    RunInv(states, steps, i);
  }

  // ----- the handlers of every dispatched event are accounted for -----

  /** The subscribers the n-th dispatched event goes to. */
  ghost function Audience(s: State, n: nat): (ids: set<nat>)
    requires n < |s.snapshots|
  {
    set id | id in s.snapshots[n] && Wanted(s, n, id)
  }

  /** The number of matching subscribers, over the first k dispatched events. */
  ghost function Deliveries(s: State, k: nat): (total: nat)
    requires k <= |s.snapshots|
  {
    if k == 0 then 0 else Deliveries(s, k - 1) + |Audience(s, k - 1)|
  }

  ghost function TasksFor(n: nat, ids: set<nat>): (ts: set<Task>) {
    set id | id in ids :: Task(n, id)
  }

  lemma {:induction false} TasksForSize(n: nat, ids: set<nat>)
    ensures |TasksFor(n, ids)| == |ids|
  {
    if ids != {} {
      var id :| id in ids;
      TasksForSize(n, ids - {id});
      assert TasksFor(n, ids) == TasksFor(n, ids - {id}) + {Task(n, id)};
    }
  }

  lemma {:induction false} DeliveriesSize(s: State, k: nat, tasks: set<Task>)
    requires k <= |s.snapshots|
    requires forall t: Task :: t in tasks <==> t.n < k && Wanted(s, t.n, t.sub)
    ensures |tasks| == Deliveries(s, k)
  {
    if k == 0 {
      assert tasks == {};
    } else {
      var last := TasksFor(k - 1, Audience(s, k - 1));
      TasksForSize(k - 1, Audience(s, k - 1));
      DeliveriesSize(s, k - 1, tasks - last);
      assert last <= tasks;
      assert |tasks| == |tasks - last| + |last|;
    }
  }

  ghost function UnspawnedTasks(s: State): (ts: set<Task>) {
    if s.dispatcher.Fanning? && |s.snapshots| > 0
    then TasksFor(|s.snapshots| - 1, set id | id in s.dispatcher.todo && Wanted(s, |s.snapshots| - 1, id))
    else {}
  }

  lemma DisjointSize<T>(a: set<T>, b: set<T>)
    requires a !! b
    ensures |a + b| == |a| + |b|
  {
  }

  lemma PhaseSizes(s: State)
    ensures |s.handlers.Keys| == |InPhase(s, Pending)| + |InPhase(s, Running)| + |InPhase(s, Skipped)| + |InPhase(s, Finished)|
  {
    var p, r, k, f := InPhase(s, Pending), InPhase(s, Running), InPhase(s, Skipped), InPhase(s, Finished);
    DisjointSize(p, r);
    DisjointSize(k, f);
    DisjointSize(p + r, k + f);
    assert (p + r) + (k + f) == s.handlers.Keys;
  }

  lemma UnspawnedAreTasks(s: State)
    requires DispatchInv(s)
    ensures forall t: Task :: t in UnspawnedTasks(s) <==> Unspawned(s, t)
  {
  }

  lemma Account(s: State)
    requires TaskInv(s) && ConsumedInv(s) && DispatchInv(s)
    ensures s.consumed + |InPhase(s, Pending)| + |InPhase(s, Running)| + |InPhase(s, Skipped)| + |UnspawnedTasks(s)|
            == Deliveries(s, |s.snapshots|)
  {
    PhaseSizes(s);
    UnspawnedAreTasks(s);
    DisjointSize(s.handlers.Keys, UnspawnedTasks(s));
    DeliveriesSize(s, |s.snapshots|, s.handlers.Keys + UnspawnedTasks(s));
  }

  /**
   In every state of every run, Consumed plus the pending, running, skipped and not yet
   spawned handlers is the number of matching subscribers of all dispatched events.
   */
  lemma RunAccount(states: seq<State>, steps: seq<Step>, i: nat)
    requires IsRun(states, steps) && i < |states|
    ensures var s := states[i];
            s.consumed + |InPhase(s, Pending)| + |InPhase(s, Running)| + |InPhase(s, Skipped)| + |UnspawnedTasks(s)|
            == Deliveries(s, |s.snapshots|)
  {
    RunInv(states, steps, i);
    Account(states[i]);
  }

  /** A handler is skipped only if its subscriber is cancelled, in every state of every run. */
  lemma SkippedAreCancelled(states: seq<State>, steps: seq<Step>, i: nat, t: Task)
    requires IsRun(states, steps) && i < |states| && t in states[i].handlers && states[i].handlers[t] == Skipped
    ensures t.sub in states[i].cancelled
  {
    RunInv(states, steps, i);
  }

  /** The check of a handler lets it run exactly when its subscriber is not cancelled at that moment. */
  lemma LiveHandlersRun(states: seq<State>, steps: seq<Step>, i: nat, t: Task)
    requires IsRun(states, steps) && i < |steps| && steps[i] == Check(t)
    ensures t in states[i].handlers && states[i].handlers[t] == Pending
    ensures t in states[i + 1].handlers
    ensures states[i + 1].handlers[t] == Running <==> t.sub !in states[i].cancelled
    ensures states[i + 1].handlers[t] == Skipped <==> t.sub in states[i].cancelled
  {
    assert Enabled(states[i], steps[i]) && states[i + 1] == Apply(states[i], steps[i]);
  }

  /** A handler that runs and finishes is counted as consumed. */
  lemma FinishedAreCounted(states: seq<State>, steps: seq<Step>, i: nat, t: Task)
    requires IsRun(states, steps) && i < |steps| && steps[i] == Finish(t)
    ensures t in states[i].handlers && states[i].handlers[t] == Running
    ensures t in states[i + 1].handlers && states[i + 1].handlers[t] == Finished
    ensures states[i + 1].consumed == states[i].consumed + 1
  {
    assert Enabled(states[i], steps[i]) && states[i + 1] == Apply(states[i], steps[i]);
  }

  /**
   While no subscriber has been cancelled, every matching subscriber of every dispatched event has been
   served or will be: Consumed plus pending, running and not yet spawned handlers is their number.
   */
  lemma LiveAccount(states: seq<State>, steps: seq<Step>, i: nat)
    requires IsRun(states, steps) && i < |states| && states[i].cancelled == {}
    ensures var s := states[i];
            s.consumed + |InPhase(s, Pending)| + |InPhase(s, Running)| + |UnspawnedTasks(s)| == Deliveries(s, |s.snapshots|)
  {
    RunAccount(states, steps, i);
    RunInv(states, steps, i);
    assert InPhase(states[i], Skipped) == {};
  }

  /** A publisher drops or waits only when the buffer is full, by its priority; otherwise its event is sent. */
  lemma PublishByRoom(states: seq<State>, steps: seq<Step>, i: nat)
    requires IsRun(states, steps) && i < |steps|
    ensures steps[i].Drop? ==>
              |states[i].buffer| == states[i].capacity && steps[i].ev.priority < 5
              && states[i + 1].drops == states[i].drops + [steps[i].ev] && states[i + 1].sent == states[i].sent
    ensures steps[i].Block? ==>
              |states[i].buffer| == states[i].capacity && steps[i].ev.priority >= 5
              && states[i + 1].blocked == states[i].blocked + multiset{steps[i].ev} && states[i + 1].sent == states[i].sent
    ensures steps[i].Send? ==>
              |states[i].buffer| < states[i].capacity && states[i + 1].buffer == states[i].buffer + [steps[i].ev]
              && states[i + 1].sent == states[i].sent + [steps[i].ev]
  {
    RunInv(states, steps, i);
    assert Enabled(states[i], steps[i]) && states[i + 1] == Apply(states[i], steps[i]);
  }

  /** A publisher always has a next step: to send, or, with a full buffer, to drop or to wait. */
  lemma PublishProceeds(s: State, ev: Envelope)
    ensures Enabled(s, Send(ev, false)) || Enabled(s, Drop(ev)) || Enabled(s, Block(ev))
    ensures ev in s.blocked && |s.buffer| < s.capacity ==> Enabled(s, Send(ev, true))
  {
  }

  /** The dispatcher always has a next step, unless it waits at an empty buffer. */
  lemma DispatchProceeds(s: State)
    requires DispatchInv(s)
    ensures match s.dispatcher
            case Waiting => s.buffer != [] ==> Enabled(s, Receive)
            case Holding => Enabled(s, Snapshot)
            case Fanning(todo) => if todo == {} then Enabled(s, EndFan) else exists id :: Enabled(s, Spawn(id))
  {
    if s.dispatcher.Fanning? && s.dispatcher.todo != {} {
      var id :| id in s.dispatcher.todo;
      assert Enabled(s, Spawn(id));
    }
  }

  // ----- every event is handled -----

  ghost function Current(states: seq<State>): (s: State)
    requires states != []
  {
    states[|states| - 1]
  }

  /** What the dispatcher, the handlers and the counting leave alone. */
  ghost predicate SameWorld(s: State, t: State) {
    && t.sent == s.sent && t.drops == s.drops && t.blocked == s.blocked
    && t.subscribers == s.subscribers && t.cancelled == s.cancelled
  }

  lemma Act(states: seq<State>, steps: seq<Step>, step: Step) returns (all: seq<State>, acts: seq<Step>)
    requires IsRun(states, steps) && Enabled(Current(states), step)
    ensures IsRun(all, acts) && steps <= acts && Current(all) == Apply(Current(states), step)
  {
    all, acts := states + [Apply(Current(states), step)], steps + [step];
    forall i {:trigger acts[i]} | 0 <= i < |acts| ensures Enabled(all[i], acts[i]) && all[i + 1] == Apply(all[i], acts[i]) {
      if i < |steps| {
        assert acts[i] == steps[i] && all[i] == states[i] && all[i + 1] == states[i + 1];
      } else {
        assert all[i] == Current(states) && acts[i] == step;
      }
    }
  }

  lemma {:induction false} FinishFan(states: seq<State>, steps: seq<Step>) returns (all: seq<State>, acts: seq<Step>)
    requires IsRun(states, steps) && Current(states).dispatcher.Fanning?
    ensures IsRun(all, acts) && steps <= acts && SameWorld(Current(states), Current(all))
    ensures Current(all).dispatcher.Waiting? && Current(all).buffer == Current(states).buffer
    decreases Current(states).dispatcher.todo
  {
    var todo := Current(states).dispatcher.todo;
    if todo == {} {
      all, acts := Act(states, steps, EndFan);
    } else {
      var id :| id in todo;
      all, acts := Act(states, steps, Spawn(id));
      all, acts := FinishFan(all, acts);
    }
  }

  lemma FanOut(states: seq<State>, steps: seq<Step>) returns (all: seq<State>, acts: seq<Step>)
    requires IsRun(states, steps) && Current(states).dispatcher.Holding?
    ensures IsRun(all, acts) && steps <= acts && SameWorld(Current(states), Current(all))
    ensures Current(all).dispatcher.Waiting? && Current(all).buffer == Current(states).buffer
  {
    all, acts := Act(states, steps, Snapshot);
    all, acts := FinishFan(all, acts);
  }

  lemma {:induction false} DrainBuffer(states: seq<State>, steps: seq<Step>) returns (all: seq<State>, acts: seq<Step>)
    requires IsRun(states, steps) && Current(states).dispatcher.Waiting?
    ensures IsRun(all, acts) && steps <= acts && SameWorld(Current(states), Current(all))
    ensures Current(all).dispatcher.Waiting? && Current(all).buffer == []
    decreases |Current(states).buffer|
  {
    if Current(states).buffer == [] {
      all, acts := states, steps;
    } else {
      all, acts := Act(states, steps, Receive);
      all, acts := FanOut(all, acts);
      all, acts := DrainBuffer(all, acts);
    }
  }

  lemma Dispatched(states: seq<State>, steps: seq<Step>) returns (all: seq<State>, acts: seq<Step>)
    requires IsRun(states, steps)
    ensures IsRun(all, acts) && steps <= acts && SameWorld(Current(states), Current(all))
    ensures Current(all).dispatcher.Waiting? && Current(all).buffer == []
  {
    all, acts := states, steps;
    if Current(states).dispatcher.Holding? {
      all, acts := FanOut(states, steps);
    } else if Current(states).dispatcher.Fanning? {
      all, acts := FinishFan(states, steps);
    }
    all, acts := DrainBuffer(all, acts);
  }

  lemma CheckMoves(s: State, t: Task)
    requires t in InPhase(s, Pending)
    ensures Enabled(s, Check(t)) && InPhase(Apply(s, Check(t)), Pending) == InPhase(s, Pending) - {t}
  {
  }

  lemma FinishMoves(s: State, t: Task)
    requires t in InPhase(s, Running)
    ensures Enabled(s, Finish(t)) && InPhase(Apply(s, Finish(t)), Running) == InPhase(s, Running) - {t}
    ensures InPhase(Apply(s, Finish(t)), Pending) == InPhase(s, Pending)
  {
  }

  lemma {:induction false} FinishHandlers(states: seq<State>, steps: seq<Step>) returns (all: seq<State>, acts: seq<Step>)
    requires IsRun(states, steps) && Current(states).dispatcher.Waiting? && Current(states).buffer == []
    ensures IsRun(all, acts) && steps <= acts && SameWorld(Current(states), Current(all))
    ensures Current(all).dispatcher.Waiting? && Current(all).buffer == []
    ensures InPhase(Current(all), Pending) == {} && InPhase(Current(all), Running) == {}
    decreases InPhase(Current(states), Pending), InPhase(Current(states), Running)
  {
    var s := Current(states);
    if t :| t in InPhase(s, Pending) {
      CheckMoves(s, t);
      all, acts := Act(states, steps, Check(t));
      all, acts := FinishHandlers(all, acts);
    } else if t :| t in InPhase(s, Running) {
      FinishMoves(s, t);
      all, acts := Act(states, steps, Finish(t));
      all, acts := FinishHandlers(all, acts);
    } else {
      all, acts := states, steps;
    }
  }

  /**
   Every run goes on, by dispatching and handling alone, to a state where every event sent has been
   dispatched and every matching subscriber's handler has finished or was skipped; without a cancelled
   subscriber none is skipped, so Consumed is the number of all of them.
   */
  lemma EverythingIsHandled(states: seq<State>, steps: seq<Step>) returns (all: seq<State>, acts: seq<Step>)
    requires IsRun(states, steps)
    ensures IsRun(all, acts) && steps <= acts && SameWorld(Current(states), Current(all))
    ensures var t := Current(all);
            && t.buffer == [] && t.received == t.sent && |t.snapshots| == |t.sent|
            && t.consumed + |InPhase(t, Skipped)| == Deliveries(t, |t.sent|)
            && (t.cancelled == {} ==> t.consumed == Deliveries(t, |t.sent|))
  {
    all, acts := Dispatched(states, steps);
    all, acts := FinishHandlers(all, acts);
    HandledAccount(all, acts);
  }

  lemma HandledAccount(states: seq<State>, steps: seq<Step>)
    requires IsRun(states, steps) && Current(states).dispatcher.Waiting? && Current(states).buffer == []
    requires InPhase(Current(states), Pending) == {} && InPhase(Current(states), Running) == {}
    ensures var t := Current(states);
            && t.received == t.sent && |t.snapshots| == |t.sent|
            && t.consumed + |InPhase(t, Skipped)| == Deliveries(t, |t.sent|)
            && (t.cancelled == {} ==> t.consumed == Deliveries(t, |t.sent|))
  {
    var i := |states| - 1;
    RunInv(states, steps, i);
    RunAccount(states, steps, i);
    if states[i].cancelled == {} {
      LiveAccount(states, steps, i);
    }
  }

  /** A subscriber gets a new id and its filter; one that leaves is gone and cancelled; others stay. */
  lemma SubscriptionSteps(states: seq<State>, steps: seq<Step>, i: nat)
    requires IsRun(states, steps) && i < |steps|
    ensures Subscribes(states[i], steps[i], states[i + 1])
  {
    RunInv(states, steps, i);
    assert Enabled(states[i], steps[i]) && states[i + 1] == Apply(states[i], steps[i]);
    SubscribesStep(states[i], steps[i]);
  }

  ghost predicate Subscribes(s: State, step: Step, s': State) {
    match step
    case Subscribe(f) =>
      && s.nextId !in s.subscribers && s.nextId !in s.cancelled
      && s'.subscribers == s.subscribers[s.nextId := f] && s'.cancelled == s.cancelled
    case Unsubscribe(id) =>
      && s'.subscribers == s.subscribers - {id}
      && s'.cancelled == s.cancelled + (if id in s.subscribers then {id} else {})
    case CancelContext(id) => s'.subscribers == s.subscribers && s'.cancelled == s.cancelled + {id}
    case _ => s'.subscribers == s.subscribers && s'.cancelled == s.cancelled
  }

  lemma SubscribesStep(s: State, step: Step)
    requires IdInv(s) && Enabled(s, step)
    ensures Subscribes(s, step, Apply(s, step))
  {
  }

  /** The audience of a dispatched event: those in the snapshot taken for it whose filter accepts it. */
  lemma AudienceExactly(s: State, n: nat, id: nat)
    requires n < |s.snapshots| && n < |s.received|
    ensures var ev := s.received[n];
            id in Audience(s, n) <==>
            && id in s.snapshots[n]
            && (s.snapshots[n][id].types == [] || ev.eventType in s.snapshots[n][id].types)
            && (s.snapshots[n][id].sources == [] || ev.source in s.snapshots[n][id].sources)
  {
  }

  // ----- how runs evolve -----

  /** History only grows, and a subscriber that has gone does not come back. */
  ghost predicate Extends(s: State, s': State) {
    && s.sent <= s'.sent && s.received <= s'.received && s.snapshots <= s'.snapshots
    && s.cancelled <= s'.cancelled && s.nextId <= s'.nextId
    && (forall id <- s'.subscribers :: id in s.subscribers || id >= s.nextId)
  }

  lemma HistoryGrows(s: State, step: Step)
    requires Enabled(s, step)
    ensures var s' := Apply(s, step); s.sent <= s'.sent && s.received <= s'.received && s.snapshots <= s'.snapshots
  {
  }

  lemma SubscribersGo(s: State, step: Step)
    requires IdInv(s) && Enabled(s, step)
    ensures var s' := Apply(s, step);
            && s.cancelled <= s'.cancelled && s.nextId <= s'.nextId
            && (forall id <- s'.subscribers :: id in s.subscribers || id >= s.nextId)
  {
  }

  lemma StepExtends(s: State, step: Step)
    requires IdInv(s) && Enabled(s, step)
    ensures Extends(s, Apply(s, step))
  {
    HistoryGrows(s, step);
    SubscribersGo(s, step);
  }

  lemma {:induction false} RunExtends(states: seq<State>, steps: seq<Step>, i: nat, j: nat)
    requires IsRun(states, steps) && i <= j < |states|
    ensures Extends(states[i], states[j])
  {
    if i < j {
      RunExtends(states, steps, i, j - 1);
      RunInv(states, steps, j - 1);
      StepExtends(states[j - 1], steps[j - 1]);
    }
  }

  ghost function Started(s: State, id: nat): (ts: set<Task>) {
    set t | t in s.handlers && t.sub == id && (s.handlers[t] == Running || s.handlers[t] == Finished)
  }

  lemma StartedStep(s: State, step: Step, id: nat)
    requires TaskInv(s) && DispatchInv(s) && Enabled(s, step) && id in s.cancelled
    ensures Started(Apply(s, step), id) == Started(s, id)
  {
    if step.Spawn? {
      SpawnIsNew(s, step.id);
    } else if !step.Check? && !step.Finish? {
      HandlersKept(s, step);
    }
  }

  lemma StartedInRun(states: seq<State>, steps: seq<Step>, i: nat, id: nat)
    requires IsRun(states, steps) && i < |steps| && id in states[i].cancelled
    ensures Started(states[i + 1], id) == Started(states[i], id) && id in states[i + 1].cancelled
  {
    RunInv(states, steps, i);
    StartedStep(states[i], steps[i], id);
    CancelledStay(states[i], steps[i]);
  }

  /** Once a subscriber is cancelled, no handler of it passes its check any more. */
  lemma {:induction false} NoStartAfterCancel(states: seq<State>, steps: seq<Step>, i: nat, j: nat, id: nat)
    requires IsRun(states, steps) && i <= j < |states| && id in states[i].cancelled
    ensures Started(states[j], id) == Started(states[i], id) && id in states[j].cancelled
  {
    if i < j {
      NoStartAfterCancel(states, steps, i, j - 1, id);
      StartedInRun(states, steps, j - 1, id);
    }
  }

  lemma SnapshotStep(s: State, step: Step)
    requires Enabled(s, step)
    ensures Apply(s, step).snapshots == if step.Snapshot? then s.snapshots + [s.subscribers] else s.snapshots
  {
  }

  /** The snapshots between two states hold a subscriber that stayed, and miss one that had left. */
  ghost predicate Follows(s: State, s': State, id: nat) {
    && |s.snapshots| <= |s'.snapshots|
    && (id in s'.subscribers ==> forall n :: |s.snapshots| <= n < |s'.snapshots| ==> id in s'.snapshots[n])
    && (id !in s.subscribers ==> forall n :: |s.snapshots| <= n < |s'.snapshots| ==> id !in s'.snapshots[n])
  }

  lemma FollowsStep(s: State, mid: State, s': State, id: nat)
    requires Follows(s, mid, id) && Extends(s, mid) && Extends(mid, s') && id < s.nextId
    requires s'.snapshots == mid.snapshots || s'.snapshots == mid.snapshots + [mid.subscribers]
    ensures Follows(s, s', id)
  {
  }

  /**
   A subscriber present at both ends of a stretch is in every snapshot taken in between; one
   that had left before it is in none of them. So each event goes to exactly the right subscribers.
   */
  lemma {:induction false} SnapshotsFollowSubscription(states: seq<State>, steps: seq<Step>, i: nat, j: nat, id: nat)
    requires IsRun(states, steps) && i <= j < |states| && id < states[i].nextId
    ensures Follows(states[i], states[j], id)
  {
    if i < j {
      SnapshotsFollowSubscription(states, steps, i, j - 1, id);
      FollowsInRun(states, steps, i, j - 1, id);
    }
  }

  lemma SnapshotInRun(states: seq<State>, steps: seq<Step>, j: nat)
    requires IsRun(states, steps) && j < |steps|
    ensures states[j + 1].snapshots == states[j].snapshots || states[j + 1].snapshots == states[j].snapshots + [states[j].subscribers]
  {
    assert Enabled(states[j], steps[j]) && states[j + 1] == Apply(states[j], steps[j]);
    SnapshotStep(states[j], steps[j]);
  }

  lemma FollowsInRun(states: seq<State>, steps: seq<Step>, i: nat, j: nat, id: nat)
    requires IsRun(states, steps) && i <= j < |steps| && id < states[i].nextId && Follows(states[i], states[j], id)
    ensures Follows(states[i], states[j + 1], id)
  {
    RunExtends(states, steps, i, j);
    RunExtends(states, steps, j, j + 1);
    SnapshotInRun(states, steps, j);
    FollowsStep(states[i], states[j], states[j + 1], id);
  }
}
