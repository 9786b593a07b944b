/** The bounded in-process event bus of backend/internal/events/bus.go as a state machine: every
    channel operation, map access and handler call is one step, and the steps of the publishers and
    of any number of workers interleave freely. */
module EventBus {
  import opened Base

  datatype Event = Event(kind: string, aggregate: string)

  /** A registered handler, named by an arbitrary number. */
  type Handler = nat

  /** Where one delivery stands: received from the channel, calling handlers, unwinding from the panic of
      one, or done. `seen` is
      how many subscriptions had been made when the handler list was looked up. */
  datatype Phase =
    | Received
    | Calling(handlers: seq<Handler>, next: nat, seen: nat)
    | Unwinding(handlers: seq<Handler>, next: nat, seen: nat)
    | Done(handlers: seq<Handler>, seen: nat)

  /** The delivery of one event and the handler calls made for it so far. */
  datatype Delivery = Delivery(event: Event, phase: Phase, calls: seq<Handler>)

  /** A worker goroutine: its context, the delivery it is busy with, and whether it has returned. */
  datatype Worker = Worker(ctx: nat, job: Option<nat>, exited: bool)

  /** `queue`, `subs`, `dropped`, `cancel` and `workers` are the bus; `cancelled` holds one flag for
      each context created; the rest records what has happened. */
  datatype State = State(
    capacity: nat,
    size: nat,
    queue: seq<Event>,
    subs: map<string, seq<Handler>>,
    dropped: nat,
    cancelled: seq<bool>,
    cancel: Option<nat>,
    workers: seq<Worker>,
    published: seq<Event>,
    accepted: seq<Event>,
    subscribed: seq<(string, Handler)>,
    deliveries: seq<Delivery>
  )

  /** A bus that was just built: a size that is not positive falls back to its default. */
  function NewBus(buffer: int, workers: int): State {
    State(if buffer <= 0 then 1024 else buffer, if workers <= 0 then 4 else workers,
          [], map[], 0, [], None, [], [], [], [], [])
  }

  datatype Action =
    | Publish(e: Event)
    | Subscribe(kind: string, h: Handler)
    | Run
    | ParentCancel(ctx: nat)
    | StopBegin
    | StopReturn
    | Exit(w: nat)
    | Take(w: nat)
    | Lookup(w: nat)
    | Call(w: nat, panics: bool)
    | Recover(w: nat)
    | Finish(w: nat)

  predicate Idle(s: State, w: nat) {
    w < |s.workers| && !s.workers[w].exited && s.workers[w].job.None?
  }

  predicate Busy(s: State, w: nat) {
    w < |s.workers| && s.workers[w].job.Some? && s.workers[w].job.value < |s.deliveries|
  }

  function Job(s: State, w: nat): Delivery
    requires Busy(s, w)
  {
    s.deliveries[s.workers[w].job.value]
  }

  predicate AllExited(s: State) {
    forall w | 0 <= w < |s.workers| :: s.workers[w].exited
  }

  /** Which steps are possible. `select` may pick either ready branch, so a worker can take one more
      event after its context is cancelled; Stop waits for every worker started so far. */
  predicate Enabled(s: State, a: Action) {
    match a
    case Publish(_) => true
    case Subscribe(_, _) => true
    case Run => true
    case ParentCancel(c) => c < |s.cancelled|
    case StopBegin => true
    case StopReturn => AllExited(s)
    case Exit(w) => Idle(s, w) && s.workers[w].ctx < |s.cancelled| && s.cancelled[s.workers[w].ctx]
    case Take(w) => Idle(s, w) && s.queue != []
    case Lookup(w) => Busy(s, w) && Job(s, w).phase.Received?
    case Call(w, _) => Busy(s, w) && Job(s, w).phase.Calling? && Job(s, w).phase.next < |Job(s, w).phase.handlers|
    case Recover(w) => Busy(s, w) && Job(s, w).phase.Unwinding?
    case Finish(w) => Busy(s, w) && Job(s, w).phase.Calling? && Job(s, w).phase.next == |Job(s, w).phase.handlers|
  }

  function Handlers(subs: map<string, seq<Handler>>, kind: string): seq<Handler> {
    if kind in subs then subs[kind] else []
  }

  function SetJob(s: State, w: nat, d: Delivery): State
    requires Busy(s, w)
  {
    s.(deliveries := s.deliveries[s.workers[w].job.value := d])
  }

  function Spawn(workers: seq<Worker>, ctx: nat, n: nat): seq<Worker> {
    if n == 0 then workers else Spawn(workers, ctx, n - 1) + [Worker(ctx, None, false)]
  }

  function Step(s: State, a: Action): State
    requires Enabled(s, a)
  {
    match a
    case Publish(e) =>
      var t := s.(published := s.published + [e]);
      if |s.queue| < s.capacity then t.(queue := s.queue + [e], accepted := s.accepted + [e])
      else t.(dropped := s.dropped + 1)
    case Subscribe(kind, h) =>
      s.(subs := s.subs[kind := Handlers(s.subs, kind) + [h]], subscribed := s.subscribed + [(kind, h)])
    case Run =>
      s.(cancelled := s.cancelled + [false], cancel := Some(|s.cancelled|),
         workers := Spawn(s.workers, |s.cancelled|, s.size))
    case ParentCancel(c) => s.(cancelled := s.cancelled[c := true])
    case StopBegin =>
      if s.cancel.Some? && s.cancel.value < |s.cancelled|
      then s.(cancelled := s.cancelled[s.cancel.value := true]) else s
    case StopReturn => s
    case Exit(w) => s.(workers := s.workers[w := s.workers[w].(exited := true)])
    case Take(w) =>
      s.(queue := s.queue[1..],
         workers := s.workers[w := s.workers[w].(job := Some(|s.deliveries|))],
         deliveries := s.deliveries + [Delivery(s.queue[0], Received, [])])
    case Lookup(w) =>
      var d := Job(s, w);
      SetJob(s, w, d.(phase := Calling(Handlers(s.subs, d.event.kind), 0, |s.subscribed|)))
    case Call(w, panics) =>
      var d := Job(s, w);
      var next := d.phase.next + 1;
      SetJob(s, w, d.(phase := if panics then Unwinding(d.phase.handlers, next, d.phase.seen)
                               else Calling(d.phase.handlers, next, d.phase.seen),
                      calls := d.calls + [d.phase.handlers[d.phase.next]]))
    case Recover(w) =>  // safeCall returns and the loop over the handlers goes on
      var d := Job(s, w);
      SetJob(s, w, d.(phase := Calling(d.phase.handlers, d.phase.next, d.phase.seen)))
    case Finish(w) =>
      var d := Job(s, w);
      SetJob(s, w, d.(phase := Done(d.phase.handlers, d.phase.seen)))
      .(workers := s.workers[w := s.workers[w].(job := None)])
  }

  // ---- the bus object ----

  class Bus {
    var ch: seq<Event>
    var subs: map<string, seq<Handler>>
    var dropped: nat
    const buffer: nat

    constructor (buffer: int)
      ensures ch == [] && subs == map[] && dropped == 0
      ensures this.buffer == NewBus(buffer, 0).capacity
    {
      ch, subs, dropped := [], map[], 0;
      this.buffer := if buffer <= 0 then 1024 else buffer;
    }

    /** The fields are those of a state of the machine. */
    predicate Shows(s: State)
      reads this
    {
      s.queue == ch && s.subs == subs && s.dropped == dropped && s.capacity == buffer
    }

    method Publish(e: Event, ghost s: State) returns (accepted: bool)
      requires Shows(s)
      modifies this
      ensures Shows(Step(s, Action.Publish(e)))
      ensures accepted <==> |s.queue| < s.capacity
    {
      if |ch| < buffer {
        ch := ch + [e];
        return true;
      }
      dropped := dropped + 1;
      return false;
    }

    method Subscribe(kind: string, h: Handler, ghost s: State)
      requires Shows(s)
      modifies this
      ensures Shows(Step(s, Action.Subscribe(kind, h)))
    {
      var registered := if kind in subs then subs[kind] else [];
      subs := subs[kind := registered + [h]];
    }

    /** A worker's receive, with the channel not empty. */
    method Receive(w: nat, ghost s: State) returns (e: Event)
      requires Shows(s) && Enabled(s, Take(w))
      modifies this
      ensures Shows(Step(s, Take(w))) && Job(Step(s, Take(w)), w).event == e
    {
      e := ch[0];
      ch := ch[1..];
    }

    /** Delivers one event when nothing interleaves: looks the handlers up once and calls them all
        in order, whichever of them panic. */
    method Dispatch(e: Event, panics: Handler -> bool) returns (calls: seq<Handler>, recovered: nat)
      ensures calls == Handlers(subs, e.kind)
      ensures recovered == Count(calls, panics)
    {
      var handlers := if e.kind in subs then subs[e.kind] else [];
      calls, recovered := [], 0;
      for i := 0 to |handlers|
        invariant calls == handlers[..i] && recovered == Count(calls, panics)
      {
        CountAppend(calls, handlers[i], panics);
        calls := calls + [handlers[i]];
        if panics(handlers[i]) {
          recovered := recovered + 1;
        }
      }
    }
  }

  // ---- runs ----

  predicate IsRun(s: State, actions: seq<Action>)
    decreases |actions|
  {
    actions == [] || (Enabled(s, actions[0]) && IsRun(Step(s, actions[0]), actions[1..]))
  }

  function After(s: State, actions: seq<Action>): State
    requires IsRun(s, actions)
    decreases |actions|
  {
    if actions == [] then s else After(Step(s, actions[0]), actions[1..])
  }

  /** The handlers subscribed to a kind, in subscription order. */
  function SubscribedTo(log: seq<(string, Handler)>, kind: string): seq<Handler> {
    if log == [] then []
    else
      var last := log[|log| - 1];
      SubscribedTo(log[..|log| - 1], kind) + (if last.0 == kind then [last.1] else [])
  }

  function Events(ds: seq<Delivery>): seq<Event> {
    seq(|ds|, i requires 0 <= i < |ds| => ds[i].event)
  }

  predicate Open(d: Delivery) { !d.phase.Done? }

  predicate Working(w: Worker) { w.job.Some? }

  /** The calls made are the handlers subscribed at lookup, in order, up to where the loop stands. */
  predicate Faithful(d: Delivery, log: seq<(string, Handler)>) {
    match d.phase
    case Received => d.calls == []
    case Calling(handlers, next, seen) =>
      seen <= |log| && handlers == SubscribedTo(log[..seen], d.event.kind)
      && next <= |handlers| && d.calls == handlers[..next]
    case Unwinding(handlers, next, seen) =>
      seen <= |log| && handlers == SubscribedTo(log[..seen], d.event.kind)
      && next <= |handlers| && d.calls == handlers[..next]
    case Done(handlers, seen) =>
      seen <= |log| && handlers == SubscribedTo(log[..seen], d.event.kind) && d.calls == handlers
  }

  /** Published events are accepted or dropped; accepted ones have been handed out once each, in
      order, or are still queued. */
  ghost predicate QueueInv(s: State) {
    && |s.queue| <= s.capacity
    && |s.published| == s.dropped + |s.accepted|
    && s.accepted == Events(s.deliveries) + s.queue
  }

  ghost predicate SubsInv(s: State) {
    && (forall k :: Handlers(s.subs, k) == SubscribedTo(s.subscribed, k))
    && (forall i | 0 <= i < |s.deliveries| :: Faithful(s.deliveries[i], s.subscribed))
  }

  /** Every unfinished delivery is in the hands of a worker that has not returned, and no two
      workers share one. */
  ghost predicate WorkInv(s: State) {
    && (forall w | 0 <= w < |s.workers| :: s.workers[w].job.Some? ==>
          !s.workers[w].exited && s.workers[w].job.value < |s.deliveries|
          && Open(s.deliveries[s.workers[w].job.value]))
    && (forall v, w | 0 <= v < w < |s.workers| ::
          s.workers[v].job.Some? && s.workers[w].job.Some? ==> s.workers[v].job != s.workers[w].job)
  }

  ghost predicate CountInv(s: State) {
    Count(s.deliveries, Open) == Count(s.workers, Working)
  }

  ghost predicate Inv(s: State) {
    QueueInv(s) && SubsInv(s) && WorkInv(s) && CountInv(s)
  }

  lemma EventsUpdate(ds: seq<Delivery>, i: nat, d: Delivery)
    requires i < |ds| && d.event == ds[i].event
    ensures Events(ds[i := d]) == Events(ds)
  {
  }

  lemma TakeKeepsQueueInv(s: State, w: nat)
    requires QueueInv(s) && Enabled(s, Take(w))
    ensures QueueInv(Step(s, Take(w)))
  {
    var t := Step(s, Take(w));
    assert Events(t.deliveries) == Events(s.deliveries) + [s.queue[0]];
    hide Events;
    assert [s.queue[0]] + s.queue[1..] == s.queue;
  }

  /** A worker's step on its delivery leaves the channel and the events handed out alone. */
  lemma WorkKeepsQueueInv(s: State, a: Action, w: nat)
    requires QueueInv(s) && Enabled(s, a) && (a.Lookup? || a.Call? || a.Recover? || a.Finish?) && a.w == w
    ensures QueueInv(Step(s, a))
  {
    var j := s.workers[w].job.value;
    hide Events, Handlers;
    EventsUpdate(s.deliveries, j, Step(s, a).deliveries[j]);
  }

  lemma PublishKeepsQueueInv(s: State, e: Event)
    requires QueueInv(s)
    ensures QueueInv(Step(s, Publish(e)))
  {
    hide Events;
  }

  lemma StepKeepsQueueInv(s: State, a: Action)
    requires QueueInv(s) && Enabled(s, a)
    ensures QueueInv(Step(s, a))
  {
    match a {
      case Take(w) => TakeKeepsQueueInv(s, w);
      case Lookup(w) => WorkKeepsQueueInv(s, a, w);
      case Call(w, _) => WorkKeepsQueueInv(s, a, w);
      case Recover(w) => WorkKeepsQueueInv(s, a, w);
      case Finish(w) => WorkKeepsQueueInv(s, a, w);
      case Publish(e) => PublishKeepsQueueInv(s, e);
      case _ => hide Events, Handlers, Spawn;
    }
  }

  /** A step that works on one delivery and leaves it faithful. */
  lemma JobKeepsSubsInv(s: State, t: State, j: nat)
    requires SubsInv(s) && j < |s.deliveries| && j < |t.deliveries|
    requires t.deliveries == s.deliveries[j := t.deliveries[j]] && t.subs == s.subs && t.subscribed == s.subscribed
    requires Faithful(t.deliveries[j], s.subscribed)
    ensures SubsInv(t)
  {
    hide Faithful, SubscribedTo;
  }

  lemma StepKeepsSubsInv(s: State, a: Action)
    requires Inv(s) && Enabled(s, a)
    ensures SubsInv(Step(s, a))
  {
    var t := Step(s, a);
    match a {
      case Subscribe(kind, h) =>
        SubscribeKeepsSubsInv(s, kind, h);
      case Take(w) =>
        assert forall i | 0 <= i < |s.deliveries| :: t.deliveries[i] == s.deliveries[i];
        hide SubscribedTo;
      case Lookup(w) => WorkKeepsSubsInv(s, a, w);
      case Call(w, _) => WorkKeepsSubsInv(s, a, w);
      case Recover(w) => WorkKeepsSubsInv(s, a, w);
      case Finish(w) => WorkKeepsSubsInv(s, a, w);
      case _ =>
    }
    hide QueueInv, WorkInv, CountInv, Faithful, SubscribedTo;
  }

  lemma WorkKeepsSubsInv(s: State, a: Action, w: nat)
    requires SubsInv(s) && Enabled(s, a) && (a.Lookup? || a.Call? || a.Recover? || a.Finish?) && a.w == w
    ensures SubsInv(Step(s, a))
  {
    var t, j := Step(s, a), s.workers[w].job.value;
    if a.Lookup? {
      LookupIsFaithful(s, w);
    } else {
      WorkIsFaithful(s, a, w);
    }
    hide SubscribedTo, Faithful, SubsInv, Handlers;
    JobKeepsSubsInv(s, t, j);
  }

  lemma LookupIsFaithful(s: State, w: nat)
    requires SubsInv(s) && Enabled(s, Lookup(w))
    ensures Faithful(Step(s, Lookup(w)).deliveries[s.workers[w].job.value], s.subscribed)
  {
    var d := s.deliveries[s.workers[w].job.value];
    assert Faithful(d, s.subscribed);
    assert s.subscribed[..|s.subscribed|] == s.subscribed;
    assert Handlers(s.subs, d.event.kind) == SubscribedTo(s.subscribed, d.event.kind);
    hide SubscribedTo, Handlers, SubsInv;
  }

  lemma WorkIsFaithful(s: State, a: Action, w: nat)
    requires SubsInv(s) && Enabled(s, a) && (a.Call? || a.Recover? || a.Finish?) && a.w == w
    ensures Faithful(Step(s, a).deliveries[s.workers[w].job.value], s.subscribed)
  {
    var d := s.deliveries[s.workers[w].job.value];
    assert Faithful(d, s.subscribed);
    hide SubscribedTo, Handlers, SubsInv;
  }

  lemma SubscribeKeepsSubsInv(s: State, kind: string, h: Handler)
    requires SubsInv(s)
    ensures SubsInv(Step(s, Subscribe(kind, h)))
  {
    var t := Step(s, Subscribe(kind, h));
    var log := t.subscribed;
    assert log[..|log| - 1] == s.subscribed;
    forall k
      ensures Handlers(t.subs, k) == SubscribedTo(log, k)
    {
      assert Handlers(s.subs, k) == SubscribedTo(s.subscribed, k);
    }
    forall i | 0 <= i < |s.deliveries|
      ensures Faithful(t.deliveries[i], log)
    {
      hide SubscribedTo;
      assert Faithful(s.deliveries[i], s.subscribed);
      assert forall n | 0 <= n <= |s.subscribed| :: log[..n] == s.subscribed[..n];
    }
  }

  lemma {:induction false} SpawnAdds(workers: seq<Worker>, ctx: nat, n: nat)
    ensures var t := Spawn(workers, ctx, n);
            && |t| == |workers| + n && t[..|workers|] == workers
            && (forall w | |workers| <= w < |t| :: t[w] == Worker(ctx, None, false))
            && Count(t, Working) == Count(workers, Working)
  {
    if n > 0 {
      SpawnAdds(workers, ctx, n - 1);
      CountAppend(Spawn(workers, ctx, n - 1), Worker(ctx, None, false), Working);
    }
  }

  lemma NewWorkersKeepWorkInv(s: State, t: State)
    requires WorkInv(s) && t.deliveries == s.deliveries && |s.workers| <= |t.workers|
    requires forall w | 0 <= w < |s.workers| :: t.workers[w] == s.workers[w]
    requires forall w | |s.workers| <= w < |t.workers| :: t.workers[w].job.None?
    ensures WorkInv(t)
  {
  }

  lemma RunKeepsWorkInv(s: State)
    requires WorkInv(s)
    ensures WorkInv(Step(s, Run))
  {
    var t := Step(s, Run);
    SpawnAdds(s.workers, |s.cancelled|, s.size);
    hide Count, Spawn, WorkInv;
    assert forall w | 0 <= w < |s.workers| :: t.workers[w] == t.workers[..|s.workers|][w] == s.workers[w];
    NewWorkersKeepWorkInv(s, t);
  }

  lemma TakeKeepsWorkInv(s: State, w: nat)
    requires WorkInv(s) && Enabled(s, Take(w))
    ensures WorkInv(Step(s, Take(w)))
  {
  }

  /** A worker's step on its own delivery does not touch another's. */
  lemma JobKeepsWorkInv(s: State, a: Action, w: nat)
    requires WorkInv(s) && Enabled(s, a) && (a.Lookup? || a.Call? || a.Recover? || a.Finish?) && a.w == w
    ensures WorkInv(Step(s, a))
  {
    hide Handlers;
    var t, j := Step(s, a), s.workers[w].job.value;
    assert forall i | 0 <= i < |s.deliveries| && i != j :: t.deliveries[i] == s.deliveries[i];
  }

  lemma StepKeepsWorkInv(s: State, a: Action)
    requires WorkInv(s) && Enabled(s, a)
    ensures WorkInv(Step(s, a))
  {
    match a {
      case Run => RunKeepsWorkInv(s);
      case Take(w) => TakeKeepsWorkInv(s, w);
      case Lookup(w) => JobKeepsWorkInv(s, a, w);
      case Call(w, _) => JobKeepsWorkInv(s, a, w);
      case Recover(w) => JobKeepsWorkInv(s, a, w);
      case Finish(w) => JobKeepsWorkInv(s, a, w);
      case _ => hide Spawn, Handlers;
    }
  }

  lemma StepKeepsCountInv(s: State, a: Action)
    requires WorkInv(s) && CountInv(s) && Enabled(s, a)
    ensures CountInv(Step(s, a))
  {
    hide Count, Spawn, WorkInv;
    var t := Step(s, a);
    match a {
      case Run => SpawnAdds(s.workers, |s.cancelled|, s.size);
      case Exit(w) => CountUpdate(s.workers, w, t.workers[w], Working);
      case Take(w) =>
        CountUpdate(s.workers, w, t.workers[w], Working);
        CountAppend(s.deliveries, t.deliveries[|s.deliveries|], Open);
      case Lookup(w) => JobUpdate(s, t, w);
      case Call(w, _) => JobUpdate(s, t, w);
      case Recover(w) => JobUpdate(s, t, w);
      case Finish(w) =>
        JobUpdate(s, t, w);
        CountUpdate(s.workers, w, t.workers[w], Working);
      case _ =>
    }
  }

  lemma JobUpdate(s: State, t: State, w: nat)
    requires Busy(s, w)
    requires var j := s.workers[w].job.value;
             j < |t.deliveries| && t.deliveries == s.deliveries[j := t.deliveries[j]]
    ensures var j := s.workers[w].job.value;
            Count(t.deliveries, Open)
            == Count(s.deliveries, Open) - (if Open(s.deliveries[j]) then 1 else 0) + (if Open(t.deliveries[j]) then 1 else 0)
  {
    var j := s.workers[w].job.value;
    CountUpdate(s.deliveries, j, t.deliveries[j], Open);
  }

  lemma StepKeepsInv(s: State, a: Action)
    requires Inv(s) && Enabled(s, a)
    ensures Inv(Step(s, a))
  {
    StepKeepsQueueInv(s, a);
    StepKeepsSubsInv(s, a);
    StepKeepsWorkInv(s, a);
    StepKeepsCountInv(s, a);
  }

  lemma {:induction false} RunKeepsInv(s: State, actions: seq<Action>)
    requires Inv(s) && IsRun(s, actions)
    ensures Inv(After(s, actions)) && After(s, actions).capacity == s.capacity
    decreases |actions|
  {
    if actions != [] {
      StepKeepsInv(s, actions[0]);
      RunKeepsInv(Step(s, actions[0]), actions[1..]);
    }
  }

  /** In every reachable state, with any number of workers: published = dropped + queued + in flight
      + finished, the queue is within its capacity, and the events handed to workers are the
      accepted ones, each once and in the order of acceptance. */
  lemma Conservation(buffer: int, workers: int, actions: seq<Action>)
    requires IsRun(NewBus(buffer, workers), actions)
    ensures var s := After(NewBus(buffer, workers), actions);
            && |s.queue| <= (if buffer <= 0 then 1024 else buffer)
            && |s.published| == s.dropped + |s.queue| + Count(s.workers, Working) + Count(s.deliveries, d => !Open(d))
            && Events(s.deliveries) + s.queue == s.accepted
  {
    var s := After(NewBus(buffer, workers), actions);
    RunKeepsInv(NewBus(buffer, workers), actions);
    CountComplement(s.deliveries);
  }

  lemma {:induction false} CountComplement(ds: seq<Delivery>)
    ensures Count(ds, Open) + Count(ds, d => !Open(d)) == |ds|
    decreases |ds|
  {
    if ds != [] {
      CountComplement(ds[..|ds| - 1]);
    }
  }

  /** A published event is accepted exactly while fewer accepted events wait for a worker than the channel
      holds, 1024 unless a positive number is given; otherwise it is dropped, and nothing else happens. */
  lemma AcceptedExactly(buffer: int, workers: int, actions: seq<Action>, e: Event)
    requires IsRun(NewBus(buffer, workers), actions)
    ensures var s := After(NewBus(buffer, workers), actions);
            var t := Step(s, Publish(e));
            && |s.deliveries| <= |s.accepted|
            && t == (if |s.accepted| - |s.deliveries| < (if buffer <= 0 then 1024 else buffer)
                     then s.(published := s.published + [e], accepted := s.accepted + [e], queue := s.queue + [e])
                     else s.(published := s.published + [e], dropped := s.dropped + 1))
  {
    var s := After(NewBus(buffer, workers), actions);
    RunKeepsInv(NewBus(buffer, workers), actions);
    assert |Events(s.deliveries)| == |s.deliveries|;
    hide Events, After, IsRun, SubsInv, WorkInv, CountInv;
  }

  lemma {:induction false} RunKeepsSize(s: State, actions: seq<Action>)
    requires IsRun(s, actions)
    ensures After(s, actions).size == s.size
    decreases |actions|
  {
    if actions != [] {
      RunKeepsSize(Step(s, actions[0]), actions[1..]);
    }
  }

  /** Each Run starts as many workers as were asked for, four unless a positive number is given: they hold
      nothing, and their context is a new one that is not cancelled. */
  lemma RunStartsExactly(buffer: int, workers: int, actions: seq<Action>)
    requires IsRun(NewBus(buffer, workers), actions)
    ensures var s := After(NewBus(buffer, workers), actions);
            var t := Step(s, Run);
            && |t.workers| == |s.workers| + (if workers <= 0 then 4 else workers) && t.workers[..|s.workers|] == s.workers
            && t.cancelled == s.cancelled + [false]
            && (forall w | |s.workers| <= w < |t.workers| :: t.workers[w] == Worker(|s.cancelled|, None, false))
  {
    var s := After(NewBus(buffer, workers), actions);
    RunKeepsSize(NewBus(buffer, workers), actions);
    SpawnAdds(s.workers, |s.cancelled|, s.size);
    hide After, IsRun, Count, Spawn;
  }

  /** Every accepted event that has been dispatched called exactly the handlers subscribed to its
      kind when they were looked up, once each and in subscription order, whatever panicked. */
  lemma DispatchedFaithfully(buffer: int, workers: int, actions: seq<Action>, i: nat)
    requires IsRun(NewBus(buffer, workers), actions)
    requires i < |After(NewBus(buffer, workers), actions).deliveries|
    ensures var s := After(NewBus(buffer, workers), actions);
            var d := s.deliveries[i];
            && Faithful(d, s.subscribed) && i < |s.accepted| && d.event == s.accepted[i]
            && (d.phase.Done? ==> exists m | 0 <= m <= |s.subscribed| ::
                  d.calls == SubscribedTo(s.subscribed[..m], d.event.kind))
  {
    var s := After(NewBus(buffer, workers), actions);
    RunKeepsInv(NewBus(buffer, workers), actions);
    assert (Events(s.deliveries) + s.queue)[i] == s.deliveries[i].event;
    assert Faithful(s.deliveries[i], s.subscribed);
  }

  /** A worker that holds a delivery can always go on with it: a panic is recovered, the next handler is
      called or the delivery is finished. */
  lemma BusyWorkerGoesOn(buffer: int, workers: int, actions: seq<Action>, w: nat) returns (a: Action)
    requires IsRun(NewBus(buffer, workers), actions) && Busy(After(NewBus(buffer, workers), actions), w)
    ensures Enabled(After(NewBus(buffer, workers), actions), a)
    ensures (a.Lookup? || a.Call? || a.Recover? || a.Finish?) && a.w == w
  {
    var s := After(NewBus(buffer, workers), actions);
    RunKeepsInv(NewBus(buffer, workers), actions);
    var d := Job(s, w);
    assert Open(d) && Faithful(d, s.subscribed);
    a := match d.phase
      case Received => Lookup(w)
      case Unwinding(_, _, _) => Recover(w)
      case _ => if d.phase.next < |d.phase.handlers| then Call(w, true) else Finish(w);
  }

  /** When Stop returns no delivery is left half done: each event a worker took has had all its
      handlers called; the rest are still queued. */
  lemma StopLeavesNothingOpen(buffer: int, workers: int, actions: seq<Action>)
    requires IsRun(NewBus(buffer, workers), actions)
    requires Enabled(After(NewBus(buffer, workers), actions), StopReturn)
    ensures var s := After(NewBus(buffer, workers), actions);
            forall i | 0 <= i < |s.deliveries| :: s.deliveries[i].phase.Done?
  {
    var s := After(NewBus(buffer, workers), actions);
    RunKeepsInv(NewBus(buffer, workers), actions);
    CountNone(s.workers, Working);
    CountNone(s.deliveries, Open);
    assert forall i | 0 <= i < |s.deliveries| :: !Open(s.deliveries[i]) ==> s.deliveries[i].phase.Done?;
  }

  // ---- when Stop can return ----

  /** A step that a worker goroutine takes by itself. */
  predicate IsWorkerStep(a: Action) {
    a.Exit? || a.Take? || a.Lookup? || a.Call? || a.Recover? || a.Finish?
  }

  predicate WorkersOnly(actions: seq<Action>) {
    forall a | a in actions :: IsWorkerStep(a)
  }

  /** The worker's context is cancelled. */
  predicate Told(s: State, w: nat)
    requires w < |s.workers|
  {
    s.workers[w].ctx < |s.cancelled| && s.cancelled[s.workers[w].ctx]
  }

  /** Every worker that has not returned has been told to. */
  predicate AllTold(s: State) {
    forall w | 0 <= w < |s.workers| :: s.workers[w].exited || Told(s, w)
  }

  predicate Alive(w: Worker) { !w.exited }

  lemma {:induction false} RunAppend(s: State, a: seq<Action>, b: seq<Action>)
    requires IsRun(s, a) && IsRun(After(s, a), b)
    ensures IsRun(s, a + b) && After(s, a + b) == After(After(s, a), b)
    decreases |a|
  {
    if a == [] {
      assert a + b == b;
    } else {
      hide Step, Enabled;
      assert (a + b)[1..] == a[1..] + b;
      RunAppend(Step(s, a[0]), a[1..], b);
    }
  }

  lemma One(s: State, a: Action, rest: seq<Action>)
    requires Enabled(s, a) && IsRun(Step(s, a), rest)
    ensures IsRun(s, [a] + rest) && After(s, [a] + rest) == After(Step(s, a), rest)
  {
    hide Step, Enabled;
    assert ([a] + rest)[1..] == rest;
  }

  /** How far a delivery is from done: before the lookup, then by handlers left, then by an unwinding. */
  function Stage(d: Delivery): nat {
    if d.phase.Received? then 1 else 0
  }

  function HandlersLeft(d: Delivery): nat {
    match d.phase
    case Calling(hs, next, _) => if next < |hs| then |hs| - next else 0
    case Unwinding(hs, next, _) => if next < |hs| then |hs| - next else 0
    case _ => 0
  }

  /** A busy worker gets to the end of its delivery, by its own steps and without touching the others. */
  lemma {:induction false} FinishJob(s: State, w: nat) returns (actions: seq<Action>)
    requires Inv(s) && Busy(s, w)
    ensures WorkersOnly(actions) && IsRun(s, actions) && Inv(After(s, actions))
    ensures var t := After(s, actions);
            t.cancelled == s.cancelled && t.workers == s.workers[w := s.workers[w].(job := None)]
    decreases Stage(Job(s, w)), HandlersLeft(Job(s, w)), if Job(s, w).phase.Unwinding? then 1 else 0
  {
    var a := NextStep(s, w);
    StepKeepsInv(s, a);
    OwnStep(s, a, w);
    var t := Step(s, a);
    hide Inv, Step, Enabled;
    if a.Finish? {
      One(s, a, []);
      actions := [a];
      assert actions == [a] + [];
    } else {
      var rest := FinishJob(t, w);
      One(s, a, rest);
      actions := [a] + rest;
    }
  }

  /** What a worker does next with its delivery when no handler panics any more. */
  function NextStep(s: State, w: nat): (a: Action)
    requires Inv(s) && Busy(s, w)
    ensures Enabled(s, a) && (a.Lookup? || a == Call(w, false) || a.Recover? || a.Finish?) && a.w == w
  {
    var d := Job(s, w);
    assert Open(d) && Faithful(d, s.subscribed);
    if d.phase.Received? then Lookup(w)
    else if d.phase.Unwinding? then Recover(w)
    else if d.phase.Calling? && d.phase.next < |d.phase.handlers| then Call(w, false)
    else Finish(w)
  }

  lemma OwnStep(s: State, a: Action, w: nat)
    requires Busy(s, w) && Enabled(s, a) && (a.Lookup? || a == Call(w, false) || a.Recover? || a.Finish?) && a.w == w
    ensures var t := Step(s, a);
            && t.cancelled == s.cancelled
            && (if a.Finish? then t.workers == s.workers[w := s.workers[w].(job := None)]
                else t.workers == s.workers && Busy(t, w)
                     && (Stage(Job(t, w)) < Stage(Job(s, w))
                         || (Stage(Job(t, w)) == Stage(Job(s, w))
                             && (HandlersLeft(Job(t, w)) < HandlersLeft(Job(s, w))
                                 || (HandlersLeft(Job(t, w)) == HandlersLeft(Job(s, w))
                                     && Job(s, w).phase.Unwinding? && !Job(t, w).phase.Unwinding?)))))
  {
    hide Handlers;
  }

  /** A worker that is told finishes its delivery, if it has one, and returns. */
  lemma LeaveOne(s: State, w: nat) returns (actions: seq<Action>)
    requires Inv(s) && w < |s.workers| && !s.workers[w].exited && Told(s, w)
    ensures WorkersOnly(actions) && IsRun(s, actions) && Inv(After(s, actions))
    ensures After(s, actions).cancelled == s.cancelled
    ensures After(s, actions).workers == s.workers[w := s.workers[w].(job := None, exited := true)]
  {
    var first := [];
    if s.workers[w].job.Some? {
      first := FinishJob(s, w);
    }
    hide Inv, IsRun, After;
    assert first == [] ==> IsRun(s, first) && After(s, first) == s by {
      NoSteps(s);
    }
    var t := After(s, first);
    StepKeepsInv(t, Exit(w));
    NoSteps(Step(t, Exit(w)));
    One(t, Exit(w), []);
    RunAppend(s, first, [Exit(w)] + []);
    actions := first + ([Exit(w)] + []);
  }

  lemma NoSteps(s: State)
    ensures IsRun(s, []) && After(s, []) == s
  {
  }

  /** Once all workers are told, they can all return by their own steps alone. */
  lemma {:induction false} AllReturn(s: State) returns (actions: seq<Action>)
    requires Inv(s) && AllTold(s)
    ensures WorkersOnly(actions) && IsRun(s, actions) && AllExited(After(s, actions))
    decreases Count(s.workers, Alive)
  {
    if AllExited(s) {
      NoSteps(s);
      actions := [];
    } else {
      var w :| 0 <= w < |s.workers| && !s.workers[w].exited;
      hide Inv, IsRun, After, Count;
      var first := LeaveOne(s, w);
      var t := After(s, first);
      CountUpdate(s.workers, w, t.workers[w], Alive);
      var rest := AllReturn(t);
      RunAppend(s, first, rest);
      actions := first + rest;
    }
  }

  /** A worker that is not told stays, whatever the workers do. */
  lemma {:induction false} UntoldStays(s: State, actions: seq<Action>, w: nat)
    requires IsRun(s, actions) && WorkersOnly(actions)
    requires w < |s.workers| && !s.workers[w].exited && !Told(s, w)
    ensures w < |After(s, actions).workers| && !After(s, actions).workers[w].exited
    decreases |actions|
  {
    if actions != [] {
      var a := actions[0];
      assert a in actions && forall b | b in actions[1..] :: b in actions;
      UntoldStep(s, a, w);
      hide Step, Enabled, Told;
      UntoldStays(Step(s, a), actions[1..], w);
    }
  }

  lemma UntoldStep(s: State, a: Action, w: nat)
    requires Enabled(s, a) && IsWorkerStep(a) && w < |s.workers| && !s.workers[w].exited && !Told(s, w)
    ensures var t := Step(s, a);
            w < |t.workers| && !t.workers[w].exited && !Told(t, w)
  {
    hide Handlers;
  }

  /** In any reachable state the workers can get by themselves to where Stop returns exactly if every
      worker that has not returned is told to. */
  lemma StopReturnsExactly(buffer: int, workers: int, actions: seq<Action>)
    requires IsRun(NewBus(buffer, workers), actions)
    ensures var s := After(NewBus(buffer, workers), actions);
            AllTold(s) <==> exists more :: WorkersOnly(more) && IsRun(s, more) && Enabled(After(s, more), StopReturn)
  {
    var s := After(NewBus(buffer, workers), actions);
    RunKeepsInv(NewBus(buffer, workers), actions);
    hide Inv, After;
    if AllTold(s) {
      var more := AllReturn(s);
      assert Enabled(After(s, more), StopReturn);
    } else {
      var w :| 0 <= w < |s.workers| && !s.workers[w].exited && !Told(s, w);
      forall more | WorkersOnly(more) && IsRun(s, more)
        ensures !Enabled(After(s, more), StopReturn)
      {
        UntoldStays(s, more, w);
      }
    }
  }

  /** Contexts are referred to only after Run has made them. */
  predicate ContextsMade(s: State) {
    && (forall w | 0 <= w < |s.workers| :: s.workers[w].ctx < |s.cancelled|)
    && (s.cancel.Some? ==> s.cancel.value < |s.cancelled|)
  }

  lemma StepKeepsContexts(s: State, a: Action)
    requires ContextsMade(s) && Enabled(s, a)
    ensures ContextsMade(Step(s, a))
  {
    hide Handlers, Spawn;
    if a.Run? {
      SpawnAdds(s.workers, |s.cancelled|, s.size);
      var t := Step(s, a);
      assert forall w | 0 <= w < |s.workers| :: t.workers[w] == t.workers[..|s.workers|][w] == s.workers[w];
    }
  }

  lemma {:induction false} RunKeepsContexts(s: State, actions: seq<Action>)
    requires ContextsMade(s) && IsRun(s, actions)
    ensures ContextsMade(After(s, actions))
    decreases |actions|
  {
    if actions != [] {
      StepKeepsContexts(s, actions[0]);
      hide Step, Enabled, ContextsMade;
      RunKeepsContexts(Step(s, actions[0]), actions[1..]);
    }
  }

  /** Stop tells the workers of the last Run alone. So in any reachable state a call of Stop can return,
      without a further cancellation, exactly if every worker that has not returned is of the last Run
      or was told already, by its parent context or an earlier Stop. */
  lemma StopTellsLastRun(buffer: int, workers: int, actions: seq<Action>)
    requires IsRun(NewBus(buffer, workers), actions)
    ensures var s := After(NewBus(buffer, workers), actions);
            var t := Step(s, StopBegin);
            (exists more :: WorkersOnly(more) && IsRun(t, more) && Enabled(After(t, more), StopReturn))
            <==> forall w | 0 <= w < |s.workers| :: s.workers[w].exited || Told(s, w) || s.cancel == Some(s.workers[w].ctx)
  {
    var s := After(NewBus(buffer, workers), actions);
    var t := Step(s, StopBegin);
    RunKeepsContexts(NewBus(buffer, workers), actions);
    assert forall w | 0 <= w < |s.workers| :: Told(t, w) <==> Told(s, w) || s.cancel == Some(s.workers[w].ctx);
    assert t.workers == s.workers;
    One(s, StopBegin, []);
    RunAppend(NewBus(buffer, workers), actions, [StopBegin] + []);
    hide Step, Enabled, After, IsRun;
    StopReturnsExactly(buffer, workers, actions + ([StopBegin] + []));
  }

  /** What a Run does to a bus whose workers are all alive. */
  lemma RunStarts(s: State)
    requires s.size >= 1
    ensures var t := Step(s, Run);
            && |t.workers| == |s.workers| + s.size && t.cancelled == s.cancelled + [false]
            && t.cancel == Some(|s.cancelled|) && t.size == s.size
            && (forall w | 0 <= w < |s.workers| :: t.workers[w] == s.workers[w])
            && (forall w | |s.workers| <= w < |t.workers| :: t.workers[w] == Worker(|s.cancelled|, None, false))
  {
    SpawnAdds(s.workers, |s.cancelled|, s.size);
    hide Count, Spawn;
    var t := Step(s, Run);
    assert forall w | 0 <= w < |s.workers| :: t.workers[w] == t.workers[..|s.workers|][w];
  }

  /** It matters: a bus that was run twice cannot be stopped, one that was run once can. */
  lemma SecondRunBlocksStop(buffer: int, workers: int)
    ensures IsRun(NewBus(buffer, workers), [Run, StopBegin]) && IsRun(NewBus(buffer, workers), [Run, Run, StopBegin])
    ensures AllTold(After(NewBus(buffer, workers), [Run, StopBegin]))
    ensures !AllTold(After(NewBus(buffer, workers), [Run, Run, StopBegin]))
  {
    var s := NewBus(buffer, workers);
    var t := Step(s, Run);
    var u := Step(t, Run);
    RunStarts(s);
    RunStarts(t);
    ThreeSteps(s, Run, StopBegin);
    hide Spawn, IsRun, After;
    var once, twice := Step(t, StopBegin), Step(u, StopBegin);
    assert forall w | 0 <= w < |once.workers| :: Told(once, w);
    assert !twice.workers[0].exited && !Told(twice, 0);
  }

  lemma ThreeSteps(s: State, a: Action, b: Action)
    requires Enabled(s, a) && Enabled(Step(s, a), a) && Enabled(Step(s, a), b) && Enabled(Step(Step(s, a), a), b)
    ensures IsRun(s, [a, b]) && After(s, [a, b]) == Step(Step(s, a), b)
    ensures IsRun(s, [a, a, b]) && After(s, [a, a, b]) == Step(Step(Step(s, a), a), b)
  {
    hide Step, Enabled, IsRun, After;
    var t := Step(s, a);
    var u := Step(t, a);
    NoSteps(Step(t, b));
    NoSteps(Step(u, b));
    One(t, b, []);
    One(u, b, []);
    assert [b] + [] == [b] && [a] + [b] == [a, b] && [a] + [a, b] == [a, a, b];
    One(s, a, [b]);
    One(t, a, [b]);
    One(s, a, [a, b]);
  }

  /** With every worker gone no step of a worker is possible, and none comes back but by Run. */
  lemma NobodyWorks(s: State, a: Action)
    requires WorkInv(s) && AllExited(s) && Enabled(s, a) && !a.Run?
    ensures !a.Call? && !a.Lookup? && !a.Take? && AllExited(Step(s, a))
  {
    hide Handlers;
  }

  /** After Stop returns no handler runs, and none is looked up, until the bus is run again. */
  lemma {:induction false} NoCallAfterStop(s: State, actions: seq<Action>)
    requires Inv(s) && Enabled(s, StopReturn) && IsRun(s, actions) && Run !in actions
    ensures forall a | a in actions :: !a.Call? && !a.Lookup? && !a.Take?
    ensures Enabled(After(s, actions), StopReturn)
    decreases |actions|
  {
    if actions != [] {
      var a := actions[0];
      assert !a.Run? by {
        assert a in actions;
      }
      NobodyWorks(s, a);
      StepKeepsInv(s, a);
      hide Step, Inv, Enabled;
      NoCallAfterStop(Step(s, a), actions[1..]);
      assert forall b | b in actions :: b == a || b in actions[1..];
    }
  }

  /** The same from a new bus: split any run at a return of Stop. */
  lemma SilentAfterStop(buffer: int, workers: int, before: seq<Action>, after: seq<Action>)
    requires IsRun(NewBus(buffer, workers), before)
    requires Enabled(After(NewBus(buffer, workers), before), StopReturn)
    requires IsRun(After(NewBus(buffer, workers), before), after) && Run !in after
    ensures forall a | a in after :: !a.Call?
  {
    RunKeepsInv(NewBus(buffer, workers), before);
    NoCallAfterStop(After(NewBus(buffer, workers), before), after);
  }
}
