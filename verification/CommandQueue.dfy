/** A user-space command queue shared by any number of threads and one worker: order of
    execution, completion events, and the reference counts that decide when the queue is
    freed. Each retain or release is one step. */
module CommandQueue {
  import opened Options

  type Req = nat

  /** The worker between and inside two rounds of its loop. */
  datatype Worker = Waiting | Running(req: Req) | Signalling(req: Req) | Dropping(req: Req) | Finishing(req: Req) | Gone

  /** The thread, if any, that dropped the last reference and joins the worker; it may still
      have an event to free. */
  datatype Closing = Open | Joining(event: Option<Req>) | Closed

  /** The way of the requests: being prepared by a caller, queued, executed. `pending` are
      those whose event is not signalled yet. */
  datatype Flow = Flow(prepared: set<Req>, queue: seq<Req>, enqueued: seq<Req>, done: seq<Req>, pending: set<Req>)

  /** Live events and all reference counts. The event of request `r` is called `r`.
      `userEvents` counts the references that applications hold on events, `users` those on
      the queue. */
  datatype Refs = Refs(events: set<Req>, eventRef: map<Req, nat>, userEvents: map<Req, nat>, queueRef: nat, users: nat)

  datatype State = State(flow: Flow, refs: Refs, worker: Worker, exit: bool, syncExit: bool, closing: Closing,
    freed: bool)

  datatype Action =
    | Prepare(req: Req, event: bool) | Push(req: Req)
    | RetainQueue | ReleaseQueue | RetainEvent(req: Req) | ReleaseEvent(req: Req) | Joined
    | Work

  ghost predicate Init(s: State) {
    s == State(Flow({}, [], [], [], {}), Refs({}, map[], map[], 1, 1), Waiting, false, false, Open, false)
  }

  /** Calls in progress are made by holders of a queue reference. */
  predicate Spare(s: State) {
    s.refs.users > |s.flow.prepared|
  }

  /** An application holds a reference to the event of `r`. */
  predicate Held(s: State, r: Req) {
    r in s.refs.events && r in s.refs.eventRef && r in s.refs.userEvents && s.refs.userEvents[r] > 0
  }

  ghost predicate Enabled(s: State, a: Action) {
    match a
    case Prepare(r, _) => s.closing == Open && Spare(s) && r !in s.flow.enqueued && r !in s.flow.prepared &&
      r !in s.refs.eventRef
    case Push(r) => r in s.flow.prepared
    case RetainQueue => s.closing == Open && s.refs.users > 0
    case ReleaseQueue => s.closing == Open && Spare(s)
    case RetainEvent(r) => s.closing == Open && Held(s, r)
    case ReleaseEvent(r) => s.closing == Open && Held(s, r)
    case Joined => s.closing.Joining? && s.worker == Gone
    case Work =>
      match s.worker {
        case Waiting => s.flow.queue != [] || s.exit
        case Running(_) => true
        case Signalling(_) => true
        case Dropping(r) => r in s.refs.eventRef
        case Finishing(_) => true
        case Gone => false
      }
  }

  /** The event's last reference is gone, and with it one reference to the queue. */
  function FreeEvent(c: Refs, r: Req): Refs {
    c.(events := c.events - {r}, eventRef := c.eventRef[r := 0], userEvents := c.userEvents[r := 0],
       queueRef := if c.queueRef > 0 then c.queueRef - 1 else 0)
  }

  function WorkerDrops(s: State, r: Req): State
    requires r in s.refs.eventRef
  {
    var c := s.refs;
    if c.eventRef[r] > 1 then
      s.(refs := c.(eventRef := c.eventRef[r := c.eventRef[r] - 1]), worker := Finishing(r))
    else if c.queueRef > 1 then
      s.(refs := FreeEvent(c, r), worker := Finishing(r))
    else
      // The worker cannot join itself: it is told to exit and detached.
      s.(refs := FreeEvent(c, r), worker := Finishing(r), exit := true, syncExit := true, freed := true,
         closing := Closed)
  }

  /** A caller with a reference makes a request, and an event when asked to: the event starts
      with the caller's reference, the request takes another, and the event takes one on the
      queue. */
  function Prepares(s: State, r: Req, event: bool): State {
    var f, c := s.flow, s.refs;
    if event then
      s.(flow := f.(prepared := f.prepared + {r}, pending := f.pending + {r}),
         refs := c.(events := c.events + {r}, eventRef := c.eventRef[r := 2], userEvents := c.userEvents[r := 1],
                    queueRef := c.queueRef + 1))
    else s.(flow := f.(prepared := f.prepared + {r}))
  }

  function ReleasesEvent(s: State, r: Req): State
    requires r in s.refs.eventRef && r in s.refs.userEvents && s.refs.userEvents[r] > 0
  {
    var c := s.refs;
    if c.eventRef[r] > 1 then
      s.(refs := c.(userEvents := c.userEvents[r := c.userEvents[r] - 1],
                    eventRef := c.eventRef[r := c.eventRef[r] - 1]))
    else if c.queueRef > 1 then s.(refs := FreeEvent(c, r))
    else s.(exit := true, closing := Joining(Some(r)))
  }

  function Works(s: State): State
    requires s.worker.Dropping? ==> s.worker.req in s.refs.eventRef
  {
    var f := s.flow;
    match s.worker
    case Waiting =>
      if f.queue != [] then s.(worker := Running(f.queue[0]), flow := f.(queue := f.queue[1..])) else s.(worker := Gone)
    case Running(r) =>
      s.(flow := f.(done := f.done + [r]), worker := if r in s.refs.eventRef then Signalling(r) else Finishing(r))
    case Signalling(r) => s.(flow := f.(pending := f.pending - {r}), worker := Dropping(r))
    case Dropping(r) => WorkerDrops(s, r)
    case Finishing(r) => s.(worker := if s.syncExit then Gone else Waiting)
    case Gone => s
  }

  function Joins(s: State): State
    requires s.closing.Joining?
  {
    match s.closing.event
    case None => s.(closing := Closed, freed := true, refs := s.refs.(users := 0, queueRef := 0))
    case Some(r) => s.(closing := Closed, freed := true, refs := FreeEvent(s.refs, r))
  }

  ghost function Next(s: State, a: Action): State
    requires Enabled(s, a)
  {
    var f, c := s.flow, s.refs;
    match a
    case Prepare(r, event) => Prepares(s, r, event)
    case Push(r) => s.(flow := f.(prepared := f.prepared - {r}, queue := f.queue + [r], enqueued := f.enqueued + [r]))
    case RetainQueue => s.(refs := c.(users := c.users + 1, queueRef := c.queueRef + 1))
    case ReleaseQueue =>
      if c.queueRef > 1 then s.(refs := c.(users := c.users - 1, queueRef := c.queueRef - 1))
      else s.(exit := true, closing := Joining(None))
    case RetainEvent(r) =>
      s.(refs := c.(userEvents := c.userEvents[r := c.userEvents[r] + 1],
                    eventRef := c.eventRef[r := c.eventRef[r] + 1]))
    case ReleaseEvent(r) => ReleasesEvent(s, r)
    case Joined => Joins(s)
    case Work => Works(s)
  }

  ghost predicate IsRun(states: seq<State>, actions: seq<Action>) {
    && |states| == |actions| + 1
    && Init(states[0])
    && forall i {:trigger actions[i]} :: 0 <= i < |actions| ==>
      Enabled(states[i], actions[i]) && states[i + 1] == Next(states[i], actions[i])
  }

  // ----- what is promised -----

  function InHand(w: Worker): seq<Req> {
    if w.Running? then [w.req] else []
  }

  /** Executed, executing and queued requests, in this order, are the enqueue order. */
  ghost predicate InOrder(s: State) {
    s.flow.enqueued == s.flow.done + InHand(s.worker) + s.flow.queue
  }

  /** An event is signalled exactly when its request has been executed and the worker is past
      the signal. */
  ghost predicate SignalledExactly(s: State) {
    forall r :: r in s.refs.eventRef ==>
      (r !in s.flow.pending <==> r in s.flow.done && !(s.worker.Signalling? && s.worker.req == r))
  }

  /** The completion of a request means the completion of all before it. */
  ghost predicate CompletionCovers(s: State) {
    var f := s.flow;
    forall i, j ::
      0 <= i <= j < |f.enqueued| && f.enqueued[j] in s.refs.eventRef && f.enqueued[j] !in f.pending ==>
      i < |f.done| && f.done[i] == f.enqueued[i]
  }

  /** Request `r` still has to release the reference it took on its event. */
  ghost predicate Carried(s: State, r: Req) {
    && r in s.refs.eventRef
    && ( || r in s.flow.prepared || r in s.flow.queue
         || (s.worker.Running? && s.worker.req == r)
         || (s.worker.Signalling? && s.worker.req == r)
         || (s.worker.Dropping? && s.worker.req == r))
  }

  /** Counts equal holders. */
  ghost predicate CountsMatch(s: State) {
    && s.refs.queueRef == s.refs.users + |s.refs.events|
    && (forall r :: r in s.refs.events ==> r in s.refs.eventRef && r in s.refs.userEvents)
    && (forall r :: r in s.refs.events ==>
          s.refs.eventRef[r] == s.refs.userEvents[r] + (if Carried(s, r) then 1 else 0) > 0)
    && (forall r :: Carried(s, r) ==> r in s.refs.events)
  }

  /** Queue and events are freed exactly when their counts reach zero. */
  ghost predicate FreedAtZero(s: State) {
    && (s.freed <==> s.refs.queueRef == 0)
    && forall r :: r in s.refs.eventRef ==> (r in s.refs.events <==> s.refs.eventRef[r] > 0)
  }

  /** The worker reads or writes the queue object in this state. */
  predicate TouchesQueue(s: State) {
    s.worker.Waiting? || s.worker.Running? || s.worker.Dropping? || s.worker.Signalling? ||
      (s.worker.Finishing? && !s.syncExit)
  }

  ghost predicate FreedSafely(s: State) {
    s.freed ==>
      && !TouchesQueue(s) && s.refs.queueRef == 0 && s.refs.events == {} && s.flow.prepared == {}
      && forall r :: !Carried(s, r)
  }
}
