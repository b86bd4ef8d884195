/** The inductive invariant of the command queue. */
module CommandQueueProof {
  import opened CommandQueue

  ghost predicate Distinct(q: seq<Req>) {
    forall i, j :: 0 <= i < j < |q| ==> q[i] != q[j]
  }

  ghost predicate Order(s: State) {
    && InOrder(s)
    && Distinct(s.flow.enqueued)
    && (forall r :: r in s.flow.prepared ==> r !in s.flow.enqueued)
    && (forall r :: r in s.refs.eventRef ==> r in s.flow.enqueued || r in s.flow.prepared)
    && (s.worker.Signalling? || s.worker.Dropping? ==> s.worker.req in s.flow.done && s.worker.req in s.refs.eventRef)
    && SignalledExactly(s)
  }

  ghost predicate Counts(s: State) {
    && CountsMatch(s) && |s.flow.prepared| <= s.refs.users
    && forall r :: r in s.refs.eventRef && r !in s.refs.events ==> s.refs.eventRef[r] == 0
  }

  ghost predicate Life(s: State) {
    && (match s.closing
        case Open => !s.exit && !s.freed && s.refs.queueRef > 0
        case Joining(e) =>
          && s.exit && !s.freed && s.refs.queueRef == 1 && s.flow.prepared == {}
          && (e.None? ==> s.refs.users == 1 && s.refs.events == {})
          && (e.Some? ==> s.refs.users == 0 && s.refs.events == {e.value} && !Carried(s, e.value))
        case Closed =>
          s.freed && s.refs.queueRef == 0 && s.refs.events == {} && s.flow.prepared == {} && !TouchesQueue(s))
    && (s.syncExit ==> s.freed && s.exit)
    && (s.worker == Gone ==> s.exit && (s.syncExit || s.flow.queue == []))
  }

  ghost predicate Inv(s: State) {
    Order(s) && Counts(s) && Life(s)
  }

  lemma InvMeans(s: State)
    requires Inv(s)
    ensures InOrder(s) && CountsMatch(s) && SignalledExactly(s) && CompletionCovers(s) && FreedSafely(s) &&
      FreedAtZero(s)
  {
    forall i, j | 0 <= i <= j < |s.flow.enqueued| && s.flow.enqueued[j] in s.refs.eventRef &&
      s.flow.enqueued[j] !in s.flow.pending
      ensures i < |s.flow.done| && s.flow.done[i] == s.flow.enqueued[i]
    {
      var k :| 0 <= k < |s.flow.done| && s.flow.done[k] == s.flow.enqueued[j];
      assert s.flow.enqueued[k] == s.flow.done[k];
    }
  }

  // ----- order -----

  lemma OrderKept(s: State, a: Action)
    requires Inv(s) && Enabled(s, a)
    ensures Order(Next(s, a))
  {
    match a
    case Prepare(r, event) => OrderPrepare(s, r, event);
    case Push(r) => OrderPush(s, r);
    case Work => OrderWork(s);
    case _ => OrderSame(s, Next(s, a));
  }

  lemma OrderSame(s: State, t: State)
    requires Order(s) && t.flow == s.flow && t.worker == s.worker && t.refs.eventRef.Keys == s.refs.eventRef.Keys
    ensures Order(t)
  {
    assert forall r :: r in t.refs.eventRef <==> r in s.refs.eventRef.Keys;
  }

  lemma OrderPrepare(s: State, r: Req, event: bool)
    requires Order(s) && r !in s.flow.enqueued && r !in s.flow.prepared
    ensures Order(Prepares(s, r, event))
  {
  }

  lemma OrderPush(s: State, r: Req)
    requires Order(s) && r in s.flow.prepared
    ensures Order(Next(s, Push(r)))
  {
  }

  lemma OrderWork(s: State)
    requires Order(s) && Enabled(s, Work)
    ensures Order(Works(s))
  {
    match s.worker
    case Waiting => OrderTake(s);
    case Running(r) => OrderRun(s, r);
    case Signalling(r) =>
    case Dropping(r) => OrderDrop(s, r);
    case Finishing(r) =>
  }

  lemma OrderTake(s: State)
    requires Order(s) && s.worker.Waiting?
    ensures Order(Works(s))
  {
    if s.flow.queue != [] {
      assert s.flow.queue == [s.flow.queue[0]] + s.flow.queue[1..];
    }
  }

  lemma OrderRun(s: State, r: Req)
    requires Order(s) && s.worker == Running(r)
    ensures Order(Works(s))
  {
    if r in s.flow.done {
      DoneOnly(s, r);
    }
  }

  lemma OrderDrop(s: State, r: Req)
    requires Order(s) && s.worker == Dropping(r) && r in s.refs.eventRef
    ensures Order(WorkerDrops(s, r))
  {
    var t := WorkerDrops(s, r);
    assert t.refs.eventRef.Keys == s.refs.eventRef.Keys;
    assert forall q :: q in t.refs.eventRef <==> q in s.refs.eventRef.Keys;
  }

  // ----- counts -----

  /** An executed request is in no other place. */
  lemma DoneOnly(s: State, r: Req)
    requires Order(s) && r in s.flow.done
    ensures r !in s.flow.prepared && r !in s.flow.queue && !(s.worker.Running? && s.worker.req == r)
  {
    var f := s.flow;
    var hand := InHand(s.worker);
    var k :| 0 <= k < |f.done| && f.done[k] == r;
    assert f.enqueued[k] == r;
    assert s.worker.Running? ==> f.enqueued[|f.done|] == s.worker.req;
    assert forall i :: 0 <= i < |f.queue| ==> f.queue[i] == f.enqueued[|f.done| + |hand| + i];
  }

  lemma CountsKept(s: State, a: Action)
    requires Inv(s) && Enabled(s, a)
    ensures Counts(Next(s, a))
  {
    match a
    case Prepare(r, event) => CountsPrepare(s, r, event);
    case Push(r) => CountsPush(s, r);
    case RetainQueue =>
    case ReleaseQueue =>
    case RetainEvent(r) => CountsRetain(s, r);
    case ReleaseEvent(r) => CountsRelease(s, r);
    case Joined => CountsJoined(s);
    case Work => CountsWork(s);
  }

  lemma CountsPrepare(s: State, r: Req, event: bool)
    requires Counts(s) && Spare(s) && r !in s.refs.eventRef
    ensures Counts(Prepares(s, r, event))
  {
    var t := Prepares(s, r, event);
    forall q | q != r ensures Carried(t, q) <==> Carried(s, q) {}
  }

  lemma CountsPush(s: State, r: Req)
    requires Counts(s) && r in s.flow.prepared
    ensures Counts(Next(s, Push(r)))
  {
    var t := Next(s, Push(r));
    forall q ensures Carried(t, q) <==> Carried(s, q) {}
  }

  lemma CountsRetain(s: State, r: Req)
    requires Counts(s) && Held(s, r)
    ensures Counts(s.(refs := s.refs.(userEvents := s.refs.userEvents[r := s.refs.userEvents[r] + 1],
                                      eventRef := s.refs.eventRef[r := s.refs.eventRef[r] + 1])))
  {
    var t := s.(refs := s.refs.(userEvents := s.refs.userEvents[r := s.refs.userEvents[r] + 1],
                                eventRef := s.refs.eventRef[r := s.refs.eventRef[r] + 1]));
    forall q ensures Carried(t, q) <==> Carried(s, q) {}
  }

  /** Freeing an event that nobody holds any more. */
  lemma CountsFree(s: State, t: State, r: Req)
    requires Counts(s) && r in s.refs.events && t.refs == FreeEvent(s.refs, r) && t.flow.prepared == s.flow.prepared
    requires forall q :: q != r ==> (Carried(t, q) <==> Carried(s, q))
    requires !Carried(t, r)
    ensures Counts(t)
  {
  }

  lemma CountsRelease(s: State, r: Req)
    requires Counts(s) && Held(s, r)
    ensures Counts(ReleasesEvent(s, r))
  {
    var t := ReleasesEvent(s, r);
    forall q ensures Carried(t, q) <==> Carried(s, q) {}
    if s.refs.eventRef[r] == 1 && s.refs.queueRef > 1 {
      CountsFree(s, t, r);
    }
  }

  lemma CountsJoined(s: State)
    requires Inv(s) && s.closing.Joining?
    ensures Counts(Joins(s))
  {
    var t := Joins(s);
    forall q ensures Carried(t, q) <==> Carried(s, q) {}
    if s.closing.event.Some? {
      CountsFree(s, t, s.closing.event.value);
    }
  }

  lemma CountsWork(s: State)
    requires Inv(s) && Enabled(s, Work)
    ensures Counts(Works(s))
  {
    if s.worker.Dropping? {
      CountsDrop(s, s.worker.req);
    } else {
      var t := Works(s);
      forall q ensures Carried(t, q) <==> Carried(s, q) { CarriedOn(s, q); }
    }
  }

  lemma CarriedOn(s: State, q: Req)
    requires Order(s) && Enabled(s, Work) && !s.worker.Dropping?
    ensures Carried(Works(s), q) <==> Carried(s, q)
  {
    if s.worker.Waiting? && s.flow.queue != [] {
      assert s.flow.queue == [s.flow.queue[0]] + s.flow.queue[1..];
    }
  }

  lemma CountsDrop(s: State, r: Req)
    requires Order(s) && Counts(s) && s.worker == Dropping(r) && r in s.refs.eventRef
    ensures Counts(WorkerDrops(s, r))
  {
    var t := WorkerDrops(s, r);
    CarriedDrop(s, r);
    if s.refs.eventRef[r] == 1 {
      CountsFree(s, t, r);
    } else {
      CountsLess(s, t, r);
    }
  }

  /** After the worker's release the request carries its event no more, and the others are as
      they were. */
  lemma CarriedDrop(s: State, r: Req)
    requires Order(s) && s.worker == Dropping(r) && r in s.refs.eventRef
    ensures Carried(s, r) && !Carried(WorkerDrops(s, r), r)
    ensures forall q :: q != r ==> (Carried(WorkerDrops(s, r), q) <==> Carried(s, q))
  {
    DoneOnly(s, r);
  }

  lemma CountsLess(s: State, t: State, r: Req)
    requires Counts(s) && Carried(s, r) && !Carried(t, r) && s.refs.eventRef[r] > 1
    requires t.refs == s.refs.(eventRef := s.refs.eventRef[r := s.refs.eventRef[r] - 1]) && t.flow == s.flow
    requires forall q :: q != r ==> (Carried(t, q) <==> Carried(s, q))
    ensures Counts(t)
  {
  }

  // ----- life -----

  lemma OnlyMember(e: set<Req>, r: Req)
    requires r in e && |e| == 1
    ensures e == {r}
  {
    assert |e - {r}| == 0;
  }

  lemma LifeKept(s: State, a: Action)
    requires Inv(s) && Enabled(s, a)
    ensures Life(Next(s, a))
  {
    match a
    case ReleaseQueue => LifeRelease(s);
    case ReleaseEvent(r) => LifeReleaseEvent(s, r);
    case Work => LifeWork(s);
    case Joined => LifeJoined(s);
    case _ =>
  }

  lemma LifeRelease(s: State)
    requires Inv(s) && Enabled(s, ReleaseQueue)
    ensures Life(Next(s, ReleaseQueue))
  {
    assert s.refs.queueRef == 1 ==> |s.refs.events| == 0 && |s.flow.prepared| == 0;
  }

  lemma LifeReleaseEvent(s: State, r: Req)
    requires Inv(s) && s.closing == Open && Held(s, r)
    ensures Life(ReleasesEvent(s, r))
  {
    var t := ReleasesEvent(s, r);
    assert |s.refs.events| > 0;
    if s.refs.eventRef[r] == 1 && s.refs.queueRef == 1 {
      OnlyMember(s.refs.events, r);
      assert s.refs.users == 0 && |s.flow.prepared| == 0;
      assert !Carried(s, r) && !Carried(t, r);
    }
  }

  lemma LifeJoined(s: State)
    requires Inv(s) && s.closing.Joining? && s.worker == Gone
    ensures Life(Joins(s))
  {
  }

  lemma LifeWork(s: State)
    requires Inv(s) && Enabled(s, Work)
    ensures Life(Works(s))
  {
    if s.worker.Dropping? {
      LifeDrop(s, s.worker.req);
    } else if s.closing.Joining? && s.closing.event.Some? {
      CarriedOn(s, s.closing.event.value);
    }
  }

  lemma LifeDrop(s: State, r: Req)
    requires Inv(s) && s.worker == Dropping(r) && r in s.refs.eventRef
    ensures Life(WorkerDrops(s, r))
  {
    assert Carried(s, r);
    assert s.closing == Open && |s.refs.events| > 0;
    if s.refs.queueRef == 1 {
      OnlyMember(s.refs.events, r);
      assert s.refs.users == 0 && |s.flow.prepared| == 0;
    }
  }

  // ----- every run -----

  lemma StepInv(s: State, a: Action)
    requires Inv(s) && Enabled(s, a)
    ensures Inv(Next(s, a))
  {
    OrderKept(s, a);
    CountsKept(s, a);
    LifeKept(s, a);
  }

  lemma {:induction false} RunInv(states: seq<State>, actions: seq<Action>, k: nat)
    requires IsRun(states, actions) && k <= |actions|
    ensures Inv(states[k])
    decreases k
  {
    if k > 0 {
      RunInv(states, actions, k - 1);
      StepInv(states[k - 1], actions[k - 1]);
    }
  }

  /** In every run: first in first out, events signalled exactly when executed, completion
      covers all earlier requests, counts equal holders, objects freed exactly at zero, and a
      freed queue is touched by nobody and has no event or call left that refers to it. */
  lemma EveryRun(states: seq<State>, actions: seq<Action>, k: nat)
    requires IsRun(states, actions) && k <= |actions|
    ensures var s := states[k];
      && InOrder(s) && SignalledExactly(s) && CompletionCovers(s)
      && CountsMatch(s) && FreedAtZero(s) && FreedSafely(s)
  {
    RunInv(states, actions, k);
    InvMeans(states[k]);
  }

  /** A queue that is freed after joining the worker was drained first. */
  lemma JoinedQueueDrained(states: seq<State>, actions: seq<Action>, k: nat)
    requires IsRun(states, actions) && k < |actions| && actions[k] == Joined
    ensures states[k + 1].flow.queue == [] && states[k + 1].flow.done == states[k + 1].flow.enqueued
  {
    RunInv(states, actions, k);
  }
}
