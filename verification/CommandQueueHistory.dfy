/** The references that applications hold, the events and the order of the queue, told by the calls
    that were made. */
module CommandQueueHistory {
  import opened CommandQueue
  import opened CommandQueueProof
  import opened Histories

  /** How often call `a` was made before step `j`. */
  ghost function Count(actions: seq<Action>, a: Action, j: nat): nat
    requires j <= |actions|
  {
    if j == 0 then 0 else Count(actions, a, j - 1) + if actions[j - 1] == a then 1 else 0
  }

  lemma OpenStep(s: State, a: Action)
    requires Inv(s) && Enabled(s, a) && Next(s, a).closing == Open
    ensures s.closing == Open
    ensures Next(s, a).refs.users ==
      s.refs.users + (if a == RetainQueue then 1 else 0) - (if a == ReleaseQueue then 1 else 0)
  {
  }

  /** While the queue is open, the applications hold one reference to it, and one more for every
      retain, and one less for every release. */
  lemma {:induction false} UsersCounted(states: seq<State>, actions: seq<Action>, j: nat)
    requires IsRun(states, actions) && j <= |actions| && states[j].closing == Open
    ensures states[j].refs.users == 1 + Count(actions, RetainQueue, j) - Count(actions, ReleaseQueue, j)
    decreases j
  {
    if j > 0 {
      var i := j - 1;
      RunInv(states, actions, i);
      assert states[i + 1] == Next(states[i], actions[i]);
      OpenStep(states[i], actions[i]);
      UsersCounted(states, actions, i);
    }
  }

  // ----- events -----

  lemma EventStep(s: State, a: Action, r: Req)
    requires Inv(s) && Enabled(s, a)
    ensures r in Next(s, a).refs.eventRef <==> a == Prepare(r, true) || r in s.refs.eventRef
  {
    if a.Work? && s.worker.Dropping? {
      assert s.worker.req in s.refs.eventRef;
    }
  }

  ghost function EventAt(states: seq<State>, r: Req): (v: seq<bool>)
    ensures |v| == |states| && forall k :: 0 <= k < |states| ==> v[k] == (r in states[k].refs.eventRef)
  {
    seq(|states|, k requires 0 <= k < |states| => r in states[k].refs.eventRef)
  }

  ghost function AskedAt(actions: seq<Action>, r: Req): (v: seq<bool>)
    ensures |v| == |actions| && forall k :: 0 <= k < |actions| ==> v[k] == (actions[k] == Prepare(r, true))
  {
    seq(|actions|, k requires 0 <= k < |actions| => actions[k] == Prepare(r, true))
  }

  /** A request has an event exactly when it was enqueued with one. */
  lemma EventIffAsked(states: seq<State>, actions: seq<Action>, j: nat, r: Req)
    requires IsRun(states, actions) && j <= |actions|
    ensures r in states[j].refs.eventRef <==> exists k: nat :: k < j && actions[k] == Prepare(r, true)
  {
    var was, on := EventAt(states, r), AskedAt(actions, r);
    forall i | 0 <= i < |actions| ensures was[i + 1] == (on[i] || was[i]) {
      RunInv(states, actions, i);
      EventStep(states[i], actions[i], r);
    }
    Ever(was, on, j);
    if k: nat :| k < j && actions[k] == Prepare(r, true) {
      assert on[k];
    }
    if k: nat :| k < j && on[k] {
      assert actions[k] == Prepare(r, true);
    }
  }

  /** Nobody retains or releases an event that was never made. */
  lemma {:induction false} NoEventNoCalls(states: seq<State>, actions: seq<Action>, j: nat, r: Req)
    requires IsRun(states, actions) && j <= |actions| && r !in states[j].refs.eventRef
    ensures Count(actions, RetainEvent(r), j) == 0 && Count(actions, ReleaseEvent(r), j) == 0
    decreases j
  {
    if j > 0 {
      var i := j - 1;
      RunInv(states, actions, i);
      assert states[i + 1] == Next(states[i], actions[i]);
      EventStep(states[i], actions[i], r);
      NoEventNoCalls(states, actions, i, r);
    }
  }

  lemma HolderStep(s: State, a: Action, r: Req)
    requires Inv(s) && Enabled(s, a) && Next(s, a).closing == Open && r in Next(s, a).refs.events
    requires r in Next(s, a).refs.userEvents
    ensures r !in s.refs.eventRef ==> a == Prepare(r, true) && Next(s, a).refs.userEvents[r] == 1
    ensures r in s.refs.eventRef ==> r in s.refs.events && r in s.refs.userEvents
    ensures r in s.refs.eventRef ==>
      (Next(s, a).refs.userEvents[r] ==
         s.refs.userEvents[r] + (if a == RetainEvent(r) then 1 else 0) - (if a == ReleaseEvent(r) then 1 else 0))
  {
    match a
    case Work => HolderWork(s, r);
    case ReleaseEvent(q) =>
    case _ =>
  }

  lemma HolderWork(s: State, r: Req)
    requires Inv(s) && Enabled(s, Work) && r in Works(s).refs.events
    ensures r in s.refs.events && r in Works(s).refs.userEvents && r in s.refs.userEvents
    ensures Works(s).refs.userEvents[r] == s.refs.userEvents[r]
  {
    if s.worker.Dropping? {
      assert s.worker.req in s.refs.eventRef;
    }
  }

  /** While the queue is open, the applications hold one reference to a live event, and one more
      for every retain, and one less for every release. */
  lemma {:induction false} EventUsersCounted(states: seq<State>, actions: seq<Action>, j: nat, r: Req)
    requires IsRun(states, actions) && j <= |actions| && states[j].closing == Open && r in states[j].refs.events
    ensures r in states[j].refs.userEvents
    ensures states[j].refs.userEvents[r] ==
      1 + Count(actions, RetainEvent(r), j) - Count(actions, ReleaseEvent(r), j)
    decreases j
  {
    RunInv(states, actions, j);
    if j > 0 {
      var i := j - 1;
      RunInv(states, actions, i);
      assert states[i + 1] == Next(states[i], actions[i]);
      OpenStep(states[i], actions[i]);
      HolderStep(states[i], actions[i], r);
      if r in states[i].refs.eventRef {
        EventUsersCounted(states, actions, i, r);
      } else {
        NoEventNoCalls(states, actions, i, r);
      }
    }
  }

  // ----- order -----

  /** The requests pushed before step `j`, in this order. */
  ghost function Pushed(actions: seq<Action>, j: nat): seq<Req>
    requires j <= |actions|
  {
    if j == 0 then [] else Pushed(actions, j - 1) + if actions[j - 1].Push? then [actions[j - 1].req] else []
  }

  lemma PushStep(s: State, a: Action)
    requires Enabled(s, a)
    ensures Next(s, a).flow.enqueued == s.flow.enqueued + if a.Push? then [a.req] else []
  {
    assert s.flow.enqueued + [] == s.flow.enqueued;
  }

  /** The queue takes requests in the order of the pushes, and executes them in that order. */
  lemma {:induction false} QueueOrder(states: seq<State>, actions: seq<Action>, j: nat)
    requires IsRun(states, actions) && j <= |actions|
    ensures states[j].flow.enqueued == Pushed(actions, j)
    ensures states[j].flow.done <= Pushed(actions, j)
    decreases j
  {
    RunInv(states, actions, j);
    if j > 0 {
      var i := j - 1;
      QueueOrder(states, actions, i);
      PushStep(states[i], actions[i]);
      assert states[i + 1] == Next(states[i], actions[i]);
    }
  }
}
