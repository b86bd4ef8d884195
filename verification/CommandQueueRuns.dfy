/** What becomes of the requests in a queue that is freed. */
module CommandQueueRuns {
  import opened CommandQueue
  import opened CommandQueueProof

  /** Step `k` frees the queue. */
  ghost predicate FreesAt(states: seq<State>, actions: seq<Action>, k: nat) {
    k < |actions| && |states| == |actions| + 1 && !states[k].freed && states[k + 1].freed
  }

  lemma FreeingStep(s: State, a: Action)
    requires Inv(s) && Enabled(s, a) && !s.freed && Next(s, a).freed
    ensures var t := Next(s, a);
      && t.flow == s.flow && t.flow.enqueued == t.flow.done + t.flow.queue
      && (a == Joined || (a == Work && s.worker.Dropping?))
      && (a == Joined ==> t.flow.queue == [])
  {
    assert a.Work? ==> s.worker.Dropping?;
    assert s.flow.done + [] + s.flow.queue == s.flow.done + s.flow.queue;
  }

  lemma FrozenStep(s: State, a: Action)
    requires Inv(s) && Enabled(s, a) && s.freed
    ensures Next(s, a).freed && Next(s, a).flow == s.flow
  {
    assert s.closing == Closed && s.flow.prepared == {};
    assert a == Work;
  }

  /** The step that freed the queue; the requests have not moved since. */
  lemma {:induction false} FreedWhen(states: seq<State>, actions: seq<Action>, j: nat) returns (k: nat)
    requires IsRun(states, actions) && j <= |actions| && states[j].freed
    ensures k < j && FreesAt(states, actions, k) && states[j].flow == states[k + 1].flow
    decreases j
  {
    assert j > 0;
    k := j - 1;
    if states[k].freed {
      RunInv(states, actions, k);
      FrozenStep(states[k], actions[k]);
      k := FreedWhen(states, actions, k);
    }
  }

  lemma {:induction false} FreedOnce(states: seq<State>, actions: seq<Action>, k: nat, j: nat)
    requires IsRun(states, actions) && k < j <= |actions| && states[k + 1].freed
    ensures states[j].freed && states[j].flow == states[k + 1].flow
    decreases j
  {
    if k + 1 < j {
      FreedOnce(states, actions, k, j - 1);
      RunInv(states, actions, j - 1);
      FrozenStep(states[j - 1], actions[j - 1]);
    }
  }

  /** The worker itself drops the last reference, while requests are still queued. */
  ghost predicate DropsWithWork(states: seq<State>, actions: seq<Action>, k: nat) {
    FreesAt(states, actions, k) && actions[k] == Work && states[k].flow.queue != []
  }

  /** Once the queue is freed, everything that was enqueued has been executed, unless the worker
      itself dropped the last reference while requests were still queued: then exactly those
      are never executed, and none of them has an event. */
  lemma FreedUndrainedIff(states: seq<State>, actions: seq<Action>, j: nat)
    requires IsRun(states, actions) && j <= |actions| && states[j].freed
    ensures states[j].flow.done != states[j].flow.enqueued <==>
      exists k: nat :: k < j && DropsWithWork(states, actions, k)
    ensures states[j].flow.enqueued == states[j].flow.done + states[j].flow.queue
    ensures forall r :: r in states[j].flow.queue ==> r !in states[j].refs.eventRef
  {
    var k := FreedWhen(states, actions, j);
    RunInv(states, actions, k);
    FreeingStep(states[k], actions[k]);
    var f := states[j].flow;
    assert f.done != f.enqueued <==> f.queue != [] by { Lengths(f.done, f.queue, f.enqueued); }
    if f.queue != [] {
      assert DropsWithWork(states, actions, k);
    }
    forall i: nat | i < j && DropsWithWork(states, actions, i) ensures f.queue != [] {
      FreedOnce(states, actions, i, j);
      RunInv(states, actions, i);
      FreeingStep(states[i], actions[i]);
    }
    RunInv(states, actions, j);
    LeftWithoutEvents(states[j]);
  }

  lemma Lengths(done: seq<Req>, queue: seq<Req>, enqueued: seq<Req>)
    requires enqueued == done + queue
    ensures done != enqueued <==> queue != []
  {
    assert |enqueued| == |done| + |queue|;
    if queue == [] { assert done + [] == done; }
  }

  lemma LeftWithoutEvents(s: State)
    requires Inv(s) && s.freed
    ensures forall r :: r in s.flow.queue ==> r !in s.refs.eventRef
  {
    InvMeans(s);
    forall r | r in s.flow.queue ensures r !in s.refs.eventRef {
      assert !Carried(s, r);
    }
  }

  /** A queue on which every request was enqueued with an event is drained before it is
      freed. */
  lemma EventsDrain(states: seq<State>, actions: seq<Action>, j: nat)
    requires IsRun(states, actions) && j <= |actions| && states[j].freed
    requires forall r :: r in states[j].flow.enqueued ==> r in states[j].refs.eventRef
    ensures states[j].flow.done == states[j].flow.enqueued
  {
    FreedUndrainedIff(states, actions, j);
    var f := states[j].flow;
    Lengths(f.done, f.queue, f.enqueued);
    LeftWasEnqueued(f.done, f.queue, f.enqueued);
  }

  lemma LeftWasEnqueued(done: seq<Req>, queue: seq<Req>, enqueued: seq<Req>)
    requires enqueued == done + queue
    ensures queue != [] ==> exists r :: r in queue && r in enqueued
  {
    if queue != [] {
      assert queue[0] in queue && queue[0] == enqueued[|done|];
    }
  }

  // ----- a queue freed with work left -----

  ghost predicate Reachable(s: State) {
    exists states, actions :: IsRun(states, actions) && states[|actions|] == s
  }

  lemma Extend(s: State, a: Action, t: State)
    requires Reachable(s) && Enabled(s, a) && t == Next(s, a)
    ensures Reachable(t)
  {
    var states, actions :| IsRun(states, actions) && states[|actions|] == s;
    ExtendRun(states, actions, a, t);
  }

  lemma ExtendRun(states: seq<State>, actions: seq<Action>, a: Action, t: State)
    requires IsRun(states, actions) && Enabled(states[|actions|], a) && t == Next(states[|actions|], a)
    ensures IsRun(states + [t], actions + [a]) && (states + [t])[|actions + [a]|] == t
  {
    forall i | 0 <= i < |actions + [a]|
      ensures Enabled((states + [t])[i], (actions + [a])[i]) &&
        (states + [t])[i + 1] == Next((states + [t])[i], (actions + [a])[i])
    {
      if i < |actions| {
        assert (states + [t])[i] == states[i] && (actions + [a])[i] == actions[i] &&
          (states + [t])[i + 1] == states[i + 1];
      }
    }
  }

  /** Request 0 is queued with an event and request 1 without one. */
  lemma Queued() returns (s: State)
    ensures Reachable(s)
    ensures s == State(Flow({}, [0, 1], [0, 1], [], {0}), Refs({0}, map[0 := 2], map[0 := 1], 2, 1), Waiting, false,
      false, Open, false)
  {
    var s0 := State(Flow({}, [], [], [], {}), Refs({}, map[], map[], 1, 1), Waiting, false, false, Open, false);
    var states, actions: seq<Action> := [s0], [];
    assert IsRun(states, actions) && states[|actions|] == s0;
    var s1 := s0.(flow := Flow({0}, [], [], [], {0}), refs := Refs({0}, map[0 := 2], map[0 := 1], 2, 1));
    Extend(s0, Prepare(0, true), s1);
    var s2 := s1.(flow := Flow({}, [0], [0], [], {0}));
    Extend(s1, Push(0), s2);
    var s3 := s2.(flow := s2.flow.(prepared := {1}));
    Extend(s2, Prepare(1, false), s3);
    s := s3.(flow := Flow({}, [0, 1], [0, 1], [], {0}));
    Extend(s3, Push(1), s);
  }

  /** The application gives up the queue and the event. */
  lemma GivenUp() returns (s: State)
    ensures Reachable(s)
    ensures s == State(Flow({}, [0, 1], [0, 1], [], {0}), Refs({0}, map[0 := 1], map[0 := 0], 1, 0), Waiting, false,
      false, Open, false)
  {
    var q := Queued();
    var q1 := q.(refs := q.refs.(queueRef := 1, users := 0));
    Extend(q, ReleaseQueue, q1);
    s := q1.(refs := Refs({0}, map[0 := 1], map[0 := 0], 1, 0));
    Extend(q1, ReleaseEvent(0), s);
  }

  lemma WorkStep(s: State, t: State)
    requires Reachable(s) && Enabled(s, Work) && t == Works(s)
    ensures Reachable(t)
  {
    Extend(s, Work, t);
  }

  /** The worker runs request 0, drops its event and with it the queue, and leaves request 1
      behind for good. */
  lemma FreedUndrained() returns (s: State)
    ensures Reachable(s)
    ensures s.freed && s.worker == Gone && s.flow.enqueued == [0, 1] && s.flow.done == [0] && s.flow.queue == [1]
  {
    var s0 := GivenUp();
    var s1 := s0.(worker := Running(0), flow := Flow({}, [1], [0, 1], [], {0}));
    WorkStep(s0, s1);
    var s2 := s1.(worker := Signalling(0), flow := Flow({}, [1], [0, 1], [0], {0}));
    WorkStep(s1, s2);
    var s3 := s2.(worker := Dropping(0), flow := Flow({}, [1], [0, 1], [0], {}));
    WorkStep(s2, s3);
    var s4 := WorkerDrops(s3, 0);
    WorkStep(s3, s4);
    s := s4.(worker := Gone);
    WorkStep(s4, s);
  }
}
