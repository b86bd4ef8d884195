/** What holds in every run of the protocol with every setting of the driver. */
module ProtocolAlways {
  import opened Protocol
  import opened ProtocolControl

  /** Request `r` holds the communication lock. */
  predicate Current(s: State, r: Req) {
    || (s.host.Submit? && s.host.req == r)
    || (s.host.Boot? && s.host.why == Recover(r))
  }

  // ----- what holds with every setting -----

  /** The lock holder has no result yet and its memory is lent, memory is not lent and given
      back at once, and a device that is off has a halted DSP and no work under way. */
  ghost predicate Basic(s: State) {
    && s.books.mapped !! s.books.returned
    && (forall r :: Current(s, r) ==> r in s.books.mapped && r !in s.books.result)
    && (s.host.Boot? && s.host.at == TurnOff ==> !s.running)
    && (s.off ==> !s.running && (s.host == Unlocked || (s.host.Submit? && s.host.step == Check)))
  }

  lemma BasicStep(c: Config, s: State, a: Action)
    requires Basic(s) && Enabled(c, s, a)
    ensures Basic(Next(c, s, a))
  {
    match a
    case Host(e) =>
      if s.host.Boot? { BasicBoot(c, s, e); } else { BasicSubmit(c, s, e); }
    case Dsp(f) =>
      assert DspDo(c, s, f).host == s.host;
    case _ =>
  }

  lemma BasicBoot(c: Config, s: State, e: Event)
    requires Basic(s) && s.host.Boot?
    ensures Basic(BootDo(c, s, e))
  {
    var t := BootDo(c, s, e);
    BootBooks(c, s, e);
    assert t.host.Boot? ==> t.books.result == s.books.result && t.host.why == s.host.why;
  }

  lemma BasicSubmit(c: Config, s: State, e: Event)
    requires Basic(s) && s.host.Submit?
    ensures Basic(SubmitDo(c, s, e))
  {
    assert Current(s, s.host.req);
  }

  lemma {:induction false} RunBasic(c: Config, states: seq<State>, actions: seq<Action>, k: nat)
    requires IsRun(c, states, actions) && k <= |actions|
    ensures Basic(states[k])
    decreases k
  {
    if k > 0 {
      RunBasic(c, states, actions, k - 1);
      BasicStep(c, states[k - 1], actions[k - 1]);
      assert states[(k - 1) + 1] == Next(c, states[k - 1], actions[k - 1]);
    }
  }

  // ----- the control flow -----

  /** In every run, with every setting, the control invariant holds. */
  lemma {:induction false} RunMachine(c: Config, states: seq<State>, actions: seq<Action>, k: nat)
    requires IsRun(c, states, actions) && k <= |actions|
    ensures Machine(c, states[k])
    decreases k
  {
    if k > 0 {
      RunMachine(c, states, actions, k - 1);
      RunBasic(c, states, actions, k - 1);
      MachineStep(c, states[k - 1], actions[k - 1]);
      assert states[(k - 1) + 1] == Next(c, states[k - 1], actions[k - 1]);
    }
  }

  /** With every setting, no wake-up is lost. */
  lemma NeverLostWakeup(c: Config, s: State)
    requires Reachable(c, s)
    ensures NoLostWakeup(s)
  {
    var states, actions :| IsRun(c, states, actions) && states[|actions|] == s;
    RunMachine(c, states, actions, |actions|);
  }

  /** With a firmware name, whatever the other settings, the handshake is ordered. */
  lemma HandshakeOrdered(c: Config, s: State)
    requires c.firmware && Reachable(c, s)
    ensures SyncOrdered(s)
  {
    var states, actions :| IsRun(c, states, actions) && states[|actions|] == s;
    RunMachine(c, states, actions, |actions|);
  }

  // ----- off, failing and abandoned -----

  /** Once the device is off, no step writes the communication area, wakes the DSP or
      turns the device on again. */
  lemma OffStep(c: Config, s: State, a: Action)
    requires Basic(s) && s.off && Enabled(c, s, a)
    ensures var t := Next(c, s, a); t.off && !t.running && t.word == s.word && t.payload == s.payload
  {
  }

  lemma OffAt(c: Config, states: seq<State>, actions: seq<Action>, k: nat)
    requires IsRun(c, states, actions) && k < |actions| && states[k].off
    ensures states[k + 1].off && !states[k + 1].running
    ensures states[k + 1].word == states[k].word && states[k + 1].payload == states[k].payload
  {
    RunBasic(c, states, actions, k);
    OffStep(c, states[k], actions[k]);
  }

  /** With every setting: a device that is off stays off, its DSP stays halted and the
      communication area is never written again. */
  lemma {:induction false} OffForever(c: Config, states: seq<State>, actions: seq<Action>, i: nat, j: nat)
    requires IsRun(c, states, actions) && i < j <= |actions| && states[i].off
    ensures states[j].off && !states[j].running
    ensures states[j].word == states[i].word && states[j].payload == states[i].payload
    decreases j
  {
    if i < j - 1 {
      OffForever(c, states, actions, i, j - 1);
    }
    OffAt(c, states, actions, j - 1);
  }

  predicate Failing(s: State) {
    s.host.Boot? && (s.host.at.SyncFailed? || s.host.at.HaltAgain? || s.host.at.TurnOff?)
  }

  predicate FailedOrFailing(s: State) {
    Failing(s) || (s.off && !s.running)
  }

  lemma FailingStep(c: Config, s: State, a: Action)
    requires Basic(s) && Enabled(c, s, a) && FailedOrFailing(s)
    ensures FailedOrFailing(Next(c, s, a))
  {
    if s.off {
      OffStep(c, s, a);
    } else {
      assert !a.Host? ==> Next(c, s, a).host == s.host;
    }
  }

  lemma FailingAt(c: Config, states: seq<State>, actions: seq<Action>, k: nat)
    requires IsRun(c, states, actions) && k < |actions| && FailedOrFailing(states[k])
    ensures FailedOrFailing(states[k + 1])
  {
    RunBasic(c, states, actions, k);
    FailingStep(c, states[k], actions[k]);
  }

  /** With every setting: a handshake that fails ends with the DSP halted and the device off, for good. */
  lemma {:induction false} FailedSyncEndsOff(c: Config, states: seq<State>, actions: seq<Action>, i: nat, j: nat)
    requires IsRun(c, states, actions) && i <= j <= |actions| && Failing(states[i])
    ensures Failing(states[j]) || (states[j].off && !states[j].running)
    decreases j
  {
    if i < j {
      FailedSyncEndsOff(c, states, actions, i, j - 1);
      assert FailedOrFailing(states[j - 1]);
      FailingAt(c, states, actions, j - 1);
    }
  }

  ghost predicate Abandoned(s: State, r: Req) {
    r in s.books.mapped && r in s.books.result && s.books.result[r] == BootFailed(true)
  }

  lemma AbandonedAt(c: Config, states: seq<State>, actions: seq<Action>, k: nat, r: Req)
    requires IsRun(c, states, actions) && k < |actions| && Abandoned(states[k], r)
    ensures Abandoned(states[k + 1], r)
  {
    RunBasic(c, states, actions, k);
    AbandonedStep(c, states[k], actions[k], r);
  }

  lemma AbandonedStep(c: Config, s: State, a: Action, r: Req)
    requires Basic(s) && Enabled(c, s, a) && Abandoned(s, r)
    ensures Abandoned(Next(c, s, a), r)
  {
    assert !Current(s, r);
    if a.Host? {
      if s.host.Boot? { AbandonedBoot(c, s, a.event, r); } else { AbandonedSubmit(c, s, a.event, r); }
    }
  }

  lemma AbandonedBoot(c: Config, s: State, e: Event, r: Req)
    requires s.host.Boot? && s.host.why != Recover(r) && Abandoned(s, r)
    ensures Abandoned(BootDo(c, s, e), r)
  {
    BootBooks(c, s, e);
  }

  /** What a boot step writes into the books: a reset may flush a command, and the end of the
      boot reports to the request that waits for it. */
  lemma BootBooks(c: Config, s: State, e: Event)
    requires s.host.Boot?
    ensures var b := BootDo(c, s, e).books;
      || b == s.books
      || b == s.books.(flushed := b.flushed)
      || (s.host.why.Recover? && exists res :: b == Report(s.books, s.host.why.req, res))
  {
    if Early(s.host.at) {
      BootBooksEarly(c, s, e);
    } else if Late(s.host.at) {
      BootBooksLate(c, s, e);
    } else {
      BootBooksMiddle(c, s, e);
    }
  }

  lemma BootBooksEarly(c: Config, s: State, e: Event)
    requires s.host.Boot? && Early(s.host.at)
    ensures var b := BootDo(c, s, e).books;
      || b == s.books.(flushed := b.flushed)
      || (s.host.why.Recover? && b == Report(s.books, s.host.why.req, BootFailed(s.off)))
  {
  }

  lemma BootBooksMiddle(c: Config, s: State, e: Event)
    requires s.host.Boot? && !Early(s.host.at) && !Late(s.host.at)
    ensures BootDo(c, s, e).books == s.books
  {
  }

  lemma BootBooksLate(c: Config, s: State, e: Event)
    requires s.host.Boot? && Late(s.host.at)
    ensures var b := BootDo(c, s, e).books;
      || b == s.books
      || (s.host.why.Recover? &&
        (b == Report(s.books, s.host.why.req, Busy) || b == Report(s.books, s.host.why.req, BootFailed(true))))
  {
  }

  lemma AbandonedSubmit(c: Config, s: State, e: Event, r: Req)
    requires s.host.Submit? && s.host.req != r && Abandoned(s, r)
    ensures Abandoned(SubmitDo(c, s, e), r)
  {
  }

  /** With every setting: the memory of a request abandoned when the resynchronisation failed
      stays lent. */
  lemma {:induction false} AbandonedStaysLent(c: Config, states: seq<State>, actions: seq<Action>, i: nat, j: nat,
        r: Req)
    requires IsRun(c, states, actions) && i <= j <= |actions| && Abandoned(states[i], r)
    ensures Abandoned(states[j], r)
    decreases j
  {
    if i < j {
      AbandonedStaysLent(c, states, actions, i, j - 1, r);
      AbandonedAt(c, states, actions, j - 1, r);
    }
  }
}
