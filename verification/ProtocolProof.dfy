/** The inductive invariant of the protocol when the host leaves a request only after its
    answer or a reset of the DSP. */
module ProtocolProof {
  import opened Protocol
  import opened ProtocolControl
  import opened ProtocolAlways

  /** The DSP was halted in the middle of request `r` and the device turned off. */
  ghost predicate Lost(s: State, r: Req) {
    s.off && r in s.books.result && s.books.result[r] == BootFailed(true)
  }

  ghost predicate Ledger(c: Config, s: State) {
    && s.books.mapped !! s.books.returned
    && (forall r :: r in s.books.returned ==> r in s.books.result && s.books.result[r] != BootFailed(true))
    && (forall r :: r in s.books.result ==> r in s.books.mapped || r in s.books.returned)
    && (forall r :: Current(s, r) ==> r in s.books.mapped && r !in s.books.result)
    && (forall r :: r in s.books.accepted ==> r in s.books.result || Current(s, r))
    && (forall r :: r in s.books.accepted ==> r in s.books.completed || r in s.books.flushed || Uses(s, r))
    && (forall r :: Uses(s, r) ==> (Current(s, r) || Lost(s, r)) && r in s.books.accepted && r !in s.books.completed)
    && (forall r :: r in s.books.completed ==> r in s.books.accepted)
    && s.books.failed <= s.books.completed
    && (c.firmware ==> AcceptedOnce(s))
    && ResultsTrue(s)
  }

  /** No request is under way. Without a firmware name, a word that was left in the host's
      favour has no request beside it. */
  predicate Quiet(c: Config, s: State) {
    s.off || (Waiting(s) && (c.firmware || !Pending(s.word) || !s.payload.Command?))
  }

  /** The DSP waits for a request. */
  predicate Waiting(s: State) {
    Resting(s.dsp) && (s.running ==> !Pending(s.word))
  }

  /** Request `r` is published: not seen yet, being run, or answered. */
  ghost predicate Engaged(s: State, r: Req) {
    var w := CommandWord(r in s.books.nsid);
    && s.payload == Command(r)
    && ( || (s.word == w && Resting(s.dsp) && r !in s.books.accepted)
         || (s.word == w && Uses(s, r) && s.dsp.flags == w && s.running)
         || (Answered(s.word) && Resting(s.dsp) && r in s.books.accepted && r in s.books.completed
             && (DeliveryFail(s.word) <==> r in s.books.failed)))
  }

  /** As `Engaged`, with the DSP already halted. */
  ghost predicate Stopped(s: State, r: Req) {
    && s.payload == Command(r) && (Pending(s.word) ==> r !in s.books.completed)
    && ( || (Resting(s.dsp) && (r in s.books.accepted ==> r in s.books.completed))
         || Uses(s, r))
  }

  /** If the DSP comes out of reset and finds a command left there, it is the one that is being
      recovered from. */
  ghost predicate Stale(c: Config, s: State)
    requires s.host.Boot?
  {
    c.firmware || (Pending(s.word) && s.word != SYNC_START && s.payload.Command? ==>
      s.host.why == Recover(s.payload.req) && s.payload.req !in s.books.completed)
  }

  ghost predicate BootDuty(c: Config, s: State)
    requires s.host.Boot?
  {
    match s.host.at
    case Halt => if s.host.why.Recover? then Engaged(s, s.host.why.req) else Quiet(c, s)
    case Reset => if s.host.why.Recover? then Stopped(s, s.host.why.req) else Quiet(c, s)
    case _ => Stale(c, s)
  }

  ghost predicate SubmitDuty(c: Config, s: State)
    requires s.host.Submit?
  {
    && (s.host.step != Check ==> !s.off && s.host.req !in s.books.result)
    && match s.host.step
       case Check => Quiet(c, s) && s.host.req !in s.books.accepted
       case Fill => Waiting(s) && s.host.req !in s.books.accepted
       case Publish => Waiting(s) && s.host.req !in s.books.accepted && s.payload == Command(s.host.req)
       case Poke => Engaged(s, s.host.req)
       case Wait => Engaged(s, s.host.req)
       case Read => Engaged(s, s.host.req) && Answered(s.word)
  }

  ghost predicate Duty(c: Config, s: State) {
    match s.host
    case Unlocked => Quiet(c, s)
    case Boot(_, _) => BootDuty(c, s)
    case Submit(_, _) => SubmitDuty(c, s)
  }

  ghost predicate Inv(c: Config, s: State) {
    Ledger(c, s) && Duty(c, s) && Machine(c, s)
  }

  lemma InitInv(c: Config, s: State)
    requires Init(s)
    ensures Inv(c, s)
  {
  }

  /** What the invariant means: exclusive use of the payload, safe memory, true results and no
      lost wake-up; and with a firmware name everything that is promised. */
  lemma InvGood(c: Config, s: State)
    requires Inv(c, s)
    ensures Exclusive(s) && MemorySafe(s) && ResultsTrue(s) && NoLostWakeup(s)
    ensures c.firmware ==> Good(s)
  {
    InvExclusive(c, s);
    if c.firmware { InvPublished(c, s); }
  }

  lemma InvExclusive(c: Config, s: State)
    requires Inv(c, s)
    ensures Exclusive(s)
  {
  }

  lemma InvPublished(c: Config, s: State)
    requires Inv(c, s) && c.firmware
    ensures RunsPublished(s) && SyncOrdered(s)
  {
  }

  lemma BookkeepingKeeps(c: Config, s: State, a: Action)
    requires Inv(c, s) && Enabled(c, s, a) && !a.Host? && !a.Dsp?
    ensures Ledger(c, Next(c, s, a)) && Duty(c, Next(c, s, a))
  {
    match a
    case Map(r, _) => MapKeeps(c, s, a);
    case Take(r) =>
    case BeginResume =>
    case Suspend =>
    case Return(r) => ReturnKeeps(c, s, a);
  }

  lemma MapKeeps(c: Config, s: State, a: Action)
    requires Ledger(c, s) && Duty(c, s) && a.Map? && Enabled(c, s, a)
    ensures Ledger(c, Next(c, s, a)) && Duty(c, Next(c, s, a))
  {
    assert !Current(s, a.req);
  }

  lemma ReturnKeeps(c: Config, s: State, a: Action)
    requires Ledger(c, s) && Duty(c, s) && a.Return? && Enabled(c, s, a)
    ensures Ledger(c, Next(c, s, a)) && Duty(c, Next(c, s, a))
  {
  }

  // ----- host steps -----

  predicate SameHolder(h: HostPc, k: HostPc) {
    Holder(h) == Holder(k)
  }

  /** The purpose that the lock is held for; `Resume` stands for no request at all. */
  function Holder(h: HostPc): Purpose {
    match h
    case Unlocked => Resume
    case Boot(_, why) => why
    case Submit(_, r) => Recover(r)
  }

  predicate SameUse(d: DspPc, e: DspPc) {
    DspBusy(d) == DspBusy(e) && (DspBusy(d) ==> d.input == e.input)
  }

  /** The ledger depends on the lock holder, the books and what the DSP uses, and on nothing
      else. */
  lemma LedgerFrame(c: Config, s: State, t: State)
    requires Ledger(c, s)
    requires t.books == s.books
    requires SameHolder(s.host, t.host) && SameUse(s.dsp, t.dsp) && (s.off ==> t.off)
    ensures Ledger(c, t)
  {
  }

  /** The holder leaves with a result. */
  lemma LedgerFinish(c: Config, s: State, t: State, r: Req, res: Result)
    requires Ledger(c, s) && Current(s, r)
    requires t.host == Unlocked && t.dsp == s.dsp && t.books == Report(s.books, r, res)
    requires Uses(s, r) ==> res == BootFailed(true)
    requires res == Success || res == DeliveryFailed ==> r in s.books.accepted && r in s.books.completed
    requires res == Success ==> r !in s.books.failed
    requires res == DeliveryFailed ==> r in s.books.failed
    requires res == NoDevice ==> r !in s.books.accepted && t.off
    requires res == BootFailed(true) ==> t.off
    requires s.off ==> t.off
    ensures Ledger(c, t)
  {
    forall q ensures Current(s, q) <==> q == r {}
    forall q | q in t.books.accepted ensures q in t.books.result {}
    forall q | Uses(t, q) ensures Lost(t, q) {
      assert Uses(s, q);
    }
  }

  lemma SubmitLedger(c: Config, s: State, e: Event)
    requires Kept(c) && Ledger(c, s) && s.host.Submit? && SubmitDuty(c, s) && SubmitCan(c, s, s.host.step, e)
    ensures Ledger(c, SubmitDo(c, s, e))
  {
    var t := SubmitDo(c, s, e);
    if t.host == Unlocked {
      assert !Uses(s, s.host.req);
      LedgerFinish(c, s, t, s.host.req, t.books.result[s.host.req]);
    } else {
      LedgerFrame(c, s, t);
    }
  }

  lemma SubmitDuties(c: Config, s: State, e: Event)
    requires Kept(c) && Inv(c, s) && s.host.Submit? && SubmitCan(c, s, s.host.step, e)
    ensures Duty(c, SubmitDo(c, s, e))
  {
    if s.host.step == Check || s.host.step == Fill || s.host.step == Publish {
      SubmitFirstHalf(c, s, e);
    } else {
      SubmitSecondHalf(c, s, e);
    }
  }

  lemma SubmitFirstHalf(c: Config, s: State, e: Event)
    requires s.host.Submit? && SubmitDuty(c, s) && SubmitCan(c, s, s.host.step, e)
    requires s.host.req !in s.books.result && (s.off ==> !s.running)
    requires s.host.step == Check || s.host.step == Fill || s.host.step == Publish
    ensures Duty(c, SubmitDo(c, s, e))
  {
  }

  lemma SubmitSecondHalf(c: Config, s: State, e: Event)
    requires Kept(c) && s.host.Submit? && SubmitDuty(c, s) && SubmitCan(c, s, s.host.step, e)
    requires s.host.step == Poke || s.host.step == Wait || s.host.step == Read
    ensures Duty(c, SubmitDo(c, s, e))
  {
  }

  lemma BootEndsRested(c: Config, s: State, e: Event)
    requires s.host.Boot? && BootControl(c, s) && BootCan(c, s, s.host.at, e)
    requires BootDo(c, s, e).host == Unlocked && s.host.at != TurnOff
    ensures !DspBusy(s.dsp)
  {
  }

  lemma BootLedger(c: Config, s: State, e: Event)
    requires Ledger(c, s) && s.host.Boot? && BootControl(c, s) && BootCan(c, s, s.host.at, e)
    ensures Ledger(c, BootDo(c, s, e))
  {
    var t := BootDo(c, s, e);
    if s.host.at == Reset {
      ResetLedger(c, s, t, e);
    } else if t.host == Unlocked && s.host.why.Recover? {
      var r := s.host.why.req;
      if s.host.at != TurnOff { BootEndsRested(c, s, e); }
      LedgerFinish(c, s, t, r, t.books.result[r]);
    } else {
      BootLedgerOther(c, s, e);
    }
  }

  lemma BootLedgerOther(c: Config, s: State, e: Event)
    requires Ledger(c, s) && s.host.Boot? && s.host.at != Reset
    requires BootDo(c, s, e).host != Unlocked || s.host.why == Resume
    ensures Ledger(c, BootDo(c, s, e))
  {
    BootFrame(c, s, e);
    LedgerFrame(c, s, BootDo(c, s, e));
  }

  lemma BootFrame(c: Config, s: State, e: Event)
    requires s.host.Boot? && s.host.at != Reset && (BootDo(c, s, e).host != Unlocked || s.host.why == Resume)
    ensures var t := BootDo(c, s, e);
      t.books == s.books && SameHolder(s.host, t.host) && t.dsp == s.dsp && (s.off ==> t.off)
  {
  }

  lemma ResetLedger(c: Config, s: State, t: State, e: Event)
    requires Ledger(c, s) && s.host.Boot? && t == Goto(ResetDsp(s, e == Go), Load)
    ensures Ledger(c, t)
  {
    forall r | r in t.books.accepted ensures r in t.books.completed || r in t.books.flushed {
      assert Uses(s, r) ==> r in t.books.flushed;
    }
  }

  lemma BootDuties(c: Config, s: State, e: Event)
    requires Inv(c, s) && s.host.Boot? && BootCan(c, s, s.host.at, e)
    ensures Duty(c, BootDo(c, s, e))
  {
    if s.host.at == Halt {
      HaltDuty(c, s, e);
    } else if Early(s.host.at) {
      EarlyDuty(c, s, e);
    } else {
      LaterDuty(c, s, e);
    }
  }

  lemma HaltDuty(c: Config, s: State, e: Event)
    requires Ledger(c, s) && s.host.Boot? && s.host.at == Halt && BootDuty(c, s)
    ensures Duty(c, BootDo(c, s, e))
  {
  }

  lemma EarlyDuty(c: Config, s: State, e: Event)
    requires s.host.Boot? && BootDuty(c, s) && BootControl(c, s) && BootCan(c, s, s.host.at, e)
    requires Early(s.host.at) && s.host.at != Halt
    ensures Duty(c, BootDo(c, s, e))
  {
  }

  lemma LaterDuty(c: Config, s: State, e: Event)
    requires s.host.Boot? && BootDuty(c, s) && BootControl(c, s) && BootCan(c, s, s.host.at, e) && !Early(s.host.at)
    ensures Duty(c, BootDo(c, s, e))
  {
  }

  // ----- DSP steps -----

  lemma DspLedger(c: Config, s: State, f: bool)
    requires Inv(c, s) && DspCan(s)
    ensures Ledger(c, DspDo(c, s, f))
  {
    var t := DspDo(c, s, f);
    if s.dsp == Dispatch && DspBusy(t.dsp) {
      AcceptLedger(c, s);
    } else if s.dsp.WriteDone? {
      DoneLedger(c, s, f);
    } else {
      LedgerFrame(c, s, t);
    }
  }

  lemma DoneLedger(c: Config, s: State, f: bool)
    requires Ledger(c, s) && s.dsp.WriteDone?
    ensures Ledger(c, DspDo(c, s, f))
  {
    assert forall r :: Uses(DspDo(c, s, f), r) ==> false;
  }

  /** The DSP accepts only what the lock holder has published, and with a firmware name never a
      second time. */
  lemma AcceptCurrent(c: Config, s: State)
    requires Inv(c, s) && s.running && s.dsp == Dispatch && Pending(s.word) && s.word != SYNC_START &&
      s.payload.Command?
    ensures Current(s, s.payload.req) && s.payload.req !in s.books.completed && !s.off
    ensures c.firmware ==> s.payload.req !in s.books.accepted
  {
    if s.host.Boot? { AcceptInBoot(c, s); }
  }

  lemma AcceptInBoot(c: Config, s: State)
    requires s.host.Boot? && BootControl(c, s) && BootDuty(c, s) && Ledger(c, s)
    requires s.running && s.dsp == Dispatch && Pending(s.word) && s.word != SYNC_START && s.payload.Command?
    ensures Current(s, s.payload.req) && s.payload.req !in s.books.completed
    ensures c.firmware ==> s.payload.req !in s.books.accepted
  {
  }

  lemma AcceptLedger(c: Config, s: State)
    requires Inv(c, s) && s.running && s.dsp == Dispatch && Pending(s.word) && s.word != SYNC_START
    ensures Ledger(c, Accept(s))
  {
    if s.payload.Command? {
      AcceptCurrent(c, s);
      Accepted(c, s, s.payload.req);
    } else {
      assert forall r :: !Uses(s, r) && !Uses(Accept(s), r);
    }
  }

  lemma Accepted(c: Config, s: State, r: Req)
    requires Ledger(c, s) && s.payload == Command(r) && s.dsp == Dispatch
    requires Current(s, r) && r !in s.books.completed && (c.firmware ==> r !in s.books.accepted)
    ensures Ledger(c, Accept(s))
  {
    var t := Accept(s);
    forall q ensures Uses(t, q) <==> q == r {}
    forall q ensures !Uses(s, q) {}
  }

  lemma DspDuties(c: Config, s: State, f: bool)
    requires Inv(c, s) && DspCan(s)
    ensures Duty(c, DspDo(c, s, f))
  {
    match s.host
    case Unlocked => DspQuiet(c, s, f);
    case Boot(at, why) =>
      if at.Halt? { DspHalting(c, s, f); } else { DspStale(c, s, f); }
    case Submit(step, r) => DspSubmit(c, s, f);
  }

  lemma DspHalting(c: Config, s: State, f: bool)
    requires s.host.Boot? && s.host.at.Halt? && !s.off && BootDuty(c, s) && Ledger(c, s) && DspCan(s)
    ensures Duty(c, DspDo(c, s, f))
  {
    if s.host.why.Recover? { DspEngaged(c, s, f, s.host.why.req); } else { DspQuiet(c, s, f); }
  }

  lemma DspStale(c: Config, s: State, f: bool)
    requires s.host.Boot? && !s.host.at.Halt? && BootControl(c, s) && BootDuty(c, s) && DspCan(s)
    ensures Duty(c, DspDo(c, s, f))
  {
    DspBoot(c, s, f);
    var t := DspDo(c, s, f);
    assert Pending(t.word) ==> t.word == s.word && t.books.completed == s.books.completed;
  }

  lemma DspSubmit(c: Config, s: State, f: bool)
    requires s.host.Submit? && SubmitDuty(c, s) && Ledger(c, s) && DspCan(s) && !s.off
    ensures Duty(c, DspDo(c, s, f))
  {
    if s.host.step.Check? || s.host.step.Fill? || s.host.step.Publish? {
      DspBeforePublish(c, s, f);
    } else {
      DspEngaged(c, s, f, s.host.req);
      assert DspDo(c, s, f).host == s.host && DspDo(c, s, f).books.result == s.books.result;
    }
  }

  lemma DspBeforePublish(c: Config, s: State, f: bool)
    requires s.host.Submit? && SubmitDuty(c, s) && DspCan(s) && !s.off
    requires s.host.step.Check? || s.host.step.Fill? || s.host.step.Publish?
    ensures Duty(c, DspDo(c, s, f))
  {
    DspWaiting(c, s, f);
    assert DspDo(c, s, f).host == s.host;
  }

  lemma DspWaiting(c: Config, s: State, f: bool)
    requires Waiting(s) && DspCan(s)
    ensures Waiting(DspDo(c, s, f)) && DspDo(c, s, f).books == s.books
    ensures DspDo(c, s, f).word == s.word && DspDo(c, s, f).payload == s.payload
  {
  }

  lemma DspQuiet(c: Config, s: State, f: bool)
    requires Quiet(c, s) && DspCan(s) && !s.off
    ensures Quiet(c, DspDo(c, s, f))
  {
    DspWaiting(c, s, f);
  }

  lemma DspEngaged(c: Config, s: State, f: bool, r: Req)
    requires Engaged(s, r) && DspCan(s) && (Uses(s, r) ==> r in s.books.accepted && r !in s.books.completed)
    requires s.books.failed <= s.books.completed
    ensures Engaged(DspDo(c, s, f), r)
    ensures Answered(s.word) ==> DspDo(c, s, f).word == s.word
  {
  }

  // ----- every run -----

  lemma StepInv(c: Config, s: State, a: Action)
    requires Kept(c) && Inv(c, s) && Enabled(c, s, a)
    ensures Inv(c, Next(c, s, a))
  {
    MachineStep(c, s, a);
    match a
    case Host(e) =>
      if s.host.Boot? {
        BootLedger(c, s, e);
        BootDuties(c, s, e);
      } else {
        SubmitLedger(c, s, e);
        SubmitDuties(c, s, e);
      }
    case Dsp(f) =>
      DspLedger(c, s, f);
      DspDuties(c, s, f);
    case _ => BookkeepingKeeps(c, s, a);
  }

  lemma {:induction false} RunInv(c: Config, states: seq<State>, actions: seq<Action>, k: nat)
    requires Kept(c) && IsRun(c, states, actions) && k <= |actions|
    ensures Inv(c, states[k])
    decreases k
  {
    if k == 0 {
      InitInv(c, states[0]);
    } else {
      RunInv(c, states, actions, k - 1);
      StepInv(c, states[k - 1], actions[k - 1]);
      assert states[(k - 1) + 1] == Next(c, states[k - 1], actions[k - 1]);
    }
  }

  /** When no request is left early, every reachable state keeps the payload exclusive, memory
      safe and results true, also without a firmware name. */
  lemma KeptRuns(c: Config, s: State)
    requires Kept(c) && Reachable(c, s)
    ensures Inv(c, s) && Exclusive(s) && MemorySafe(s) && ResultsTrue(s)
  {
    var states, actions :| IsRun(c, states, actions) && states[|actions|] == s;
    RunInv(c, states, actions, |actions|);
    InvGood(c, s);
  }

  /** Under safe settings every reachable state is good. */
  lemma SafeRunsAreGood(c: Config, s: State)
    requires Safe(c) && Reachable(c, s)
    ensures Inv(c, s) && Good(s)
  {
    KeptRuns(c, s);
    InvGood(c, s);
  }
}
