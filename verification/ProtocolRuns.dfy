/** What the protocol invariant means over whole runs, and the runs that go wrong when a
    setting is not safe. */
module ProtocolRuns {
  import opened Protocol
  import opened ProtocolAlways
  import opened ProtocolControl
  import opened ProtocolProof

  // ----- over whole runs -----

  /** A request reported as answered was accepted by the DSP exactly once. */
  ghost predicate AnsweredOnce(s: State) {
    forall r :: r in s.books.result && Answer(s.books.result[r]) ==> multiset(s.books.accepted)[r] == 1
  }

  predicate Answer(res: Result) { res == Success || res == DeliveryFailed }

  /** And the request that is being submitted was accepted at most once so far. */
  ghost predicate OnceSoFar(s: State) {
    AnsweredOnce(s) && (s.host.Submit? ==> multiset(s.books.accepted)[s.host.req] <= 1)
  }

  lemma OnceStep(c: Config, s: State, a: Action)
    requires Kept(c) && Inv(c, s) && OnceSoFar(s) && Enabled(c, s, a)
    ensures OnceSoFar(Next(c, s, a))
  {
    match a
    case Host(e) =>
      if s.host.Boot? { OnceBoot(c, s, e); } else { OnceSubmit(c, s, e); }
    case Dsp(f) => OnceDsp(c, s, f);
    case Take(r) => assert r !in s.books.accepted;
    case _ =>
  }

  lemma OnceBoot(c: Config, s: State, e: Event)
    requires AnsweredOnce(s) && s.host.Boot?
    ensures OnceSoFar(BootDo(c, s, e))
  {
    BootStays(c, s, e);
    BootReports(c, s, e);
  }

  lemma BootStays(c: Config, s: State, e: Event)
    requires s.host.Boot?
    ensures !BootDo(c, s, e).host.Submit?
  {
  }

  /** A boot never reports an answer. */
  lemma BootReports(c: Config, s: State, e: Event)
    requires s.host.Boot?
    ensures var b := BootDo(c, s, e).books;
      && b.accepted == s.books.accepted
      && forall r :: r in b.result && Answer(b.result[r]) ==> r in s.books.result && s.books.result[r] == b.result[r]
  {
    if Early(s.host.at) {
      BootBooksEarly(c, s, e);
    } else if Late(s.host.at) {
      BootBooksLate(c, s, e);
    } else {
      BootBooksMiddle(c, s, e);
    }
  }

  lemma OnceSubmit(c: Config, s: State, e: Event)
    requires Kept(c) && Inv(c, s) && OnceSoFar(s) && s.host.Submit? && SubmitCan(c, s, s.host.step, e)
    ensures OnceSoFar(SubmitDo(c, s, e))
  {
    var t := SubmitDo(c, s, e);
    assert t.books.accepted == s.books.accepted;
    if s.host.step == Read {
      assert s.host.req in s.books.accepted;
    }
  }

  /** Whatever the DSP accepts is the request that holds the lock, and a request that is being
      submitted was not accepted before. */
  lemma OnceDsp(c: Config, s: State, f: bool)
    requires Inv(c, s) && OnceSoFar(s) && DspCan(s)
    ensures OnceSoFar(DspDo(c, s, f))
  {
    DspAccepts(c, s, f);
    if DspDo(c, s, f).books.accepted != s.books.accepted {
      AcceptCurrent(c, s);
      assert s.payload.req !in s.books.result;
      if s.host.Submit? { UnseenInSubmit(c, s); }
    }
  }

  lemma DspAccepts(c: Config, s: State, f: bool)
    ensures var t := DspDo(c, s, f);
      && t.host == s.host && t.books.result == s.books.result
      && (t.books.accepted != s.books.accepted ==>
            && s.dsp == Dispatch && Pending(s.word) && s.word != SYNC_START && s.payload.Command?
            && t.books.accepted == s.books.accepted + [s.payload.req])
  {
  }

  lemma UnseenInSubmit(c: Config, s: State)
    requires Inv(c, s) && s.host.Submit? && s.running && s.dsp == Dispatch && Pending(s.word) && s.payload.Command?
    ensures s.host.req !in s.books.accepted
  {
  }

  lemma {:induction false} RunOnce(c: Config, states: seq<State>, actions: seq<Action>, k: nat)
    requires Kept(c) && IsRun(c, states, actions) && k <= |actions|
    ensures OnceSoFar(states[k])
    decreases k
  {
    if k > 0 {
      RunOnce(c, states, actions, k - 1);
      RunInv(c, states, actions, k - 1);
      OnceStep(c, states[k - 1], actions[k - 1]);
      assert states[(k - 1) + 1] == Next(c, states[k - 1], actions[k - 1]);
    }
  }

  // ----- runs that go wrong -----

  lemma Extend(c: Config, s: State, a: Action, t: State)
    requires Reachable(c, s) && Enabled(c, s, a) && t == Next(c, s, a)
    ensures Reachable(c, t)
  {
    var states, actions :| IsRun(c, states, actions) && states[|actions|] == s;
    ExtendRun(c, states, actions, a, t);
  }

  lemma ExtendRun(c: Config, states: seq<State>, actions: seq<Action>, a: Action, t: State)
    requires IsRun(c, states, actions) && Enabled(c, states[|actions|], a) && t == Next(c, states[|actions|], a)
    ensures IsRun(c, states + [t], actions + [a]) && (states + [t])[|actions + [a]|] == t
  {
    forall i | 0 <= i < |actions + [a]|
      ensures Enabled(c, (states + [t])[i], (actions + [a])[i]) &&
        (states + [t])[i + 1] == Next(c, (states + [t])[i], (actions + [a])[i])
    {
      if i < |actions| {
        assert (states + [t])[i] == states[i] && (actions + [a])[i] == actions[i] &&
          (states + [t])[i + 1] == states[i + 1];
      }
    }
  }

  lemma BootStep(c: Config, s: State) returns (t: State)
    requires Reachable(c, s) && s.host.Boot? && BootCan(c, s, s.host.at, Go)
    ensures t == BootDo(c, s, Go) && Reachable(c, t)
  {
    t := BootDo(c, s, Go);
    Extend(c, s, Host(Go), t);
  }

  lemma SubmitStep(c: Config, s: State, e: Event) returns (t: State)
    requires Reachable(c, s) && s.host.Submit? && SubmitCan(c, s, s.host.step, e)
    ensures t == SubmitDo(c, s, e) && Reachable(c, t)
  {
    t := SubmitDo(c, s, e);
    Extend(c, s, Host(e), t);
  }

  lemma DspStep(c: Config, s: State) returns (t: State)
    requires Reachable(c, s) && DspCan(s)
    ensures t == DspDo(c, s, false) && Reachable(c, t)
  {
    t := DspDo(c, s, false);
    Extend(c, s, Dsp(false), t);
  }

  ghost predicate Blank(s: State) {
    s.books == Books({}, {}, {}, map[], [], {}, {}, {})
  }

  lemma PoweredOn(c: Config, word: nat) returns (s: State)
    ensures Reachable(c, s) && Init(s) && Blank(s) && s.word == word && !s.irq && s.consumed == {}
  {
    s := State(word, Junk, Unlocked, Dispatch, false, NoIrq, false, false, 0, {},
      Books({}, {}, {}, map[], [], {}, {}, {}));
    var states, actions: seq<Action> := [s], [];
    assert IsRun(c, states, actions) && states[|actions|] == s;
  }

  lemma Halted(c: Config, word: nat) returns (s: State)
    ensures Reachable(c, s) && Blank(s) && !s.off && !s.running && Fresh(s) && !s.irq
    ensures s.word == word && s.host == Boot(Load, Resume) && s.payload == Junk && s.consumed == {}
  {
    s := PoweredOn(c, word);
    s := Resuming(c, s);
    s := BootStep(c, s);
    assert s.host == Boot(Reset, Resume);
    s := BootStep(c, s);
  }

  lemma Resuming(c: Config, s: State) returns (t: State)
    requires Reachable(c, s) && s.host == Unlocked && !s.off
    ensures t == s.(host := Boot(Halt, Resume)) && Reachable(c, t)
  {
    t := s.(host := Boot(Halt, Resume));
    Extend(c, s, BeginResume, t);
  }

  /** Without a firmware name the word left in the communication area is taken for a
      command. */
  lemma StaleWordRuns(c: Config) returns (s: State)
    requires !c.firmware
    ensures Reachable(c, s) && !RunsPublished(s)
  {
    s := Halted(c, 1);
    s := BootStep(c, s);
    s := BootStep(c, s);
    assert s.running && s.dsp == Dispatch && s.word == 1;
    s := DspStep(c, s);
  }

  lemma Released(c: Config) returns (s: State)
    ensures Reachable(c, s) && Blank(s) && !s.off && s.running && Fresh(s) && !s.irq
    ensures s.word == SYNC_IDLE && s.host == Boot(Start, Resume)
  {
    s := Halted(c, 0);
    s := BootStep(c, s);
    if c.firmware {
      s := BootStep(c, s);
    }
    assert s.host == Boot(Release, Resume);
    s := BootStep(c, s);
  }

  lemma ReadyWritten(c: Config) returns (s: State)
    ensures Reachable(c, s) && Blank(s) && !s.off && s.running && s.dsp == AwaitData && !s.irq
    ensures s.word == SYNC_DSP_READY && s.host == Boot(AwaitReady, Resume)
  {
    s := Released(c);
    s := BootStep(c, s);
    s := DspStep(c, s);
    s := DspStep(c, s);
    s := DspStep(c, s);
  }

  lemma Exchanged(c: Config) returns (s: State)
    ensures Reachable(c, s) && Blank(s) && !s.off && s.running && s.dspIrq == c.deviceIrq
    ensures s.dsp == (if c.deviceIrq == NoIrq then SendIrq else AwaitIrq)
    ensures s.word == SYNC_DSP_TO_HOST && s.host == Boot(AwaitAck, Resume)
  {
    s := ReadyWritten(c);
    s := BootStep(c, s);
    s := BootStep(c, s);
    s := BootStep(c, s);
    s := DspStep(c, s);
    s := DspStep(c, s);
    s := DspStep(c, s);
  }

  lemma Synchronised(c: Config) returns (s: State)
    ensures Reachable(c, s) && Blank(s) && !s.off && s.running && s.dspIrq == c.deviceIrq
    ensures s.dsp == (if c.deviceIrq == NoIrq then SendIrq else AwaitIrq) && (c.deviceIrq != NoIrq ==> s.irq)
    ensures s.word == SYNC_IDLE && s.host == Unlocked
  {
    s := Exchanged(c);
    s := BootStep(c, s);
    assert s.host == Boot(PokeSync, Resume);
    s := BootStep(c, s);
    if c.hostIrq {
      s := BootStep(c, s);
    }
    assert s.host == Boot(SyncOk, Resume);
    s := BootStep(c, s);
  }

  lemma Booted(c: Config) returns (s: State)
    ensures Reachable(c, s) && Blank(s) && !s.off && s.running && s.dsp == SendIrq
    ensures s.word == SYNC_IDLE && s.host == Unlocked
  {
    s := Synchronised(c);
    if c.deviceIrq != NoIrq {
      s := DspStep(c, s);
      if c.deviceIrq == Level {
        s := DspStep(c, s);
      }
    }
  }

  lemma Submitted(c: Config) returns (s: State)
    ensures Reachable(c, s) && s.running && s.books == Books({}, {0}, {}, map[], [], {}, {}, {})
    ensures s.host == Submit(Check, 0) && s.dsp == Dispatch && !s.off
  {
    s := Booted(c);
    s := DspStep(c, s);
    s := Taken(c, s, 0);
  }

  /** A new request without a namespace is mapped and takes the lock. */
  lemma Taken(c: Config, s: State, r: Req) returns (t: State)
    requires Reachable(c, s) && s.host == Unlocked && r !in s.books.mapped && r !in s.books.returned &&
      r !in s.books.result
    requires r !in s.books.nsid
    ensures t == s.(host := Submit(Check, r), books := s.books.(mapped := s.books.mapped + {r})) && Reachable(c, t)
  {
    var m := s.(books := s.books.(mapped := s.books.mapped + {r}));
    assert s.books.nsid - {r} == s.books.nsid;
    Extend(c, s, Map(r, false), m);
    t := m.(host := Submit(Check, r));
    Extend(c, m, Take(r), t);
  }

  lemma Published(c: Config) returns (s: State)
    ensures Reachable(c, s) && s.running && s.books == Books({}, {0}, {}, map[], [], {}, {}, {})
    ensures s.host == Submit(Wait, 0) && s.dsp == Dispatch && s.word == 1 && s.payload == Command(0) && !s.off
  {
    s := Submitted(c);
    s := SubmitStep(c, s, Go);
    assert s.host == Submit(Fill, 0);
    s := SubmitStep(c, s, Go);
    assert s.host == Submit(Publish, 0);
    s := SubmitStep(c, s, Go);
    assert s.host == Submit(Poke, 0) && s.word == 1;
    s := SubmitStep(c, s, Go);
  }

  lemma Running(c: Config) returns (s: State)
    ensures Reachable(c, s) && s.running && s.books == Books({}, {0}, {}, map[], [0], {}, {}, {})
    ensures s.host == Submit(Wait, 0) && s.dsp == Run(1, Command(0)) && s.word == 1 && s.payload == Command(0) && !s.off
  {
    s := Published(c);
    s := DspStep(c, s);
  }

  /** With every setting a request can be answered, with a success and with a delivery
      failure. */
  lemma AnswersCome(c: Config, fail: bool) returns (s: State)
    ensures Reachable(c, s) && 0 in s.books.result
    ensures s.books.result[0] == if fail then DeliveryFailed else Success
  {
    var t := Running(c);
    s := t.(dsp := WriteDone(1, Command(0), fail));
    Extend(c, t, Dsp(fail), s);
    s := DspStep(c, s);
    assert s.host == Submit(Wait, 0) && s.word == AnswerWord(1, fail);
    s := SubmitStep(c, s, Go);
    s := SubmitStep(c, s, Go);
  }

  /** With every setting a failed handshake can turn the device off, and a request then finds no
      device. */
  lemma TurnedOff(c: Config) returns (s: State)
    ensures Reachable(c, s) && s.off && s.host == Unlocked && Blank(s)
  {
    var t := Released(c);
    s := t.(host := Boot(SyncFailed, Resume));
    Extend(c, t, Host(Fail), s);
    s := BootStep(c, s);
    assert s.host == Boot(HaltAgain, Resume);
    s := BootStep(c, s);
    assert s.host == Boot(TurnOff, Resume);
    s := BootStep(c, s);
  }

  lemma FindsNoDevice(c: Config) returns (s: State)
    ensures Reachable(c, s) && 0 in s.books.result && s.books.result[0] == NoDevice
  {
    var t := TurnedOff(c);
    t := Taken(c, t, 0);
    s := SubmitStep(c, t, Go);
  }

  /** The host gives up waiting for request 0 and leaves the DSP as it is. */
  lemma Leaves(c: Config, s: State) returns (t: State)
    requires !Kept(c) && Reachable(c, s) && s.host == Submit(Wait, 0)
    ensures Reachable(c, t) && exists res :: t == Finish(s, 0, res)
  {
    t := SubmitStep(c, s, if !c.reboot then Timeout else Signal);
  }

  /** Request 0 may be returned while the DSP runs it. */
  lemma LeftRunning(c: Config) returns (s: State)
    requires !Kept(c)
    ensures Reachable(c, s) && Uses(s, 0) && 0 in s.books.mapped && Enabled(c, s, Return(0))
    ensures s.books.accepted == [0] && s.books.completed == {} && s.books.flushed == {}
  {
    s := Running(c);
    s := SubmitStep(c, s, if !c.reboot then Timeout else Signal);
  }

  /** Without the reboot, or when a signal ends the wait, memory that the DSP is using goes
      back to the allocator. */
  lemma UsedMemoryReturned(c: Config) returns (s: State)
    requires !Kept(c)
    ensures Reachable(c, s) && !MemorySafe(s)
  {
    var t := LeftRunning(c);
    s := Next(c, t, Return(0));
    Extend(c, t, Return(0), s);
    assert Uses(s, 0) && 0 in s.books.returned;
  }

  /** The next request is filled in while the DSP still works on the one that was left. */
  lemma FilledWhileRunning(c: Config) returns (s: State)
    requires !Kept(c)
    ensures Reachable(c, s) && !Exclusive(s) && !RunsPublished(s)
    ensures s.host == Submit(Fill, 1) && s.dsp == Run(1, Command(0)) && s.running && s.books.accepted == [0] &&
      s.books.nsid == {}
  {
    var t := Running(c);
    t := Leaves(c, t);
    t := Taken(c, t, 1);
    s := SubmitStep(c, t, Go);
  }

  /** The late answer to request 0 comes while the host waits for the answer to request 1. */
  lemma LateAnswer(c: Config) returns (s: State)
    requires !Kept(c)
    ensures Reachable(c, s) && s.host == Submit(Wait, 1) && s.word == 3 && s.books.accepted == [0]
  {
    s := FilledWhileRunning(c);
    s := SubmitStep(c, s, Go);
    assert s.host == Submit(Publish, 1);
    s := SubmitStep(c, s, Go);
    assert s.host == Submit(Poke, 1);
    s := SubmitStep(c, s, Go);
    assert s.host == Submit(Wait, 1);
    s := DspStep(c, s);
    s := DspStep(c, s);
  }

  /** The late answer to the request that was left is taken for the answer to the next one. */
  lemma WrongAnswer(c: Config) returns (s: State)
    requires !Kept(c)
    ensures Reachable(c, s) && !ResultsTrue(s) && !AnsweredOnce(s)
  {
    s := LateAnswer(c);
    s := SubmitStep(c, s, Go);
    s := SubmitStep(c, s, Go);
    assert s.books.result[1] == Success && 1 !in s.books.accepted;
    assert multiset(s.books.accepted)[1] == 0;
  }

  /** Request 0 is left before the DSP saw it, and request 1 is filled in beside its word. */
  lemma FilledBesideOldWord(c: Config) returns (s: State)
    requires !Kept(c)
    ensures Reachable(c, s) && s.host == Submit(Publish, 1) && s.running && s.dsp == Dispatch && s.word == 1
    ensures s.payload == Command(1) && s.books.accepted == [] && s.books.nsid == {}
  {
    s := Published(c);
    s := Leaves(c, s);
    s := Taken(c, s, 1);
    s := SubmitStep(c, s, Go);
    assert s.host == Submit(Fill, 1);
    s := SubmitStep(c, s, Go);
  }

  /** The old word starts request 1 before it is published, and its own word starts it
      again. */
  lemma StartedEarly(c: Config) returns (s: State)
    requires !Kept(c)
    ensures Reachable(c, s) && s.host == Submit(Publish, 1) && s.running && s.dsp == Dispatch
    ensures s.payload == Command(1) && s.books.accepted == [1] && s.books.nsid == {}
  {
    s := FilledBesideOldWord(c);
    s := DspStep(c, s);
    assert s.books.accepted == [1] && s.dsp == Run(1, Command(1));
    s := DspStep(c, s);
    s := DspStep(c, s);
    s := DspStep(c, s);
  }

  lemma AcceptedTwice(c: Config) returns (s: State)
    requires !Safe(c)
    ensures Reachable(c, s) && !AcceptedOnce(s)
  {
    if !Kept(c) {
      s := StartedEarly(c);
      s := SubmitStep(c, s, Go);
      s := DspStep(c, s);
      assert s.books.accepted == [1, 1];
    } else {
      s := Running(c);
      s := SubmitStep(c, s, Timeout);
      s := Restarted(c, s);
      s := DspStep(c, s);
      assert s.books.accepted == [0, 0];
    }
    assert s.books.accepted[0] == s.books.accepted[1];
  }

  /** Without a firmware name the DSP comes out of the reset with the old word before it. */
  lemma Restarted(c: Config, s: State) returns (t: State)
    requires !c.firmware && Reachable(c, s) && s.host == Boot(Halt, Recover(0))
    ensures Reachable(c, t) && t.running && t.dsp == Dispatch && t.word == s.word && t.payload == s.payload
    ensures t.books.accepted == s.books.accepted
  {
    t := BootStep(c, s);
    t := BootStep(c, t);
    assert t.host == Boot(Load, Recover(0));
    t := BootStep(c, t);
    t := BootStep(c, t);
  }

  /** Without a firmware name, the answer to a command found at the start can look like the
      DSP's part of the handshake. */
  lemma FalseReady(c: Config) returns (s: State)
    requires !c.firmware
    ensures Reachable(c, s) && s.running && s.consumed == {} && s.dspIrq == NoIrq
    ensures s.host == Boot(AwaitReady, Resume) && s.word == SYNC_DSP_READY && s.dsp == SendDone
  {
    s := Halted(c, 0x201);
    s := BootStep(c, s);
    s := BootStep(c, s);
    assert s.host == Boot(Start, Resume) && s.running && s.dsp == Dispatch;
    s := DspStep(c, s);
    assert s.dsp == Run(0x201, Junk);
    s := BootStep(c, s);
    s := DspStep(c, s);
    s := DspStep(c, s);
  }

  lemma DataOut(c: Config) returns (s: State)
    requires !c.firmware
    ensures Reachable(c, s) && s.running && s.consumed == {} && s.dspIrq == NoIrq
    ensures s.host == Boot(AwaitAck, Resume) && s.word == 1 && s.dsp == SendDone
  {
    s := FalseReady(c);
    s := BootStep(c, s);
    s := BootStep(c, s);
    s := BootStep(c, s);
  }

  /** The DSP takes the sync data for a command and answers it. */
  lemma DataTakenForCommand(c: Config) returns (s: State)
    requires !c.firmware
    ensures Reachable(c, s) && s.consumed == {} && s.host == Boot(AwaitAck, Resume) && s.word == SYNC_DSP_TO_HOST
  {
    s := DataOut(c);
    s := DspStep(c, s);
    s := DspStep(c, s);
    assert s.dsp.Run? && s.dsp.flags == 1;
    s := DspStep(c, s);
    s := DspStep(c, s);
  }

  lemma SyncedUnread(c: Config) returns (s: State)
    requires !c.firmware
    ensures Reachable(c, s) && !SyncOrdered(s)
  {
    s := DataTakenForCommand(c);
    s := BootStep(c, s);
    assert s.host == Boot(PokeSync, Resume);
    s := BootStep(c, s);
    if c.hostIrq {
      s := BootStep(c, s);
    }
    assert s.host == Boot(SyncOk, Resume) && s.consumed == {};
  }

  // ----- the exact settings for each promise -----

  /** The payload is exclusive exactly when no request is left early. */
  lemma ExclusiveIff(c: Config)
    ensures (forall s :: Reachable(c, s) ==> Exclusive(s)) <==> Kept(c)
  {
    if Kept(c) {
      forall s | Reachable(c, s) ensures Exclusive(s) { KeptRuns(c, s); }
    } else {
      var s := FilledWhileRunning(c);
    }
  }

  /** Memory goes back too early exactly when a request can be left early. */
  lemma MemoryIff(c: Config)
    ensures (forall s :: Reachable(c, s) ==> MemorySafe(s)) <==> Kept(c)
  {
    if Kept(c) {
      forall s | Reachable(c, s) ensures MemorySafe(s) { KeptRuns(c, s); }
    } else {
      var s := UsedMemoryReturned(c);
    }
  }

  /** Reported results are true exactly when no request is left early. */
  lemma ResultsIff(c: Config)
    ensures (forall s :: Reachable(c, s) ==> ResultsTrue(s)) <==> Kept(c)
  {
    if Kept(c) {
      forall s | Reachable(c, s) ensures ResultsTrue(s) { KeptRuns(c, s); }
    } else {
      var s := WrongAnswer(c);
    }
  }

  /** Requests reported as answered were accepted exactly once, if and only if no request is
      left early. */
  lemma AnsweredOnceIff(c: Config)
    ensures (forall s :: Reachable(c, s) ==> AnsweredOnce(s)) <==> Kept(c)
  {
    if Kept(c) {
      forall s | Reachable(c, s) ensures AnsweredOnce(s) {
        var states, actions :| IsRun(c, states, actions) && states[|actions|] == s;
        RunOnce(c, states, actions, |actions|);
      }
    } else {
      var s := WrongAnswer(c);
    }
  }

  /** Requests are accepted at most once exactly under safe settings. */
  lemma OnceIff(c: Config)
    ensures (forall s :: Reachable(c, s) ==> AcceptedOnce(s)) <==> Safe(c)
  {
    if Safe(c) {
      forall s | Reachable(c, s) ensures AcceptedOnce(s) { SafeRunsAreGood(c, s); }
    } else {
      var s := AcceptedTwice(c);
    }
  }

  /** The DSP runs only what was published exactly under safe settings. */
  lemma PublishedIff(c: Config)
    ensures (forall s :: Reachable(c, s) ==> RunsPublished(s)) <==> Safe(c)
  {
    if Safe(c) {
      forall s | Reachable(c, s) ensures RunsPublished(s) { SafeRunsAreGood(c, s); }
    } else if !c.firmware {
      var s := StaleWordRuns(c);
    } else {
      var s := FilledWhileRunning(c);
    }
  }

  /** The handshake is ordered exactly when there is a firmware name. */
  lemma OrderedIff(c: Config)
    ensures (forall s :: Reachable(c, s) ==> SyncOrdered(s)) <==> c.firmware
  {
    if c.firmware {
      forall s | Reachable(c, s) ensures SyncOrdered(s) { HandshakeOrdered(c, s); }
    } else {
      var s := SyncedUnread(c);
    }
  }

  /** Every reachable state is good if and only if the settings are safe. */
  lemma GoodIffSafe(c: Config)
    ensures (forall s :: Reachable(c, s) ==> Good(s)) <==> Safe(c)
  {
    if Safe(c) {
      forall s | Reachable(c, s) ensures Good(s) { SafeRunsAreGood(c, s); }
    } else {
      var s := AcceptedTwice(c);
    }
  }
}
