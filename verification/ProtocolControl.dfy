/** The control flow of host and DSP around the shared word and the interrupt, with every
    setting of the driver: who may be where, and that nobody waits for a lost interrupt. */
module ProtocolControl {
  import opened Protocol

  /** The DSP is between requests: in its dispatch loop or on the way back to it. */
  predicate Resting(d: DspPc) {
    d.Dispatch? || d.Idle? || d.IdleAck? || d.AwaitIrq? || d.IrqAck? || d.SendIrq? || d.SendDone?
  }

  predicate DspBusy(d: DspPc) { d.Run? || d.WriteDone? }

  /** A command that the DSP runs was accepted with a word of the host's turn. */
  predicate Sound(d: DspPc) { DspBusy(d) ==> Pending(d.flags) }

  predicate Fresh(s: State) { s.dsp == Dispatch && s.dspIrq == NoIrq }

  /** Outside the boot a running DSP is past its handshake. */
  predicate Settled(s: State) {
    s.running ==> s.word != SYNC_START && (Resting(s.dsp) || DspBusy(s.dsp)) && Sound(s.dsp)
  }

  /** The DSP is out of reset and the host has not written the word yet. Without a firmware
      name the word is what was left there, and the DSP may act on it. */
  predicate Started(c: Config, s: State) {
    && s.dspIrq == NoIrq
    && if c.firmware then s.dsp == Dispatch && s.word == SYNC_IDLE
       else
         || s.dsp == Dispatch
         || ((s.dsp == AwaitStart || s.dsp == WriteReady) && s.word == SYNC_START)
         || (s.dsp == AwaitData && s.word == SYNC_DSP_READY)
         || (DspBusy(s.dsp) && Pending(s.dsp.flags))
         || (s.dsp == SendDone && Answered(s.word))
  }

  /** The host has asked for the handshake. */
  predicate Opening(c: Config, s: State) {
    && s.dspIrq == NoIrq
    && ( || (s.word == SYNC_START && (s.dsp == Dispatch || s.dsp == AwaitStart || s.dsp == WriteReady))
         || (s.word == SYNC_DSP_READY && s.dsp == AwaitData)
         || (!c.firmware && s.word == SYNC_START &&
           (s.dsp == AwaitData || s.dsp == SendDone || (DspBusy(s.dsp) && Pending(s.dsp.flags))))
         || (!c.firmware && Answered(s.word) && (s.dsp == Dispatch || s.dsp == SendDone)))
  }

  /** The host has seen what it takes for the DSP's answer. */
  predicate Opened(c: Config, s: State) {
    s.dspIrq == NoIrq && s.word == SYNC_DSP_READY &&
      (s.dsp == AwaitData || (!c.firmware && (s.dsp == Dispatch || s.dsp == SendDone)))
  }

  predicate Acknowledged(c: Config, s: State) {
    s.word == SYNC_DSP_TO_HOST && Resting(s.dsp) && (c.firmware ==> Sync(s.attempt) in s.consumed)
  }

  /** The sync data is out. A DSP that never opened the handshake takes it for a command. */
  predicate Exchanging(c: Config, s: State) {
    && s.payload == Sync(s.attempt)
    && ( || (s.word == SYNC_HOST_TO_DSP && (s.dsp == AwaitData || s.dsp == ReadData))
         || (s.word == SYNC_HOST_TO_DSP && s.dsp == WriteAck && Sync(s.attempt) in s.consumed)
         || (!c.firmware && s.dspIrq == NoIrq && s.word == SYNC_HOST_TO_DSP &&
           (s.dsp == Dispatch || s.dsp == SendDone || (DspBusy(s.dsp) && Pending(s.dsp.flags))))
         || (!c.firmware && s.dspIrq == NoIrq && Answered(s.word) && (s.dsp == Dispatch || s.dsp == SendDone))
         || Acknowledged(c, s))
  }

  ghost predicate BootControl(c: Config, s: State)
    requires s.host.Boot?
  {
    && !s.off
    && match s.host.at
       case Halt => Settled(s)
       case Reset => !s.running
       case Load => !s.running && Fresh(s)
       case WriteIdle => !s.running && Fresh(s) && c.firmware
       case Release => !s.running && Fresh(s) && (c.firmware ==> s.word == SYNC_IDLE)
       case Start => s.running && Started(c, s)
       case AwaitReady => s.running && Opening(c, s)
       case WriteData => s.running && Opened(c, s)
       case PublishData => s.running && Opened(c, s) && s.payload == Sync(s.attempt)
       case AwaitAck => s.running && Exchanging(c, s)
       case PokeSync => s.running && Acknowledged(c, s)
       case AwaitHostIrq => s.running && Acknowledged(c, s)
       case SyncOk => s.running && Acknowledged(c, s)
       case SyncFailed => s.running && (Started(c, s) || Opening(c, s) || Exchanging(c, s) || Acknowledged(c, s))
       case HaltAgain =>
         && s.running && !Pending(s.word) && Sound(s.dsp) && (c.firmware ==> !DspBusy(s.dsp))
         && (s.dsp == ReadData ==> s.payload == Sync(s.attempt))
       case TurnOff => !s.running && (c.firmware ==> !DspBusy(s.dsp))
  }

  ghost predicate Control(c: Config, s: State) {
    match s.host
    case Unlocked => Settled(s)
    case Boot(_, _) => BootControl(c, s)
    case Submit(_, _) => Settled(s)
  }

  ghost predicate Wired(c: Config, s: State) {
    && (s.dspIrq == NoIrq || s.dspIrq == c.deviceIrq)
    && (s.dsp.Idle? || s.dsp.IdleAck? || s.dsp.AwaitIrq? || s.dsp.IrqAck? ==> s.dspIrq != NoIrq)
    && NoLostWakeup(s)
    && (s.off ==> !s.running)
  }

  ghost predicate Machine(c: Config, s: State) {
    Control(c, s) && Wired(c, s)
  }

  // ----- host steps -----

  lemma SubmitMachine(c: Config, s: State, e: Event)
    requires Machine(c, s) && s.host.Submit? && SubmitCan(c, s, s.host.step, e) && (s.host.step != Check ==> !s.off)
    ensures Machine(c, SubmitDo(c, s, e))
  {
  }

  /** Up to the release of the DSP. */
  predicate Early(at: BootAt) {
    at.Halt? || at.Reset? || at.Load? || at.WriteIdle? || at.Release?
  }

  /** From the end of the handshake on. */
  predicate Late(at: BootAt) {
    at.SyncOk? || at.SyncFailed? || at.HaltAgain? || at.TurnOff?
  }

  lemma BootControls(c: Config, s: State, e: Event)
    requires s.host.Boot? && BootControl(c, s) && BootCan(c, s, s.host.at, e)
    ensures Control(c, BootDo(c, s, e))
  {
    if Early(s.host.at) {
      BootEarly(c, s, e);
    } else if Late(s.host.at) {
      BootLate(c, s, e);
    } else {
      BootMiddle(c, s, e);
    }
  }

  lemma BootEarly(c: Config, s: State, e: Event)
    requires s.host.Boot? && BootControl(c, s) && BootCan(c, s, s.host.at, e) && Early(s.host.at)
    ensures Control(c, BootDo(c, s, e))
  {
  }

  lemma BootMiddle(c: Config, s: State, e: Event)
    requires s.host.Boot? && BootControl(c, s) && BootCan(c, s, s.host.at, e)
    requires !Early(s.host.at) && !Late(s.host.at)
    ensures Control(c, BootDo(c, s, e))
  {
  }

  lemma BootLate(c: Config, s: State, e: Event)
    requires s.host.Boot? && BootControl(c, s) && BootCan(c, s, s.host.at, e) && Late(s.host.at)
    ensures Control(c, BootDo(c, s, e))
  {
  }

  lemma BootWired(c: Config, s: State, e: Event)
    requires Wired(c, s) && s.host.Boot? && BootControl(c, s) && BootCan(c, s, s.host.at, e)
    ensures Wired(c, BootDo(c, s, e))
  {
  }

  // ----- DSP steps -----

  lemma DspSettled(c: Config, s: State, f: bool)
    requires Settled(s) && DspCan(s)
    ensures Settled(DspDo(c, s, f))
  {
  }

  lemma DspBoot(c: Config, s: State, f: bool)
    requires s.host.Boot? && BootControl(c, s) && DspCan(s)
    ensures DspDo(c, s, f).host == s.host && BootControl(c, DspDo(c, s, f))
  {
    match s.host.at
    case Halt => DspSettled(c, s, f);
    case Start => DspStarted(c, s, f);
    case AwaitReady => DspOpening(c, s, f);
    case AwaitAck => DspExchanging(c, s, f);
    case SyncFailed => DspFailing(c, s, f);
    case _ => DspOther(c, s, f);
  }

  lemma DspStarted(c: Config, s: State, f: bool)
    requires Started(c, s) && DspCan(s)
    ensures Started(c, DspDo(c, s, f))
  {
  }

  lemma DspOpening(c: Config, s: State, f: bool)
    requires Opening(c, s) && DspCan(s)
    ensures Opening(c, DspDo(c, s, f))
  {
  }

  lemma DspExchanging(c: Config, s: State, f: bool)
    requires Exchanging(c, s) && DspCan(s)
    ensures Exchanging(c, DspDo(c, s, f))
  {
  }

  lemma DspAcknowledged(c: Config, s: State, f: bool)
    requires Acknowledged(c, s) && DspCan(s)
    ensures Acknowledged(c, DspDo(c, s, f))
  {
  }

  lemma DspFailing(c: Config, s: State, f: bool)
    requires s.host.Boot? && s.host.at == SyncFailed && BootControl(c, s) && DspCan(s)
    ensures BootControl(c, DspDo(c, s, f))
  {
    if Started(c, s) {
      DspStarted(c, s, f);
    } else if Opening(c, s) {
      DspOpening(c, s, f);
    } else if Exchanging(c, s) {
      DspExchanging(c, s, f);
    } else {
      DspAcknowledged(c, s, f);
    }
  }

  lemma DspOther(c: Config, s: State, f: bool)
    requires s.host.Boot? && BootControl(c, s) && DspCan(s)
    requires s.host.at.WriteData? || s.host.at.PublishData? || s.host.at.PokeSync? || s.host.at.AwaitHostIrq?
      || s.host.at.SyncOk? || s.host.at.HaltAgain?
    ensures BootControl(c, DspDo(c, s, f))
  {
  }

  lemma DspControls(c: Config, s: State, f: bool)
    requires Control(c, s) && DspCan(s)
    ensures Control(c, DspDo(c, s, f))
  {
    if s.host.Boot? { DspBoot(c, s, f); } else { DspSettled(c, s, f); }
  }

  lemma DspWired(c: Config, s: State, f: bool)
    requires Machine(c, s) && DspCan(s)
    ensures Wired(c, DspDo(c, s, f))
  {
  }

  // ----- every run -----

  lemma MachineStep(c: Config, s: State, a: Action)
    requires Machine(c, s) && Enabled(c, s, a) && (s.host.Submit? && s.host.step != Check ==> !s.off)
    ensures Machine(c, Next(c, s, a))
  {
    match a
    case Host(e) =>
      if s.host.Boot? {
        BootControls(c, s, e);
        BootWired(c, s, e);
      } else {
        SubmitMachine(c, s, e);
      }
    case Dsp(f) =>
      DspControls(c, s, f);
      DspWired(c, s, f);
    case _ =>
  }
}
