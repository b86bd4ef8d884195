/** The command protocol between the host driver and the DSP as a step relation: two program
    counters, the shared word that is sync word and command flags at once, the rest of the
    communication area, the device interrupt latch, timeouts, signals and reboots. */
module Protocol {

  // ----- the shared word -----

  const SYNC_IDLE: nat := 0
  const SYNC_HOST_TO_DSP: nat := 0x1
  const SYNC_DSP_TO_HOST: nat := 0x3
  const SYNC_START: nat := 0x101
  const SYNC_DSP_READY: nat := 0x203

  /** `REQUEST_VALID` without `RESPONSE_VALID`: the DSP's turn. */
  predicate Pending(w: nat) { w % 4 == 1 }

  /** `REQUEST_VALID` with `RESPONSE_VALID`: the host's turn. */
  predicate Answered(w: nat) { w % 4 == 3 }

  function CommandWord(nsid: bool): nat { if nsid then 5 else 1 }

  function AnswerWord(flags: nat, fail: bool): nat { flags + 2 + (if fail then 8 else 0) }

  predicate DeliveryFail(w: nat) { w % 16 >= 8 }

  // ----- configuration and state -----

  datatype IrqMode = NoIrq | Level | Edge

  /** `reboot` and `firmware` are the driver's settings, `hostIrq` selects the interruptible
      wait, and `signals` says whether a signal can reach a process in that wait. */
  datatype Config = Config(reboot: bool, firmware: bool, hostIrq: bool, signals: bool, deviceIrq: IrqMode)

  type Req = nat

  /** What the communication area beyond the shared word holds. */
  datatype Payload = Junk | Sync(attempt: nat) | Command(req: Req)

  /** Why the firmware is booted: on resume, or after request `req` timed out. */
  datatype Purpose = Resume | Recover(req: Req)

  datatype BootAt =
    | Halt | Reset | Load | WriteIdle | Release
    | Start | AwaitReady | WriteData | PublishData | AwaitAck | PokeSync | AwaitHostIrq | SyncOk
    | SyncFailed | HaltAgain | TurnOff

  datatype SubmitAt = Check | Fill | Publish | Poke | Wait | Read

  /** The holder of the communication lock, if any. */
  datatype HostPc = Unlocked | Boot(at: BootAt, why: Purpose) | Submit(step: SubmitAt, req: Req)

  datatype DspPc =
    | Dispatch | Idle | IdleAck
    | AwaitStart | WriteReady | AwaitData | ReadData | WriteAck | AwaitIrq | IrqAck | SendIrq
    | Run(flags: nat, input: Payload) | WriteDone(flags: nat, input: Payload, fail: bool) | SendDone

  datatype Result = Success | DeliveryFailed | NoDevice | Busy | Interrupted | BootFailed(off: bool)

  /** The requests: their namespace flag, whether their memory is lent or given back, what
      was reported, and what the DSP did with them. */
  datatype Books = Books(
    nsid: set<Req>, mapped: set<Req>, returned: set<Req>, result: map<Req, Result>,
    accepted: seq<Req>, completed: set<Req>, failed: set<Req>, flushed: set<Req>)

  datatype State = State(
    word: nat, payload: Payload,
    host: HostPc, dsp: DspPc, running: bool, dspIrq: IrqMode,
    irq: bool, off: bool,
    attempt: nat, consumed: set<Payload>,
    books: Books)

  function Report(b: Books, r: Req, res: Result): Books {
    b.(result := b.result[r := res])
  }

  datatype Event = Go | Timeout | Signal | Fail

  /** `Map` lends the memory of a new request; `Take` gives it the lock; `Return` gives its
      memory back. `Host` and `Dsp` are one step of the lock holder and of the DSP. */
  datatype Action =
    | Map(req: Req, ns: bool) | Take(req: Req) | BeginResume | Suspend | Return(req: Req)
    | Host(event: Event) | Dsp(fails: bool)

  ghost predicate Init(s: State) {
    && s.host == Unlocked && s.dsp == Dispatch && !s.running && !s.off && s.dspIrq == NoIrq
    && s.books == Books({}, {}, {}, map[], [], {}, {}, {}) && s.payload == Junk
    && s.attempt == 0 && s.consumed == {}
  }

  // ----- the host -----

  /** Waits end when the word has the value waited for, or time out. Loading the firmware and
      allocating the sync data can fail; `Fail` at the reset means that the interrupt latch is
      cleared with it. */
  predicate BootCan(c: Config, s: State, at: BootAt, e: Event) {
    match e
    case Go => (at == AwaitReady ==> s.word == SYNC_DSP_READY) && (at == AwaitAck ==> s.word == SYNC_DSP_TO_HOST)
    case Timeout => at == AwaitReady || at == AwaitAck || at == AwaitHostIrq
    case Fail => (at == Load && c.firmware) || at == Start || at == Reset
    case Signal => false
  }

  /** The wait for the answer can end with a timeout, and with a signal when it is
      interruptible. */
  predicate SubmitCan(c: Config, s: State, at: SubmitAt, e: Event) {
    match e
    case Go => at == Wait ==> Answered(s.word)
    case Timeout => at == Wait
    case Signal => at == Wait && c.hostIrq && c.signals
    case Fail => false
  }

  function Goto(s: State, at: BootAt): State
    requires s.host.Boot?
  {
    s.(host := Boot(at, s.host.why))
  }

  /** `xrp_boot_firmware` returns: to the resume path, or to the request that timed out. */
  function BootReturns(s: State, ok: bool): State
    requires s.host.Boot?
  {
    match s.host.why
    case Resume => s.(host := Unlocked)
    case Recover(r) => s.(host := Unlocked, books := Report(s.books, r, if ok then Busy else BootFailed(s.off)))
  }

  /** A reset wipes the DSP's registers; a command it was running is flushed. */
  function ResetDsp(s: State, keepsIrq: bool): State {
    var lost :=
      if (s.dsp.Run? || s.dsp.WriteDone?) && s.dsp.input.Command? then {s.dsp.input.req} else {};
    s.(dsp := Dispatch, dspIrq := NoIrq, irq := s.irq && keepsIrq,
       books := s.books.(flushed := s.books.flushed + lost))
  }

  function BootDo(c: Config, s: State, e: Event): State
    requires s.host.Boot?
  {
    match s.host.at
    case Halt => Goto(s.(running := false), Reset)
    case Reset => Goto(ResetDsp(s, e == Go), Load)
    case Load =>
      if e == Fail then BootReturns(s, false) else Goto(s, if c.firmware then WriteIdle else Release)
    case WriteIdle => Goto(s.(word := SYNC_IDLE), Release)
    case Release => Goto(s.(running := true), Start)
    case Start =>
      if e == Fail then Goto(s, SyncFailed)
      else Goto(s.(word := SYNC_START, attempt := s.attempt + 1), AwaitReady)
    case AwaitReady =>
      if e == Timeout then Goto(s, SyncFailed) else Goto(s.(payload := Junk), WriteData)
    case WriteData => Goto(s.(payload := Sync(s.attempt)), PublishData)
    case PublishData => Goto(s.(word := SYNC_HOST_TO_DSP), AwaitAck)
    case AwaitAck => Goto(s, if e == Timeout then SyncFailed else PokeSync)
    case PokeSync => Goto(SendDeviceIrq(c, s), if c.hostIrq then AwaitHostIrq else SyncOk)
    case AwaitHostIrq => Goto(s, if e == Timeout then SyncFailed else SyncOk)
    case SyncOk => BootReturns(s.(word := SYNC_IDLE), true)
    case SyncFailed => Goto(s.(word := SYNC_IDLE), HaltAgain)
    case HaltAgain => Goto(s.(running := false), TurnOff)
    case TurnOff => BootReturns(s.(off := true), false)
  }

  function SendDeviceIrq(c: Config, s: State): State {
    s.(irq := s.irq || c.deviceIrq != NoIrq)
  }

  function Finish(s: State, r: Req, res: Result): State {
    s.(host := Unlocked, books := Report(s.books, r, res))
  }

  function SubmitDo(c: Config, s: State, e: Event): State
    requires s.host.Submit?
  {
    var r := s.host.req;
    match s.host.step
    case Check => if s.off then Finish(s, r, NoDevice) else s.(payload := Junk, host := Submit(Fill, r))
    case Fill => s.(payload := Command(r), host := Submit(Publish, r))
    case Publish => s.(word := CommandWord(r in s.books.nsid), host := Submit(Poke, r))
    case Poke => SendDeviceIrq(c, s).(host := Submit(Wait, r))
    case Wait =>
      if e == Timeout then
        if c.reboot then s.(host := Boot(Halt, Recover(r))) else Finish(s, r, Busy)
      else if e == Signal then Finish(s, r, Interrupted)
      else s.(host := Submit(Read, r))
    case Read => Finish(s, r, if DeliveryFail(s.word) then DeliveryFailed else Success)
  }

  // ----- the DSP -----

  predicate DspCan(s: State) {
    && s.running
    && (s.dsp == Idle || s.dsp == AwaitIrq ==> s.irq)
    && (s.dsp == AwaitStart ==> s.word == SYNC_START)
    && (s.dsp == AwaitData ==> s.word != SYNC_DSP_READY)
  }

  function Accept(s: State): State {
    var t := s.(dsp := Run(s.word, s.payload));
    if s.payload.Command? then t.(books := s.books.(accepted := s.books.accepted + [s.payload.req])) else t
  }

  function Completes(b: Books, r: Req, fail: bool): Books {
    b.(completed := b.completed + {r}, failed := if fail then b.failed + {r} else b.failed)
  }

  function DspDo(c: Config, s: State, fails: bool): State {
    match s.dsp
    case Dispatch =>
      if Pending(s.word) then
        if s.word == SYNC_START then s.(dsp := AwaitStart) else Accept(s)
      else if s.dspIrq == NoIrq then s else s.(dsp := Idle)
    case Idle => if s.dspIrq == Level then s.(dsp := IdleAck) else s.(dsp := Dispatch, irq := false)
    case IdleAck => s.(dsp := Dispatch, irq := false)
    case AwaitStart => s.(dsp := WriteReady)
    case WriteReady => s.(word := SYNC_DSP_READY, dsp := AwaitData)
    case AwaitData => s.(dsp := if s.word == SYNC_HOST_TO_DSP then ReadData else Dispatch)
    case ReadData => s.(dspIrq := c.deviceIrq, consumed := s.consumed + {s.payload}, dsp := WriteAck)
    case WriteAck => s.(word := SYNC_DSP_TO_HOST, dsp := if s.dspIrq == NoIrq then SendIrq else AwaitIrq)
    case AwaitIrq => if s.dspIrq == Level then s.(dsp := IrqAck) else s.(dsp := SendIrq, irq := false)
    case IrqAck => s.(dsp := SendIrq, irq := false)
    case SendIrq => s.(dsp := Dispatch)
    case Run(w, p) => s.(dsp := WriteDone(w, p, fails))
    case WriteDone(w, p, f) =>
      s.(word := AnswerWord(w, f), dsp := SendDone,
         books := if p.Command? then Completes(s.books, p.req, f) else s.books)
    case SendDone => s.(dsp := Dispatch)
  }

  // ----- runs -----

  predicate Enabled(c: Config, s: State, a: Action) {
    match a
    case Map(r, _) => r !in s.books.mapped && r !in s.books.returned
    case Take(r) => s.host == Unlocked && r in s.books.mapped && r !in s.books.result
    case BeginResume => s.host == Unlocked && !s.off
    case Suspend => s.host == Unlocked
    case Return(r) => r in s.books.mapped && r in s.books.result && s.books.result[r] != BootFailed(true)
    case Host(e) =>
      match s.host {
        case Unlocked => false
        case Boot(at, _) => BootCan(c, s, at, e)
        case Submit(step, _) => SubmitCan(c, s, step, e)
      }
    case Dsp(_) => DspCan(s)
  }

  function Next(c: Config, s: State, a: Action): State
    requires Enabled(c, s, a)
  {
    match a
    case Map(r, ns) =>
      var nsid := if ns then s.books.nsid + {r} else s.books.nsid - {r};
      s.(books := s.books.(mapped := s.books.mapped + {r}, nsid := nsid))
    case Take(r) => s.(host := Submit(Check, r))
    case BeginResume => s.(host := Boot(Halt, Resume))
    case Suspend => s.(running := false)
    case Return(r) => s.(books := s.books.(mapped := s.books.mapped - {r}, returned := s.books.returned + {r}))
    case Host(e) => if s.host.Boot? then BootDo(c, s, e) else SubmitDo(c, s, e)
    case Dsp(f) => DspDo(c, s, f)
  }

  /** A run: every step is enabled and leads to the next state. */
  ghost predicate IsRun(c: Config, states: seq<State>, actions: seq<Action>) {
    && |states| == |actions| + 1
    && Init(states[0])
    && forall i {:trigger actions[i]} :: 0 <= i < |actions| ==>
      Enabled(c, states[i], actions[i]) && states[i + 1] == Next(c, states[i], actions[i])
  }

  ghost predicate Reachable(c: Config, s: State) {
    exists states, actions :: IsRun(c, states, actions) && states[|actions|] == s
  }

  // ----- what is promised of every reachable state -----

  predicate HostTouches(s: State) {
    || (s.host.Boot? && s.host.at == WriteData)
    || (s.host.Submit? && (s.host.step == Fill || s.host.step == Read))
  }

  predicate DspTouches(s: State) {
    s.running && (s.dsp == ReadData || s.dsp.Run?)
  }

  /** Host and DSP never work on the payload at the same time. */
  ghost predicate Exclusive(s: State) { !(HostTouches(s) && DspTouches(s)) }

  /** Request `r` is in the hands of the DSP. */
  predicate Uses(s: State, r: Req) {
    (s.dsp.Run? || s.dsp.WriteDone?) && s.dsp.input == Command(r)
  }

  ghost predicate AcceptedOnce(s: State) {
    forall i, j :: 0 <= i < j < |s.books.accepted| ==> s.books.accepted[i] != s.books.accepted[j]
  }

  /** Memory goes back only when the DSP completed the request, never saw it, or was reset
      after accepting it; and what the DSP holds has not gone back. */
  ghost predicate MemorySafe(s: State) {
    && (forall r :: r in s.books.returned ==> r !in s.books.accepted || r in s.books.completed || r in s.books.flushed)
    && (forall r :: Uses(s, r) ==> r in s.books.mapped && r !in s.books.returned)
  }

  /** The DSP runs published requests only, with the flags and the payload the host wrote. */
  ghost predicate RunsPublished(s: State) {
    s.running && (s.dsp.Run? || s.dsp.WriteDone?) ==>
      && s.dsp.input.Command? && s.dsp.input == s.payload
      && s.dsp.flags == CommandWord(s.dsp.input.req in s.books.nsid)
  }

  /** A reported answer is the one that the DSP gave; a missing device never saw the request
      and is off, as it is when a request was abandoned. */
  ghost predicate ResultsTrue(s: State) {
    forall r :: r in s.books.result ==>
      match s.books.result[r]
      case Success => r in s.books.accepted && r in s.books.completed && r !in s.books.failed
      case DeliveryFailed => r in s.books.accepted && r in s.books.completed && r in s.books.failed
      case NoDevice => r !in s.books.accepted && s.off
      case BootFailed(true) => s.off
      case _ => true
  }

  /** Sync data is read only when complete, and success means it was read. */
  ghost predicate SyncOrdered(s: State) {
    && (s.running && s.dsp == ReadData ==> s.payload == Sync(s.attempt) && s.word != SYNC_START)
    && (s.host.Boot? && s.host.at == SyncOk ==> Sync(s.attempt) in s.consumed)
  }

  /** A blocked DSP with a request to serve has an interrupt latched or on its way. */
  ghost predicate NoLostWakeup(s: State) {
    && (s.running && s.dsp == Idle && Pending(s.word) ==> s.irq || (s.host.Submit? && s.host.step == Poke))
    && (s.running && s.dsp == AwaitIrq ==>
          s.irq || (s.host.Boot? &&
            (s.host.at.AwaitAck? || s.host.at.PokeSync? || s.host.at.SyncFailed? || s.host.at.HaltAgain?)))
  }

  ghost predicate Good(s: State) {
    && Exclusive(s)
    && AcceptedOnce(s)
    && MemorySafe(s)
    && RunsPublished(s)
    && ResultsTrue(s)
    && SyncOrdered(s)
    && NoLostWakeup(s)
    && (s.off ==> !s.running && (s.host == Unlocked || (s.host.Submit? && s.host.step == Check)))
  }

  /** The host leaves a request only when it is answered or the DSP was reset. */
  predicate Kept(c: Config) {
    c.reboot && !(c.hostIrq && c.signals)
  }

  /** The settings under which every reachable state is good. */
  predicate Safe(c: Config) {
    Kept(c) && c.firmware
  }
}
