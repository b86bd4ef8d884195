/** What the books and the reported results say about the steps of the run: each entry stands for
    a step that was taken, and each such step leaves its entry. */
module ProtocolHistory {
  import opened Histories
  import opened Protocol
  import opened ProtocolAlways
  import opened ProtocolControl
  import opened ProtocolProof
  import ProtocolRuns

  // ----- the books -----

  datatype Entry = Mapped | Named | GivenBack | Accepted | Completed | Failed | Flushed

  /** The books have the entry for request `r`. */
  predicate Booked(b: Books, e: Entry, r: Req) {
    match e
    case Mapped => r in b.mapped || r in b.returned
    case Named => r in b.nsid
    case GivenBack => r in b.returned
    case Accepted => r in b.accepted
    case Completed => r in b.completed
    case Failed => r in b.failed
    case Flushed => r in b.flushed
  }

  /** The step is the one that the entry stands for: the request is mapped, with a namespace if
      `Named`, or returned; the DSP finds it published, finishes it, or is reset while it has it. */
  predicate Happens(e: Entry, s: State, a: Action, r: Req) {
    match e
    case Mapped => a.Map? && a.req == r
    case Named => a == Map(r, true)
    case GivenBack => a == Return(r)
    case Accepted =>
      a.Dsp? && s.dsp == Dispatch && Pending(s.word) && s.word != SYNC_START && s.payload == Command(r)
    case Completed => a.Dsp? && s.dsp.WriteDone? && s.dsp.input == Command(r)
    case Failed => a.Dsp? && s.dsp.WriteDone? && s.dsp.input == Command(r) && s.dsp.fail
    case Flushed => a.Host? && s.host.Boot? && s.host.at == Reset && Uses(s, r)
  }

  ghost predicate NamesMapped(s: State) {
    forall r :: r in s.books.nsid ==> r in s.books.mapped || r in s.books.returned
  }

  lemma BookStep(c: Config, s: State, a: Action, e: Entry, r: Req)
    requires Enabled(c, s, a) && NamesMapped(s)
    ensures Booked(Next(c, s, a).books, e, r) <==> Booked(s.books, e, r) || Happens(e, s, a, r)
  {
    match a
    case Host(v) =>
      if s.host.Boot? { BootBook(c, s, v, e, r); } else { SubmitBook(c, s, v, e, r); }
    case Dsp(f) => DspBook(c, s, f, e, r);
    case _ =>
  }

  lemma BootBook(c: Config, s: State, v: Event, e: Entry, r: Req)
    requires s.host.Boot?
    ensures Booked(BootDo(c, s, v).books, e, r) <==> Booked(s.books, e, r) || Happens(e, s, Host(v), r)
  {
    if s.host.at == Reset {
      assert Uses(s, r) <==> (s.dsp.Run? || s.dsp.WriteDone?) && s.dsp.input == Command(r);
    } else {
      BootKeepsBooks(c, s, v);
    }
  }

  lemma BootKeepsBooks(c: Config, s: State, v: Event)
    requires s.host.Boot? && s.host.at != Reset
    ensures exists m :: BootDo(c, s, v).books == s.books.(result := m)
  {
    if Early(s.host.at) {
      EarlyKeepsBooks(c, s, v);
    } else {
      BootBooks(c, s, v);
      LateKeepsBooks(c, s, v);
    }
  }

  lemma EarlyKeepsBooks(c: Config, s: State, v: Event)
    requires s.host.Boot? && Early(s.host.at) && s.host.at != Reset
    ensures BootDo(c, s, v).books == s.books.(result := BootDo(c, s, v).books.result)
  {
  }

  lemma LateKeepsBooks(c: Config, s: State, v: Event)
    requires s.host.Boot? && !Early(s.host.at)
    ensures BootDo(c, s, v).books == s.books.(result := BootDo(c, s, v).books.result)
  {
    if Late(s.host.at) { BootBooksLate(c, s, v); } else { BootBooksMiddle(c, s, v); }
  }

  lemma SubmitBook(c: Config, s: State, v: Event, e: Entry, r: Req)
    requires s.host.Submit?
    ensures Booked(SubmitDo(c, s, v).books, e, r) <==> Booked(s.books, e, r)
  {
  }

  lemma DspBook(c: Config, s: State, f: bool, e: Entry, r: Req)
    ensures Booked(DspDo(c, s, f).books, e, r) <==> Booked(s.books, e, r) || Happens(e, s, Dsp(f), r)
  {
    if s.dsp == Dispatch {
      DispatchBook(c, s, f, e, r);
    } else if s.dsp.WriteDone? {
      DoneBook(c, s, f, e, r);
    } else {
      DspKeepsBooks(c, s, f);
    }
  }

  lemma DspKeepsBooks(c: Config, s: State, f: bool)
    requires s.dsp != Dispatch && !s.dsp.WriteDone?
    ensures DspDo(c, s, f).books == s.books
  {
  }

  lemma DispatchBook(c: Config, s: State, f: bool, e: Entry, r: Req)
    requires s.dsp == Dispatch
    ensures Booked(DspDo(c, s, f).books, e, r) <==> Booked(s.books, e, r) || Happens(e, s, Dsp(f), r)
  {
  }

  lemma DoneBook(c: Config, s: State, f: bool, e: Entry, r: Req)
    requires s.dsp.WriteDone?
    ensures Booked(DspDo(c, s, f).books, e, r) <==> Booked(s.books, e, r) || Happens(e, s, Dsp(f), r)
  {
  }

  lemma NamesStep(c: Config, s: State, a: Action)
    requires Enabled(c, s, a) && NamesMapped(s)
    ensures NamesMapped(Next(c, s, a))
  {
    var t := Next(c, s, a);
    forall r | r in t.books.nsid ensures r in t.books.mapped || r in t.books.returned {
      BookStep(c, s, a, Named, r);
      BookStep(c, s, a, Mapped, r);
    }
  }

  lemma {:induction false} RunNames(c: Config, states: seq<State>, actions: seq<Action>, k: nat)
    requires IsRun(c, states, actions) && k <= |actions|
    ensures NamesMapped(states[k])
    decreases k
  {
    if k > 0 {
      RunNames(c, states, actions, k - 1);
      NamesStep(c, states[k - 1], actions[k - 1]);
      assert states[(k - 1) + 1] == Next(c, states[k - 1], actions[k - 1]);
    }
  }

  ghost function BookedAt(states: seq<State>, e: Entry, r: Req): (v: seq<bool>)
    ensures |v| == |states| && forall k :: 0 <= k < |states| ==> v[k] == Booked(states[k].books, e, r)
  {
    seq(|states|, k requires 0 <= k < |states| => Booked(states[k].books, e, r))
  }

  ghost function HappensAt(states: seq<State>, actions: seq<Action>, e: Entry, r: Req): (v: seq<bool>)
    requires |states| == |actions| + 1
    ensures |v| == |actions| && forall k :: 0 <= k < |actions| ==> v[k] == Happens(e, states[k], actions[k], r)
  {
    seq(|actions|, k requires 0 <= k < |actions| => Happens(e, states[k], actions[k], r))
  }

  /** With every setting, in every run: the books have an entry for a request exactly when the
      step it stands for was taken. */
  lemma BooksAreHistory(c: Config, states: seq<State>, actions: seq<Action>, j: nat, e: Entry, r: Req)
    requires IsRun(c, states, actions) && j <= |actions|
    ensures Booked(states[j].books, e, r) <==> exists k: nat :: k < j && Happens(e, states[k], actions[k], r)
  {
    var on := HappensAt(states, actions, e, r);
    forall i | 0 <= i < |actions|
      ensures BookedAt(states, e, r)[i + 1] == (on[i] || BookedAt(states, e, r)[i])
    {
      RunNames(c, states, actions, i);
      BookStep(c, states[i], actions[i], e, r);
    }
    Ever(BookedAt(states, e, r), on, j);
    if k: nat :| k < j && Happens(e, states[k], actions[k], r) {
      assert on[k];
    }
    if k: nat :| k < j && on[k] {
      assert Happens(e, states[k], actions[k], r);
    }
  }

  // ----- the results -----

  /** This step reports `res` for request `r`. */
  predicate Reports(c: Config, s: State, a: Action, r: Req, res: Result) {
    a.Host? &&
      match res
      case Success => s.host == Submit(Read, r) && !DeliveryFail(s.word)
      case DeliveryFailed => s.host == Submit(Read, r) && DeliveryFail(s.word)
      case NoDevice => s.host == Submit(Check, r) && s.off
      case Busy =>
        (s.host == Submit(Wait, r) && a.event == Timeout && !c.reboot) || s.host == Boot(SyncOk, Recover(r))
      case Interrupted => s.host == Submit(Wait, r) && a.event == Signal
      case BootFailed(off) =>
        if off then s.host == Boot(TurnOff, Recover(r)) else s.host == Boot(Load, Recover(r)) && a.event == Fail
  }

  predicate Has(s: State, r: Req, res: Result) { r in s.books.result && s.books.result[r] == res }

  lemma ReportStep(c: Config, s: State, a: Action, r: Req, res: Result)
    requires Basic(s) && Enabled(c, s, a)
    ensures Has(Next(c, s, a), r, res) <==> Has(s, r, res) || Reports(c, s, a, r, res)
  {
    match a
    case Host(e) =>
      if s.host.Boot? { BootReport(c, s, e, r, res); } else { SubmitReport(c, s, e, r, res); }
    case Dsp(f) => assert DspDo(c, s, f).books.result == s.books.result;
    case _ =>
  }

  lemma BootReport(c: Config, s: State, e: Event, r: Req, res: Result)
    requires Basic(s) && s.host.Boot? && BootCan(c, s, s.host.at, e)
    ensures Has(BootDo(c, s, e), r, res) <==> Has(s, r, res) || Reports(c, s, Host(e), r, res)
  {
    if s.host.why.Recover? { assert Current(s, s.host.why.req); }
    if Early(s.host.at) {
      EarlyReport(c, s, e, r, res);
    } else if Late(s.host.at) {
      LateReport(c, s, e, r, res);
    } else {
      BootBooksMiddle(c, s, e);
    }
  }

  lemma EarlyReport(c: Config, s: State, e: Event, r: Req, res: Result)
    requires s.host.Boot? && Early(s.host.at) && !s.off && (s.host.why == Recover(r) ==> r !in s.books.result)
    ensures Has(BootDo(c, s, e), r, res) <==> Has(s, r, res) || Reports(c, s, Host(e), r, res)
  {
  }

  lemma LateReport(c: Config, s: State, e: Event, r: Req, res: Result)
    requires s.host.Boot? && Late(s.host.at) && (s.host.why == Recover(r) ==> r !in s.books.result)
    ensures Has(BootDo(c, s, e), r, res) <==> Has(s, r, res) || Reports(c, s, Host(e), r, res)
  {
  }

  lemma SubmitReport(c: Config, s: State, e: Event, r: Req, res: Result)
    requires Basic(s) && s.host.Submit? && SubmitCan(c, s, s.host.step, e)
    ensures Has(SubmitDo(c, s, e), r, res) <==> Has(s, r, res) || Reports(c, s, Host(e), r, res)
  {
    assert Current(s, s.host.req);
  }

  ghost function ResultAt(states: seq<State>, r: Req, res: Result): (v: seq<bool>)
    ensures |v| == |states| && forall k :: 0 <= k < |states| ==> v[k] == Has(states[k], r, res)
  {
    seq(|states|, k requires 0 <= k < |states| => Has(states[k], r, res))
  }

  ghost function ReportAt(c: Config, states: seq<State>, actions: seq<Action>, r: Req, res: Result): (v: seq<bool>)
    requires |states| == |actions| + 1
    ensures |v| == |actions| && forall k :: 0 <= k < |actions| ==> v[k] == Reports(c, states[k], actions[k], r, res)
  {
    seq(|actions|, k requires 0 <= k < |actions| => Reports(c, states[k], actions[k], r, res))
  }

  /** With every setting, in every run: a request has a result exactly when the step was taken
      that reports it. */
  lemma ReportedIff(c: Config, states: seq<State>, actions: seq<Action>, j: nat, r: Req, res: Result)
    requires IsRun(c, states, actions) && j <= |actions|
    ensures Has(states[j], r, res) <==> exists k: nat :: k < j && Reports(c, states[k], actions[k], r, res)
  {
    var on := ReportAt(c, states, actions, r, res);
    forall i | 0 <= i < |actions| ensures ResultAt(states, r, res)[i + 1] == (on[i] || ResultAt(states, r, res)[i]) {
      RunBasic(c, states, actions, i);
      ReportStep(c, states[i], actions[i], r, res);
    }
    Ever(ResultAt(states, r, res), on, j);
    if k: nat :| k < j && Reports(c, states[k], actions[k], r, res) {
      assert on[k];
    }
    if k: nat :| k < j && on[k] {
      assert Reports(c, states[k], actions[k], r, res);
    }
  }

  /** When no request is left early, a host that reads an answer reports a delivery failure when
      the DSP failed the request, and success otherwise. */
  lemma AnswerReported(c: Config, states: seq<State>, actions: seq<Action>, k: nat, r: Req)
    requires Kept(c) && IsRun(c, states, actions) && k < |actions|
    requires states[k].host == Submit(Read, r) && actions[k].Host?
    ensures r in states[k].books.completed
    ensures Has(states[k + 1], r, if r in states[k].books.failed then DeliveryFailed else Success)
  {
    RunInv(c, states, actions, k);
    ReportStep(c, states[k], actions[k], r, if r in states[k].books.failed then DeliveryFailed else Success);
  }

  // ----- timeouts and signals -----

  /** The host gave up waiting for the answer to request `r`. */
  predicate GivesUp(s: State, a: Action, r: Req, e: Event) { s.host == Submit(Wait, r) && a == Host(e) }

  lemma RecoverStep(c: Config, s: State, a: Action, r: Req)
    requires Enabled(c, s, a) && Next(c, s, a).host.Boot? && Next(c, s, a).host.why == Recover(r)
    ensures (s.host.Boot? && s.host.why == Recover(r)) || GivesUp(s, a, r, Timeout)
  {
    match a
    case Host(e) => if s.host.Boot? { BootKeepsWhy(c, s, e); }
    case Dsp(f) => assert DspDo(c, s, f).host == s.host;
    case _ =>
  }

  lemma BootKeepsWhy(c: Config, s: State, e: Event)
    requires s.host.Boot?
    ensures SamePurpose(s, BootDo(c, s, e))
  {
    if Early(s.host.at) { EarlyKeepsWhy(c, s, e); } else { LaterKeepsWhy(c, s, e); }
  }

  predicate SamePurpose(s: State, t: State)
    requires s.host.Boot?
  {
    t.host == Unlocked || (t.host.Boot? && t.host.why == s.host.why)
  }

  lemma EarlyKeepsWhy(c: Config, s: State, e: Event)
    requires s.host.Boot? && Early(s.host.at)
    ensures SamePurpose(s, BootDo(c, s, e))
  {
  }

  lemma LaterKeepsWhy(c: Config, s: State, e: Event)
    requires s.host.Boot? && !Early(s.host.at)
    ensures SamePurpose(s, BootDo(c, s, e))
  {
  }

  /** The firmware is rebooted for a request only after its wait timed out. */
  lemma {:induction false} RecoverMeansTimeout(c: Config, states: seq<State>, actions: seq<Action>, j: nat, r: Req)
    requires IsRun(c, states, actions) && j <= |actions|
    requires states[j].host.Boot? && states[j].host.why == Recover(r)
    ensures exists k: nat :: k < j && GivesUp(states[k], actions[k], r, Timeout)
    decreases j
  {
    assert j > 0;
    RecoverStep(c, states[j - 1], actions[j - 1], r);
    if GivesUp(states[j - 1], actions[j - 1], r, Timeout) {
      assert j - 1 < j;
    } else {
      RecoverMeansTimeout(c, states, actions, j - 1, r);
    }
  }

  /** A request is reported as busy, or with a failed reboot, only after its wait timed out, and as
      interrupted only after a signal ended it. */
  lemma GivenUpMeans(c: Config, states: seq<State>, actions: seq<Action>, j: nat, r: Req)
    requires IsRun(c, states, actions) && j <= |actions| && r in states[j].books.result
    ensures states[j].books.result[r] == Busy || states[j].books.result[r].BootFailed? ==>
      exists k: nat :: k < j && GivesUp(states[k], actions[k], r, Timeout)
    ensures states[j].books.result[r] == Interrupted ==>
      exists k: nat :: k < j && GivesUp(states[k], actions[k], r, Signal)
  {
    var res := states[j].books.result[r];
    assert Has(states[j], r, res);
    ReportedIff(c, states, actions, j, r, res);
    var k: nat :| k < j && Reports(c, states[k], actions[k], r, res);
    ReportCause(c, states[k], actions[k], r, res);
    if states[k].host.Boot? {
      RecoverMeansTimeout(c, states, actions, k, r);
      var i: nat :| i < k && GivesUp(states[i], actions[i], r, Timeout);
      assert i < j;
    }
  }

  lemma ReportCause(c: Config, s: State, a: Action, r: Req, res: Result)
    requires Reports(c, s, a, r, res)
    ensures s.host.Boot? ==> s.host.why == Recover(r) && res != Interrupted
    ensures res.BootFailed? ==> s.host.Boot?
    ensures res == Busy && !s.host.Boot? ==> GivesUp(s, a, r, Timeout)
    ensures res == Interrupted ==> GivesUp(s, a, r, Signal)
  {
  }

  // ----- the handler -----

  /** The handler for request `r` ends, and fails as `f` says. */
  predicate Handles(s: State, a: Action, r: Req, f: bool) {
    s.dsp.Run? && s.dsp.input == Command(r) && a == Dsp(f)
  }

  lemma HandlerStep(c: Config, s: State, a: Action, r: Req)
    requires Enabled(c, s, a)
    ensures var t := Next(c, s, a); t.dsp.WriteDone? && t.dsp.input == Command(r) ==>
      t.dsp == s.dsp || Handles(s, a, r, t.dsp.fail)
  {
    match a
    case Host(e) =>
      if s.host.Boot? { BootKeepsDsp(c, s, e); } else { assert SubmitDo(c, s, e).dsp == s.dsp; }
    case Dsp(f) =>
    case _ =>
  }

  lemma BootKeepsDsp(c: Config, s: State, e: Event)
    requires s.host.Boot?
    ensures BootDo(c, s, e).dsp == if s.host.at == Reset then Dispatch else s.dsp
  {
  }

  lemma {:induction false} HandlerRan(c: Config, states: seq<State>, actions: seq<Action>, j: nat, r: Req)
    requires IsRun(c, states, actions) && j <= |actions|
    requires states[j].dsp.WriteDone? && states[j].dsp.input == Command(r)
    ensures exists k: nat :: k < j && Handles(states[k], actions[k], r, states[j].dsp.fail)
    decreases j
  {
    assert j > 0;
    HandlerStep(c, states[j - 1], actions[j - 1], r);
    if states[j].dsp == states[j - 1].dsp {
      HandlerRan(c, states, actions, j - 1, r);
    } else {
      assert Handles(states[j - 1], actions[j - 1], r, states[j].dsp.fail);
    }
  }

  /** A handler that failed on `r` has its failure on the way, in the books, or wiped by a reset. */
  predicate FailureKnown(s: State, r: Req) {
    || (s.dsp.WriteDone? && s.dsp.input == Command(r) && s.dsp.fail)
    || r in s.books.failed || r in s.books.flushed
  }

  /** Only a reset takes the pending failure from the DSP, and it flushes the request. */
  lemma FailingOther(c: Config, s: State, a: Action, r: Req)
    requires Enabled(c, s, a) && !a.Dsp? && !Happens(Flushed, s, a, r)
    ensures s.dsp.WriteDone? && s.dsp.input == Command(r) ==> Next(c, s, a).dsp == s.dsp
  {
    match a
    case Host(e) =>
      if s.host.Boot? { BootKeepsDsp(c, s, e); } else { assert SubmitDo(c, s, e).dsp == s.dsp; }
    case _ =>
  }

  lemma FailingDsp(c: Config, s: State, f: bool, r: Req)
    ensures (s.dsp.WriteDone? && s.dsp.input == Command(r) && s.dsp.fail) || Handles(s, Dsp(f), r, true) ==>
      FailureKnown(DspDo(c, s, f), r)
  {
  }

  lemma {:induction false} FailureLasts(c: Config, states: seq<State>, actions: seq<Action>, k: nat, j: nat, r: Req)
    requires IsRun(c, states, actions) && k < j <= |actions| && Handles(states[k], actions[k], r, true)
    ensures FailureKnown(states[j], r)
    decreases j
  {
    if k < j - 1 {
      FailureLasts(c, states, actions, k, j - 1, r);
    }
    FailureAt(c, states, actions, j - 1, r);
  }

  lemma FailureAt(c: Config, states: seq<State>, actions: seq<Action>, i: nat, r: Req)
    requires IsRun(c, states, actions) && i < |actions|
    requires FailureKnown(states[i], r) || Handles(states[i], actions[i], r, true)
    ensures FailureKnown(states[i + 1], r)
  {
    RunNames(c, states, actions, i);
    BookStep(c, states[i], actions[i], Failed, r);
    BookStep(c, states[i], actions[i], Flushed, r);
    assert states[i + 1] == Next(c, states[i], actions[i]);
    if actions[i].Dsp? {
      FailingDsp(c, states[i], actions[i].fails, r);
    } else if !Happens(Flushed, states[i], actions[i], r) {
      FailingOther(c, states[i], actions[i], r);
    }
  }

  /** Request `r` is being recovered from, or was reported without an answer. */
  predicate Unanswered(s: State, r: Req) {
    || (s.host.Boot? && s.host.why == Recover(r))
    || (r in s.books.result && !ProtocolRuns.Answer(s.books.result[r]))
  }

  lemma FlushedAt(c: Config, s: State, a: Action, r: Req)
    requires Inv(c, s) && Enabled(c, s, a) && (Unanswered(s, r) || Happens(Flushed, s, a, r))
    ensures Unanswered(Next(c, s, a), r)
  {
    var t := Next(c, s, a);
    assert Basic(s) by { InvBasic(c, s); }
    assert Happens(Flushed, s, a, r) ==> s.host.why == Recover(r) by {
      assert Uses(s, r) && s.host.Boot? ==> Current(s, r);
    }
    if s.host.Boot? && s.host.why == Recover(r) {
      RecoveringAt(c, s, a, r);
    } else {
      ReportStep(c, s, a, r, s.books.result[r]);
    }
  }

  lemma InvBasic(c: Config, s: State)
    requires Inv(c, s)
    ensures Basic(s)
  {
  }

  lemma RecoveringAt(c: Config, s: State, a: Action, r: Req)
    requires Basic(s) && Enabled(c, s, a) && s.host.Boot? && s.host.why == Recover(r)
    ensures Unanswered(Next(c, s, a), r)
  {
    match a
    case Host(e) =>
      BootKeepsWhy(c, s, e);
      if BootDo(c, s, e).host == Unlocked { BootLeaves(c, s, e, r); }
    case Dsp(f) => assert DspDo(c, s, f).host == s.host;
    case _ =>
  }

  lemma BootLeaves(c: Config, s: State, e: Event, r: Req)
    requires s.host.Boot? && s.host.why == Recover(r) && BootDo(c, s, e).host == Unlocked
    ensures var b := BootDo(c, s, e).books; r in b.result && !ProtocolRuns.Answer(b.result[r])
  {
    if Early(s.host.at) { EarlyLeaves(c, s, e, r); } else { LateLeaves(c, s, e, r); }
  }

  lemma EarlyLeaves(c: Config, s: State, e: Event, r: Req)
    requires s.host.Boot? && Early(s.host.at) && s.host.why == Recover(r) && BootDo(c, s, e).host == Unlocked
    ensures var b := BootDo(c, s, e).books; r in b.result && !ProtocolRuns.Answer(b.result[r])
  {
  }

  lemma LateLeaves(c: Config, s: State, e: Event, r: Req)
    requires s.host.Boot? && !Early(s.host.at) && s.host.why == Recover(r) && BootDo(c, s, e).host == Unlocked
    ensures var b := BootDo(c, s, e).books; r in b.result && !ProtocolRuns.Answer(b.result[r])
  {
    assert s.host.at == SyncOk || s.host.at == TurnOff;
  }

  /** A request that a reset wiped from the DSP is never reported with an answer. */
  lemma {:induction false} RunFlushed(c: Config, states: seq<State>, actions: seq<Action>, k: nat, r: Req)
    requires Kept(c) && IsRun(c, states, actions) && k <= |actions| && r in states[k].books.flushed
    ensures Unanswered(states[k], r)
    decreases k
  {
    assert k > 0;
    FlushedBefore(c, states, actions, k - 1, r);
    if r in states[k - 1].books.flushed {
      RunFlushed(c, states, actions, k - 1, r);
    }
    UnansweredNext(c, states, actions, k - 1, r);
  }

  lemma FlushedBefore(c: Config, states: seq<State>, actions: seq<Action>, i: nat, r: Req)
    requires IsRun(c, states, actions) && i < |actions| && r in states[i + 1].books.flushed
    ensures r in states[i].books.flushed || Happens(Flushed, states[i], actions[i], r)
  {
    RunNames(c, states, actions, i);
    BookStep(c, states[i], actions[i], Flushed, r);
  }

  lemma UnansweredNext(c: Config, states: seq<State>, actions: seq<Action>, i: nat, r: Req)
    requires Kept(c) && IsRun(c, states, actions) && i < |actions|
    requires Unanswered(states[i], r) || Happens(Flushed, states[i], actions[i], r)
    ensures Unanswered(states[i + 1], r)
  {
    RunInv(c, states, actions, i);
    FlushedAt(c, states[i], actions[i], r);
  }

  /** When no request is left early, an answer reported for a request is its handler's: a delivery
      failure exactly when the handler failed on it. */
  lemma AnswerIsHandlers(c: Config, states: seq<State>, actions: seq<Action>, j: nat, r: Req)
    requires Kept(c) && IsRun(c, states, actions) && j <= |actions|
    requires r in states[j].books.result && ProtocolRuns.Answer(states[j].books.result[r])
    ensures states[j].books.result[r] == DeliveryFailed <==>
      exists k: nat :: k < j && Handles(states[k], actions[k], r, true)
  {
    var s := states[j];
    RunInv(c, states, actions, j);
    if r in s.books.flushed { RunFlushed(c, states, actions, j, r); }
    assert !Current(s, r) && !Lost(s, r) && !Uses(s, r);
    if s.books.result[r] == DeliveryFailed {
      BooksAreHistory(c, states, actions, j, Failed, r);
      var i: nat :| i < j && Happens(Failed, states[i], actions[i], r);
      HandlerRan(c, states, actions, i, r);
      var k: nat :| k < i && Handles(states[k], actions[k], r, true);
      assert k < j;
    }
    if k: nat :| k < j && Handles(states[k], actions[k], r, true) {
      FailureLasts(c, states, actions, k, j, r);
    }
  }

  // ----- halted, released and off -----

  predicate Releases(s: State, a: Action) { a.Host? && s.host.Boot? && s.host.at == Release }

  predicate Halts(s: State, a: Action) {
    a == Suspend || (a.Host? && s.host.Boot? && (s.host.at == Halt || s.host.at == HaltAgain))
  }

  predicate TurnsOff(s: State, a: Action) { a.Host? && s.host.Boot? && s.host.at == TurnOff }

  lemma PowerStep(c: Config, s: State, a: Action)
    requires Enabled(c, s, a)
    ensures Next(c, s, a).running <==> Releases(s, a) || (s.running && !Halts(s, a))
    ensures Next(c, s, a).off <==> TurnsOff(s, a) || s.off
  {
    match a
    case Host(e) =>
      if s.host.Boot? { BootPower(c, s, e); } else { SubmitPower(c, s, e); }
    case Dsp(f) => assert DspDo(c, s, f).running == s.running && DspDo(c, s, f).off == s.off;
    case _ =>
  }

  lemma BootPower(c: Config, s: State, e: Event)
    requires s.host.Boot?
    ensures BootDo(c, s, e).running <==> Releases(s, Host(e)) || (s.running && !Halts(s, Host(e)))
    ensures BootDo(c, s, e).off <==> TurnsOff(s, Host(e)) || s.off
  {
  }

  lemma SubmitPower(c: Config, s: State, e: Event)
    requires s.host.Submit?
    ensures SubmitDo(c, s, e).running == s.running && SubmitDo(c, s, e).off == s.off
  {
  }

  ghost function Ran(states: seq<State>): (v: seq<bool>)
    ensures |v| == |states| && forall k :: 0 <= k < |states| ==> v[k] == states[k].running
  {
    seq(|states|, k requires 0 <= k < |states| => states[k].running)
  }

  ghost function ReleasedAt(states: seq<State>, actions: seq<Action>): (v: seq<bool>)
    requires |states| == |actions| + 1
    ensures |v| == |actions| && forall k :: 0 <= k < |actions| ==> v[k] == Releases(states[k], actions[k])
  {
    seq(|actions|, k requires 0 <= k < |actions| => Releases(states[k], actions[k]))
  }

  ghost function HaltedAt(states: seq<State>, actions: seq<Action>): (v: seq<bool>)
    requires |states| == |actions| + 1
    ensures |v| == |actions| && forall k :: 0 <= k < |actions| ==> v[k] == Halts(states[k], actions[k])
  {
    seq(|actions|, k requires 0 <= k < |actions| => Halts(states[k], actions[k]))
  }

  /** With every setting, in every run: the DSP runs exactly when some step released it and none
      has halted it since. */
  lemma RunsSinceRelease(c: Config, states: seq<State>, actions: seq<Action>, j: nat)
    requires IsRun(c, states, actions) && j <= |actions|
    ensures states[j].running <==> Given(ReleasedAt(states, actions), HaltedAt(states, actions), j)
  {
    var ran, on, off := Ran(states), ReleasedAt(states, actions), HaltedAt(states, actions);
    forall i | 0 <= i < |actions| ensures ran[i + 1] == (on[i] || (ran[i] && !off[i])) {
      PowerStep(c, states[i], actions[i]);
    }
    Since(ran, on, off, j);
  }

  ghost function WasOff(states: seq<State>): (v: seq<bool>)
    ensures |v| == |states| && forall k :: 0 <= k < |states| ==> v[k] == states[k].off
  {
    seq(|states|, k requires 0 <= k < |states| => states[k].off)
  }

  ghost function TurnedOffAt(states: seq<State>, actions: seq<Action>): (v: seq<bool>)
    requires |states| == |actions| + 1
    ensures |v| == |actions| && forall k :: 0 <= k < |actions| ==> v[k] == TurnsOff(states[k], actions[k])
  {
    seq(|actions|, k requires 0 <= k < |actions| => TurnsOff(states[k], actions[k]))
  }

  /** The device is off exactly when a failed handshake turned it off. */
  lemma OffSinceFailure(c: Config, states: seq<State>, actions: seq<Action>, j: nat)
    requires IsRun(c, states, actions) && j <= |actions|
    ensures states[j].off <==> exists k: nat :: k < j && TurnsOff(states[k], actions[k])
  {
    var was, on := WasOff(states), TurnedOffAt(states, actions);
    forall i | 0 <= i < |actions| ensures was[i + 1] == (on[i] || was[i]) {
      PowerStep(c, states[i], actions[i]);
    }
    Ever(was, on, j);
    if k: nat :| k < j && TurnsOff(states[k], actions[k]) {
      assert on[k];
    }
    if k: nat :| k < j && on[k] {
      assert TurnsOff(states[k], actions[k]);
    }
  }

  // ----- the handshake -----

  /** The host starts a handshake. */
  predicate Starts(s: State, a: Action) { a.Host? && a.event == Go && s.host.Boot? && s.host.at == Start }

  /** The DSP reads the sync data `p`. */
  predicate Reads(s: State, a: Action, p: Payload) { a.Dsp? && s.dsp == ReadData && s.payload == p }

  lemma SyncStep(c: Config, s: State, a: Action, p: Payload)
    requires Enabled(c, s, a)
    ensures Next(c, s, a).attempt == s.attempt + if Starts(s, a) then 1 else 0
    ensures p in Next(c, s, a).consumed <==> Reads(s, a, p) || p in s.consumed
  {
    match a
    case Host(e) =>
      if s.host.Boot? { BootSync(c, s, e); } else { SubmitSync(c, s, e); }
    case Dsp(f) => DspSync(c, s, f, p);
    case _ =>
  }

  lemma BootSync(c: Config, s: State, e: Event)
    requires s.host.Boot? && BootCan(c, s, s.host.at, e)
    ensures BootDo(c, s, e).attempt == s.attempt + if Starts(s, Host(e)) then 1 else 0
    ensures BootDo(c, s, e).consumed == s.consumed
  {
  }

  lemma SubmitSync(c: Config, s: State, e: Event)
    requires s.host.Submit?
    ensures SubmitDo(c, s, e).attempt == s.attempt && SubmitDo(c, s, e).consumed == s.consumed
  {
  }

  lemma DspSync(c: Config, s: State, f: bool, p: Payload)
    ensures DspDo(c, s, f).attempt == s.attempt
    ensures p in DspDo(c, s, f).consumed <==> Reads(s, Dsp(f), p) || p in s.consumed
  {
  }

  ghost function StartedAt(states: seq<State>, actions: seq<Action>): (v: seq<bool>)
    requires |states| == |actions| + 1
    ensures |v| == |actions| && forall k :: 0 <= k < |actions| ==> v[k] == Starts(states[k], actions[k])
  {
    seq(|actions|, k requires 0 <= k < |actions| => Starts(states[k], actions[k]))
  }

  ghost function AttemptAt(states: seq<State>): (v: seq<nat>)
    ensures |v| == |states| && forall k :: 0 <= k < |states| ==> v[k] == states[k].attempt
  {
    seq(|states|, k requires 0 <= k < |states| => states[k].attempt)
  }

  /** The handshakes started before step `j`. */
  ghost function Attempts(states: seq<State>, actions: seq<Action>, j: nat): nat
    requires |states| == |actions| + 1 && j <= |actions|
  {
    CountOn(StartedAt(states, actions), j)
  }

  lemma AttemptsCounted(c: Config, states: seq<State>, actions: seq<Action>, j: nat)
    requires IsRun(c, states, actions) && j <= |actions|
    ensures states[j].attempt == Attempts(states, actions, j)
  {
    var n, on := AttemptAt(states), StartedAt(states, actions);
    forall i | 0 <= i < |actions| ensures n[i + 1] == n[i] + if on[i] then 1 else 0 {
      SyncStep(c, states[i], actions[i], Junk);
    }
    Counted(n, on, j);
  }

  ghost function ConsumedAt(states: seq<State>, p: Payload): (v: seq<bool>)
    ensures |v| == |states| && forall k :: 0 <= k < |states| ==> v[k] == (p in states[k].consumed)
  {
    seq(|states|, k requires 0 <= k < |states| => p in states[k].consumed)
  }

  ghost function ReadAt(states: seq<State>, actions: seq<Action>, p: Payload): (v: seq<bool>)
    requires |states| == |actions| + 1
    ensures |v| == |actions| && forall k :: 0 <= k < |actions| ==> v[k] == Reads(states[k], actions[k], p)
  {
    seq(|actions|, k requires 0 <= k < |actions| => Reads(states[k], actions[k], p))
  }

  lemma ConsumedWasRead(c: Config, states: seq<State>, actions: seq<Action>, j: nat, p: Payload) returns (k: nat)
    requires IsRun(c, states, actions) && j <= |actions| && p in states[j].consumed
    ensures k < j && Reads(states[k], actions[k], p)
  {
    var was, on := ConsumedAt(states, p), ReadAt(states, actions, p);
    forall i | 0 <= i < |actions| ensures was[i + 1] == (on[i] || was[i]) {
      SyncStep(c, states[i], actions[i], p);
    }
    Ever(was, on, j);
    k :| k < j && on[k];
  }

  /** With a firmware name, a handshake that succeeds was read in this very attempt: the DSP read
      its data after the host started it, and no other handshake was started in between. */
  lemma HandshakeRead(c: Config, states: seq<State>, actions: seq<Action>, j: nat)
    requires c.firmware && IsRun(c, states, actions) && j <= |actions|
    requires states[j].host.Boot? && states[j].host.at == SyncOk
    ensures exists k: nat ::
      && k < j && Reads(states[k], actions[k], Sync(states[j].attempt))
      && Attempts(states, actions, k) == Attempts(states, actions, j) == states[j].attempt
  {
    RunMachine(c, states, actions, j);
    var k := ConsumedWasRead(c, states, actions, j, Sync(states[j].attempt));
    RunMachine(c, states, actions, k);
    ReadsThisAttempt(c, states[k]);
    AttemptsCounted(c, states, actions, k);
    AttemptsCounted(c, states, actions, j);
  }

  lemma ReadsThisAttempt(c: Config, s: State)
    requires Machine(c, s) && s.running && s.dsp == ReadData
    ensures s.payload == Sync(s.attempt)
  {
  }
}
