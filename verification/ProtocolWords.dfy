/** The protocol's words as the sources compute them, with 32-bit masks. */
module ProtocolWords {
  import opened Bits
  import opened Protocol

  const REQUEST_VALID: u32 := 1
  const RESPONSE_VALID: u32 := 2
  const REQUEST_NSID: u32 := 4
  const RESPONSE_DELIVERY_FAIL: u32 := 8
  const QUEUE_VALID_FLAGS: u32 := 4

  /** Bitwise complement. */
  function Not(x: u32): u32 { M - 1 - x }

  lemma AndStep(x: nat, y: nat)
    ensures And(x, y) == (if x % 2 == 1 && y % 2 == 1 then 1 else 0) + 2 * And(x / 2, y / 2)
  {
  }

  lemma OrStep(x: nat, y: nat)
    ensures Or(x, y) == (if x % 2 == 1 || y % 2 == 1 then 1 else 0) + 2 * Or(x / 2, y / 2)
  {
  }

  /** The masks of both sides' tests. */
  lemma TurnTests(w: nat)
    ensures And(w, REQUEST_VALID + RESPONSE_VALID) == REQUEST_VALID <==> Pending(w)
    ensures And(w, REQUEST_VALID + RESPONSE_VALID) == REQUEST_VALID + RESPONSE_VALID <==> Answered(w)
  {
    assert PowerOfTwo(4);
    AndLow(w, 4);
  }

  /** Flags that pass the driver's check are zero or the namespace flag. */
  lemma ValidFlags(flags: u32)
    requires And(flags, Not(QUEUE_VALID_FLAGS)) == 0
    ensures flags == 0 || flags == REQUEST_NSID
  {
    var m := Not(QUEUE_VALID_FLAGS);
    AndStep(flags, m);
    AndStep(flags / 2, m / 2);
    AndStep(flags / 4, m / 4);
    HighPart(flags / 8);
  }

  lemma HighPart(x: nat)
    requires x < 0x2000_0000 && And(x, 0x2000_0000 - 1) == 0
    ensures x == 0
  {
    assert PowerOfTwo(0x2000_0000) by { MIsPower(); }
    AndLow(x, 0x2000_0000);
  }

  /** Both values pass the check. */
  lemma NsidFlags(nsid: bool)
    ensures And(if nsid then REQUEST_NSID else 0, Not(QUEUE_VALID_FLAGS)) == 0
    ensures And(CommandWord(nsid), REQUEST_NSID) != 0 <==> nsid
  {
    AndStep(4, Not(QUEUE_VALID_FLAGS));
    AndStep(2, Not(QUEUE_VALID_FLAGS) / 2);
    AndStep(1, Not(QUEUE_VALID_FLAGS) / 4);
    AndStep(CommandWord(nsid), 4);
    AndStep(CommandWord(nsid) / 2, 2);
    AndStep(CommandWord(nsid) / 4, 1);
  }

  /** The word a checked request is published with: the DSP's turn, never the start of a
      handshake, and with the request's namespace flag. */
  lemma PublishedWord(flags: u32)
    requires And(flags, Not(QUEUE_VALID_FLAGS)) == 0
    ensures var w := Or(And(flags, Not(RESPONSE_VALID)), REQUEST_VALID);
      w == CommandWord(flags == REQUEST_NSID) && Pending(w) && w != SYNC_START
  {
    ValidFlags(flags);
    if flags == 4 {
      AndStep(4, Not(RESPONSE_VALID));
      AndStep(2, Not(RESPONSE_VALID) / 2);
      AndStep(1, Not(RESPONSE_VALID) / 4);
      OrStep(4, 1);
    }
  }

  /** The word the DSP answers with: the host's turn, with the failure bit as given. */
  lemma AnsweredWord(nsid: bool, fail: bool)
    ensures var w := CommandWord(nsid);
      Or(Or(w, if fail then RESPONSE_DELIVERY_FAIL else 0), RESPONSE_VALID) == AnswerWord(w, fail)
    ensures var a := AnswerWord(CommandWord(nsid), fail);
      && Answered(a) && (DeliveryFail(a) <==> fail)
      && (And(a, RESPONSE_DELIVERY_FAIL) != 0 <==> fail)
  {
    var w := CommandWord(nsid);
    var v := Or(w, if fail then 8 else 0);
    OrStep(w, 8);
    OrStep(w / 2, 4);
    OrStep(w / 4, 2);
    OrStep(w / 8, 1);
    OrStep(v, 2);
    OrStep(v / 2, 1);
    var a := AnswerWord(w, fail);
    AndStep(a, 8);
    AndStep(a / 2, 4);
    AndStep(a / 4, 2);
    AndStep(a / 8, 1);
  }
}
