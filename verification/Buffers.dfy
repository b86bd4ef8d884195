/** Buffers as a DSP command handler sees them: bounds, granted access and the access that is
    reported back to the host. */
module Buffers {
  import opened Bits

  const READ: u32 := 1
  const WRITE: u32 := 2
  const READ_WRITE: u32 := 3

  /** Every bit of `a` is a bit of `b`. */
  predicate Within(a: nat, b: nat) { And(b, a) == a }

  lemma {:induction false} WithinOr(a: nat, b: nat, c: nat)
    requires Within(a, c) && Within(b, c)
    ensures Within(Or(a, b), c)
    decreases a + b
  {
    if a != 0 && b != 0 {
      assert c != 0;
      WithinOr(a / 2, b / 2, c / 2);
    }
  }

  lemma {:induction false} WithinOwnOr(a: nat, b: nat)
    ensures Within(a, Or(a, b)) && Within(b, Or(a, b))
    decreases a + b
  {
    if a != 0 && b != 0 {
      WithinOwnOr(a / 2, b / 2);
    } else {
      WithinSelf(a + b);
    }
  }

  lemma {:induction false} WithinSelf(a: nat)
    ensures Within(a, a) && Within(0, a)
  {
    if a != 0 { WithinSelf(a / 2); }
  }

  lemma {:induction false} WithinChain(a: nat, b: nat, c: nat)
    requires Within(a, b) && Within(b, c)
    ensures Within(a, c)
    decreases b
  {
    if a != 0 && b != 0 {
      WithinChain(a / 2, b / 2, c / 2);
    }
  }

  lemma WithinSmall(f: nat, allowed: nat)
    requires Within(f, allowed) && (allowed == READ || allowed == READ_WRITE)
    ensures f <= allowed && (allowed == READ ==> f <= 1)
  {
    AndBound(allowed, f);
  }

  /** What the DSP allows for a buffer submitted with `flags`. */
  function AllowedAccess(flags: u32): u32 {
    if flags == READ then READ else READ_WRITE
  }

  /** What is reported for a buffer mapped with `mapFlags`. */
  function ReportedAccess(mapFlags: u32): u32 {
    (if And(mapFlags, READ) != 0 then READ else 0) + (if And(mapFlags, WRITE) != 0 then WRITE else 0)
  }

  datatype Call = Call(offset: u32, length: u32, flags: u32)

  /** The call is in bounds and asks for no more than is allowed. */
  predicate Granted(size: u32, allowed: u32, c: Call) {
    c.offset + c.length <= size && Within(c.flags, allowed)
  }

  /** The access recorded after a sequence of map calls. */
  function Recorded(size: u32, allowed: u32, calls: seq<Call>): (f: nat)
    requires allowed == READ || allowed == READ_WRITE
    ensures Within(f, allowed) && f <= 3
  {
    if calls == [] then 0
    else
      var c := calls[|calls| - 1];
      var f := Recorded(size, allowed, calls[..|calls| - 1]);
      if Granted(size, allowed, c)
      then WithinOr(f, c.flags, allowed); WithinSmall(Or(f, c.flags), allowed); Or(f, c.flags)
      else f
  }

  /** The access of every granted call stays recorded. */
  lemma {:induction false} RecordedHas(size: u32, allowed: u32, calls: seq<Call>, i: nat)
    requires (allowed == READ || allowed == READ_WRITE) && i < |calls| && Granted(size, allowed, calls[i])
    ensures Within(calls[i].flags, Recorded(size, allowed, calls))
    decreases |calls|
  {
    var last := |calls| - 1;
    var f := Recorded(size, allowed, calls[..last]);
    WithinOwnOr(f, calls[last].flags);
    if i < last {
      RecordedHas(size, allowed, calls[..last], i);
      WithinChain(calls[i].flags, f, Or(f, calls[last].flags));
    }
  }

  /** Nothing is recorded that no granted call asked for. */
  lemma {:induction false} RecordedLeast(size: u32, allowed: u32, calls: seq<Call>, mask: nat)
    requires allowed == READ || allowed == READ_WRITE
    requires forall i :: 0 <= i < |calls| && Granted(size, allowed, calls[i]) ==> Within(calls[i].flags, mask)
    ensures Within(Recorded(size, allowed, calls), mask)
    decreases |calls|
  {
    WithinSelf(mask);
    if calls != [] {
      var last := |calls| - 1;
      RecordedLeast(size, allowed, calls[..last], mask);
      if Granted(size, allowed, calls[last]) {
        WithinOr(Recorded(size, allowed, calls[..last]), calls[last].flags, mask);
      }
    }
  }

  datatype Mapped = Refused | At(addr: nat)

  class Buffer {
    const ptr: nat
    const size: u32
    const allowed: u32
    var refs: u32
    var mapCount: u32
    var mapFlags: u32
    /** The map calls so far, refused ones included. */
    ghost var calls: seq<Call>

    ghost predicate Valid()
      reads this
    {
      (allowed == READ || allowed == READ_WRITE) && mapFlags == Recorded(size, allowed, calls)
    }

    constructor (ptr: nat, size: u32, flags: u32)
      ensures Valid() && this.ptr == ptr && this.size == size && allowed == AllowedAccess(flags)
      ensures calls == [] && mapCount == 0 && refs == 0
    {
      this.ptr, this.size, this.allowed := ptr, size, AllowedAccess(flags);
      refs, mapCount, mapFlags, calls := 0, 0, 0, [];
    }

    /** Maps a part of the buffer. */
    method Map(offset: u32, length: u32, flags: u32) returns (r: Mapped)
      requires Valid()
      modifies this
      ensures Valid()
      ensures r.At? <==> Granted(size, allowed, Call(offset, length, flags))
      ensures r.At? ==> r.addr == ptr + offset && ptr <= r.addr && r.addr + length <= ptr + size
      ensures calls == old(calls) + [Call(offset, length, flags)] && Within(mapFlags, allowed)
      ensures mapCount == (if r.At? then Add32(old(mapCount), 1) else old(mapCount))
      ensures refs == (if r.At? then Add32(old(refs), 1) else old(refs))
    {
      calls := calls + [Call(offset, length, flags)];
      assert calls[..|calls| - 1] == old(calls);
      if offset <= size && length <= size - offset && And(allowed, flags) == flags {
        WithinOr(mapFlags, flags, allowed);
        WithinSmall(Or(mapFlags, flags), allowed);
        refs := Add32(refs, 1);
        mapCount := Add32(mapCount, 1);
        mapFlags := Or(mapFlags, flags);
        return At(ptr + offset);
      }
      return Refused;
    }

    /** Ends a mapping; the access it was made for stays recorded. */
    method Unmap(p: nat) returns (ok: bool)
      requires Valid()
      modifies this`refs, this`mapCount
      ensures Valid() && (ok <==> ptr <= p <= ptr + size)
      ensures ok ==> mapCount == Sub32(old(mapCount), 1) && refs == Sub32(old(refs), 1)
      ensures !ok ==> mapCount == old(mapCount) && refs == old(refs)
    {
      ok := ptr <= p && p - ptr <= size;
      if ok {
        mapCount := Sub32(mapCount, 1);
        refs := Sub32(refs, 1);
      }
    }
  }

  // ----- what reaches the host -----

  /** What the host gets back for a buffer of `size` bytes submitted with `flags`. */
  function Returned(size: u32, flags: u32, calls: seq<Call>): u32 {
    ReportedAccess(Recorded(size, AllowedAccess(flags), calls))
  }

  /** The driver shares a buffer when it is submitted with the read or the write flag. */
  predicate Shared(flags: u32) { And(flags, READ_WRITE) != 0 }

  /** The host copies a shared buffer back when the write flag is returned. */
  predicate CopiedBack(size: u32, flags: u32, calls: seq<Call>) {
    Shared(flags) && And(Returned(size, flags, calls), WRITE) != 0
  }

  lemma ReportIsRecord(f: nat)
    requires f <= 3
    ensures ReportedAccess(f) == f && (And(f, WRITE) != 0 <==> f >= 2)
  {
    assert And(1, 1) == 1 && And(2, 1) == 0 && And(3, 1) == 1;
    assert And(1, 2) == 0 && And(2, 2) == 2 && And(3, 2) == 2;
  }

  /** Some granted call asked for the access `bit`. */
  ghost predicate Asked(size: u32, flags: u32, calls: seq<Call>, bit: u32) {
    exists i :: 0 <= i < |calls| && Granted(size, AllowedAccess(flags), calls[i]) && And(calls[i].flags, bit) != 0
  }

  /** The two access bits of small flag words. */
  lemma BitsOf(f: nat)
    requires f <= 3
    ensures And(f, READ) != 0 <==> f == 1 || f == 3
    ensures And(f, WRITE) != 0 <==> f >= 2
    ensures Within(f, READ) <==> f <= 1
    ensures Within(f, WRITE) <==> f == 0 || f == 2
    ensures Within(READ, f) <==> f == 1 || f == 3
    ensures Within(WRITE, f) <==> f >= 2
  {
    assert And(1, 1) == 1 && And(2, 1) == 0 && And(3, 1) == 1;
    assert And(1, 2) == 0 && And(2, 2) == 2 && And(3, 2) == 2;
    assert And(1, 3) == 1 && And(2, 3) == 2;
  }

  /** Reading or writing is reported exactly when some granted call asked for it. */
  lemma ReportedIffAsked(size: u32, flags: u32, calls: seq<Call>, bit: u32)
    requires bit == READ || bit == WRITE
    ensures And(Returned(size, flags, calls), bit) != 0 <==> Asked(size, flags, calls, bit)
  {
    var allowed := AllowedAccess(flags);
    var f := Recorded(size, allowed, calls);
    ReportIsRecord(f);
    BitsOf(f);
    if i :| 0 <= i < |calls| && Granted(size, allowed, calls[i]) && And(calls[i].flags, bit) != 0 {
      RecordedHas(size, allowed, calls, i);
      AskedBit(calls[i].flags, f, allowed, bit);
    } else {
      forall i | 0 <= i < |calls| && Granted(size, allowed, calls[i]) ensures Within(calls[i].flags, READ_WRITE - bit) {
        WithinSmall(calls[i].flags, allowed);
        BitsOf(calls[i].flags);
      }
      RecordedLeast(size, allowed, calls, READ_WRITE - bit);
    }
  }

  lemma AskedBit(g: nat, f: nat, allowed: nat, bit: nat)
    requires (bit == READ || bit == WRITE) && (allowed == READ || allowed == READ_WRITE)
    requires Within(g, allowed) && Within(g, f) && f <= 3 && And(g, bit) != 0
    ensures And(f, bit) != 0
  {
    WithinSmall(g, allowed);
    BitsOf(g);
    BitsOf(f);
    assert And(1, 3) == 1 && And(2, 3) == 2;
  }

  /** A handler that asks for writing gets it recorded, unless the buffer was submitted with
      the read flag and no other bit. */
  lemma WriteRecorded(size: u32, flags: u32)
    requires flags != READ
    ensures And(Returned(size, flags, [Call(0, 0, WRITE)]), WRITE) != 0
  {
    var calls := [Call(0, 0, WRITE)];
    assert calls[..0] == [];
    assert Recorded(size, READ_WRITE, calls[..0]) == 0;
    assert Within(WRITE, READ_WRITE) by { assert And(3, 2) == 2; }
    assert Recorded(size, READ_WRITE, calls) == Or(0, WRITE) == WRITE;
    ReportIsRecord(WRITE);
  }

  lemma WriteAsked(size: u32, flags: u32)
    requires flags != READ
    ensures Asked(size, flags, [Call(0, 0, WRITE)], WRITE)
  {
    WriteRecorded(size, flags);
    ReportedIffAsked(size, flags, [Call(0, 0, WRITE)], WRITE);
  }

  lemma ReadOnlyRecorded(size: u32, calls: seq<Call>)
    ensures And(Returned(size, READ, calls), WRITE) == 0
  {
    var f := Recorded(size, READ, calls);
    WithinSmall(f, READ);
    ReportIsRecord(f);
    assert And(0, WRITE) == 0;
  }

  /** Whatever a handler maps, a buffer is never copied back exactly when it was submitted
      with the read flag and no other bit, or with neither the read nor the write flag: then it
      is not shared at all. Any other bits make the DSP allow writing, whether or not the write
      flag is among them. */
  lemma NeverCopiedBackIff(size: u32, flags: u32)
    ensures (forall calls: seq<Call> :: !CopiedBack(size, flags, calls)) <==>
      flags == READ || And(flags, READ_WRITE) == 0
  {
    if flags == READ {
      forall calls: seq<Call> ensures !CopiedBack(size, flags, calls) {
        ReadOnlyRecorded(size, calls);
      }
    } else if Shared(flags) {
      WriteRecorded(size, flags);
      assert CopiedBack(size, flags, [Call(0, 0, WRITE)]);
    }
  }
}
