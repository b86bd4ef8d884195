/** A command run on the memory that the driver shares with the DSP, against the same command
    run on the user's memory itself. */
module Sharing {
  import opened Bits
  import opened Buffers
  import opened Memory

  /** The blocks of user memory that a request names: input and output that do not fit inline,
      and buffers with the access asked for. */
  datatype Region =
    | Input(addr: nat, len: u32)
    | Output(addr: nat, len: u32)
    | Data(addr: nat, len: u32, flags: u32)
  {
    function End(): nat { addr + len }

    /** The access that the block is shared with. */
    function Granted(): u32 {
      match this
      case Input(_, _) => READ
      case Output(_, _) => WRITE
      case Data(_, _, flags) => flags
    }

    predicate Readable() { And(Granted(), READ) != 0 }

    /** The access that the block is unshared with when the command succeeded. A command that
        was never run leaves the flags of a buffer as they were submitted. */
    function Reported(ran: bool, calls: seq<Call>): u32 {
      match this
      case Input(_, _) => READ
      case Output(_, _) => WRITE
      case Data(_, len, flags) => if ran then Returned(len, flags, calls) else flags
    }

    /** The handler may have changed the block: it ran, and the block is the output or a buffer
        that it asked to write and was granted. */
    ghost predicate Written(ran: bool, calls: seq<Call>) {
      match this
      case Input(_, _) => false
      case Output(_, _) => ran
      case Data(_, len, flags) => ran && Asked(len, flags, calls, WRITE)
    }
  }

  /** A block is not shared, is used in place by the DSP, or has a copy in the pool. */
  datatype Mapping = Unshared | Direct | Copied

  ghost predicate IsMapping(bufs: seq<Region>, maps: seq<Mapping>) {
    |maps| == |bufs| && forall i :: 0 <= i < |bufs| ==> (maps[i].Unshared? <==> !Shared(bufs[i].Granted()))
  }

  /** What a command leaves behind: whether a handler ran at all, whether the answer reports
      success, the contents of the blocks, and the calls that mapped them. */
  datatype Outcome = Outcome(ran: bool, ok: bool, contents: seq<seq<Byte>>, calls: seq<seq<Call>>)

  /** A command handler reads and changes the contents of the blocks. */
  type Handler = seq<seq<Byte>> -> Outcome

  ghost predicate Fit(c: seq<seq<Byte>>, bufs: seq<Region>) {
    |c| == |bufs| && forall i :: 0 <= i < |bufs| ==> |c[i]| == bufs[i].len
  }

  /** A handler changes a block only within its size and after mapping it for writing. */
  ghost predicate Lawful(h: Handler, bufs: seq<Region>) {
    forall c :: Fit(c, bufs) ==> LawfulOn(h(c), c, bufs)
  }

  ghost predicate LawfulOn(r: Outcome, c: seq<seq<Byte>>, bufs: seq<Region>)
    requires Fit(c, bufs)
  {
    && Fit(r.contents, bufs) && |r.calls| == |bufs|
    && forall i :: 0 <= i < |bufs| && !bufs[i].Written(r.ran, r.calls[i]) ==> r.contents[i] == c[i]
  }

  // ----- memory with regions -----

  ghost predicate Room(u: seq<Byte>, bufs: seq<Region>, sel: seq<bool>) {
    |sel| == |bufs| && forall i :: 0 <= i < |bufs| && sel[i] ==> bufs[i].End() <= |u|
  }

  predicate Beside(b: Region, d: Region) { b.End() <= d.addr || d.End() <= b.addr }

  /** The selected regions do not overlap. */
  ghost predicate Separate(bufs: seq<Region>, sel: seq<bool>) {
    |sel| == |bufs| && forall i, j :: 0 <= i < j < |bufs| && sel[i] && sel[j] ==> Beside(bufs[i], bufs[j])
  }

  ghost predicate Selects(sel: seq<bool>, mask: seq<bool>) {
    |sel| == |mask| && forall i :: 0 <= i < |mask| && mask[i] ==> sel[i]
  }

  ghost function All(n: nat): (m: seq<bool>)
    ensures |m| == n && forall i :: 0 <= i < n ==> m[i]
  {
    seq(n, _ => true)
  }

  function Load(u: seq<Byte>, b: Region): seq<Byte>
    requires b.End() <= |u|
  {
    u[b.addr..b.End()]
  }

  ghost function Loaded(u: seq<Byte>, bufs: seq<Region>): (c: seq<seq<Byte>>)
    requires Room(u, bufs, All(|bufs|))
    ensures Fit(c, bufs) && forall i :: 0 <= i < |bufs| ==> c[i] == Load(u, bufs[i])
  {
    seq(|bufs|, i requires 0 <= i < |bufs| => Load(u, bufs[i]))
  }

  /** Stores the first `k` contents that `mask` selects. */
  ghost function StoreFirst(u: seq<Byte>, bufs: seq<Region>, c: seq<seq<Byte>>, mask: seq<bool>, k: nat): (r: seq<Byte>)
    requires Room(u, bufs, mask) && Fit(c, bufs) && k <= |bufs|
    ensures |r| == |u|
  {
    if k == 0 then u
    else
      var v := StoreFirst(u, bufs, c, mask, k - 1);
      if mask[k - 1] then Store(v, bufs[k - 1].addr, c[k - 1]) else v
  }

  lemma StoreHere(v: seq<Byte>, b: Region, data: seq<Byte>)
    requires b.End() <= |v| && |data| == b.len
    ensures Load(Store(v, b.addr, data), b) == data
  {
  }

  lemma StoreBeside(v: seq<Byte>, b: Region, data: seq<Byte>, d: Region)
    requires b.End() <= |v| && d.End() <= |v| && |data| == b.len && Beside(b, d)
    ensures Load(Store(v, b.addr, data), d) == Load(v, d)
  {
    var w := Store(v, b.addr, data);
    forall i | d.addr <= i < d.End() ensures w[i] == v[i] {
      StoreAt(v, b.addr, data, i);
    }
    SameSlice(v, w, d.addr, d.End());
  }

  /** Each selected region holds its contents, and the others what they held. */
  lemma {:induction false} LoadStored(u: seq<Byte>, bufs: seq<Region>, c: seq<seq<Byte>>, mask: seq<bool>, k: nat,
        sel: seq<bool>, j: nat)
    requires Room(u, bufs, sel) && Separate(bufs, sel) && Selects(sel, mask) && Fit(c, bufs) && k <= |bufs|
    requires j < |bufs| && sel[j]
    ensures Load(StoreFirst(u, bufs, c, mask, k), bufs[j]) == if j < k && mask[j] then c[j] else Load(u, bufs[j])
    decreases k
  {
    if k > 0 {
      LoadStored(u, bufs, c, mask, k - 1, sel, j);
      var v := StoreFirst(u, bufs, c, mask, k - 1);
      if mask[k - 1] && j == k - 1 {
        StoreHere(v, bufs[j], c[j]);
      } else if mask[k - 1] {
        assert Beside(bufs[k - 1], bufs[j]);
        StoreBeside(v, bufs[k - 1], c[k - 1], bufs[j]);
      }
    }
  }

  /** A region beside all the selected ones keeps what it holds. */
  lemma {:induction false} LoadElsewhere(u: seq<Byte>, bufs: seq<Region>, c: seq<seq<Byte>>, mask: seq<bool>, k: nat,
        d: Region)
    requires Room(u, bufs, mask) && Fit(c, bufs) && k <= |bufs| && d.End() <= |u|
    requires forall i :: 0 <= i < |bufs| && mask[i] ==> Beside(bufs[i], d)
    ensures Load(StoreFirst(u, bufs, c, mask, k), d) == Load(u, d)
    decreases k
  {
    if k > 0 {
      LoadElsewhere(u, bufs, c, mask, k - 1, d);
      if mask[k - 1] {
        StoreBeside(StoreFirst(u, bufs, c, mask, k - 1), bufs[k - 1], c[k - 1], d);
      }
    }
  }

  predicate Has(b: Region, x: int) { b.addr <= x < b.End() }

  /** Outside all the regions, `v` holds what `u` holds. */
  ghost predicate SameOutside(u: seq<Byte>, v: seq<Byte>, bufs: seq<Region>) {
    |v| == |u| && forall x :: 0 <= x < |u| && (forall i :: 0 <= i < |bufs| ==> !Has(bufs[i], x)) ==> v[x] == u[x]
  }

  lemma {:induction false} StoredOutside(u: seq<Byte>, bufs: seq<Region>, c: seq<seq<Byte>>, mask: seq<bool>, k: nat)
    requires Room(u, bufs, mask) && Fit(c, bufs) && k <= |bufs|
    ensures SameOutside(u, StoreFirst(u, bufs, c, mask, k), bufs)
    decreases k
  {
    if k > 0 {
      StoredOutside(u, bufs, c, mask, k - 1);
      var v, w := StoreFirst(u, bufs, c, mask, k - 1), StoreFirst(u, bufs, c, mask, k);
      forall x | 0 <= x < |u| && (forall i :: 0 <= i < |bufs| ==> !Has(bufs[i], x)) ensures w[x] == u[x] {
        assert !Has(bufs[k - 1], x) && v[x] == u[x];
      }
    }
  }

  /** Memories that agree outside the regions are equal exactly when they agree on each. */
  lemma SameMemory(u: seq<Byte>, v: seq<Byte>, w: seq<Byte>, bufs: seq<Region>)
    requires Room(u, bufs, All(|bufs|)) && SameOutside(u, v, bufs) && SameOutside(u, w, bufs)
    ensures v == w <==> forall i :: 0 <= i < |bufs| ==> Load(v, bufs[i]) == Load(w, bufs[i])
  {
    if forall i :: 0 <= i < |bufs| ==> Load(v, bufs[i]) == Load(w, bufs[i]) {
      forall x | 0 <= x < |u| ensures v[x] == w[x] {
        if i :| 0 <= i < |bufs| && Has(bufs[i], x) {
          assert v[x] == Load(v, bufs[i])[x - bufs[i].addr];
          assert w[x] == Load(w, bufs[i])[x - bufs[i].addr];
        }
      }
    }
  }

  // ----- the command through the driver -----

  predicate CopiesBack(m: Mapping, flags: u32) { m.Copied? && And(flags, WRITE) != 0 }

  /** What the DSP finds in the blocks: user memory in place, a copy of what is readable, and
      whatever is in pool memory or at an untranslated address otherwise. */
  ghost function Seen(u: seq<Byte>, bufs: seq<Region>, maps: seq<Mapping>, wild: seq<seq<Byte>>): (c: seq<seq<Byte>>)
    requires Room(u, bufs, All(|bufs|)) && |maps| == |bufs| && Fit(wild, bufs)
    ensures Fit(c, bufs)
    ensures forall i :: 0 <= i < |bufs| ==> c[i] == SeenIn(u, bufs[i], maps[i], wild[i])
  {
    seq(|bufs|, i requires 0 <= i < |bufs| => SeenIn(u, bufs[i], maps[i], wild[i]))
  }

  function SeenIn(u: seq<Byte>, b: Region, m: Mapping, wild: seq<Byte>): seq<Byte>
    requires b.End() <= |u|
  {
    if m.Direct? || (m.Copied? && b.Readable()) then Load(u, b) else wild
  }

  ghost function InPlace(maps: seq<Mapping>): (m: seq<bool>)
    ensures |m| == |maps| && forall i :: 0 <= i < |m| ==> m[i] == maps[i].Direct?
  {
    seq(|maps|, i requires 0 <= i < |maps| => maps[i].Direct?)
  }

  /** Ends the sharing of one block with the given access: a copy is written back when the
      access includes writing, and nothing else is. */
  function Unshare(u: seq<Byte>, b: Region, m: Mapping, copy: seq<Byte>, flags: u32): (r: seq<Byte>)
    requires b.End() <= |u| && |copy| == b.len
    ensures |r| == |u|
  {
    if CopiesBack(m, flags) then Store(u, b.addr, copy) else u
  }

  /** Ends the sharing of the first `k` blocks. */
  ghost function Unmap(u: seq<Byte>, bufs: seq<Region>, maps: seq<Mapping>, copies: seq<seq<Byte>>, flags: seq<u32>,
        k: nat): (r: seq<Byte>)
    requires Room(u, bufs, All(|bufs|)) && |maps| == |bufs| == |flags| && Fit(copies, bufs) && k <= |bufs|
    ensures |r| == |u|
  {
    if k == 0 then u
    else Unshare(Unmap(u, bufs, maps, copies, flags, k - 1), bufs[k - 1], maps[k - 1], copies[k - 1], flags[k - 1])
  }

  /** The access the blocks are unshared with: as reported after success, and none at all when
      the answer reports a failure. */
  ghost function UnmapFlags(bufs: seq<Region>, r: Outcome): (f: seq<u32>)
    requires |r.calls| == |bufs|
    ensures |f| == |bufs| && forall i :: 0 <= i < |bufs| ==>
      f[i] == if r.ok then bufs[i].Reported(r.ran, r.calls[i]) else 0
  {
    seq(|bufs|, i requires 0 <= i < |bufs| => if r.ok then bufs[i].Reported(r.ran, r.calls[i]) else 0)
  }

  /** The command through the driver: share, run, unshare. */
  ghost function ViaDriver(u: seq<Byte>, bufs: seq<Region>, maps: seq<Mapping>, wild: seq<seq<Byte>>,
        h: Handler): seq<Byte>
    requires Room(u, bufs, All(|bufs|)) && |maps| == |bufs| && Fit(wild, bufs) && Lawful(h, bufs)
  {
    var r := h(Seen(u, bufs, maps, wild));
    Unmap(StoreFirst(u, bufs, r.contents, InPlace(maps), |bufs|), bufs, maps, r.contents, UnmapFlags(bufs, r), |bufs|)
  }

  /** The command on the user's memory. */
  ghost function Directly(u: seq<Byte>, bufs: seq<Region>, h: Handler): seq<Byte>
    requires Room(u, bufs, All(|bufs|)) && Lawful(h, bufs)
  {
    StoreFirst(u, bufs, h(Loaded(u, bufs)).contents, All(|bufs|), |bufs|)
  }

  ghost function BackMask(maps: seq<Mapping>, flags: seq<u32>): (m: seq<bool>)
    requires |maps| == |flags|
    ensures |m| == |maps| && forall i :: 0 <= i < |m| ==> m[i] == CopiesBack(maps[i], flags[i])
  {
    seq(|maps|, i requires 0 <= i < |maps| => CopiesBack(maps[i], flags[i]))
  }

  lemma {:induction false} UnmapStores(u: seq<Byte>, bufs: seq<Region>, maps: seq<Mapping>, copies: seq<seq<Byte>>,
        flags: seq<u32>, k: nat)
    requires Room(u, bufs, All(|bufs|)) && |maps| == |bufs| == |flags| && Fit(copies, bufs) && k <= |bufs|
    ensures Unmap(u, bufs, maps, copies, flags, k) == StoreFirst(u, bufs, copies, BackMask(maps, flags), k)
    decreases k
  {
    if k > 0 {
      UnmapStores(u, bufs, maps, copies, flags, k - 1);
    }
  }

  /** The contents reach the user: those of a block used in place always do, those of a copy
      after success if it is the output, or a buffer that was asked for writing. When no handler
      ran, the submitted flags stand in for what was asked. */
  ghost predicate Reaches(b: Region, m: Mapping, r: Outcome, calls: seq<Call>) {
    match m
    case Unshared => false
    case Direct => true
    case Copied => r.ok && GoesBack(b, r.ran, calls)
  }

  ghost predicate GoesBack(b: Region, ran: bool, calls: seq<Call>) {
    match b
    case Input(_, _) => false
    case Output(_, _) => true
    case Data(_, len, flags) => if ran then Asked(len, flags, calls, WRITE) else And(flags, WRITE) != 0
  }

  /** This is what the reported access brings about. */
  lemma ReachesIff(b: Region, m: Mapping, r: Outcome, calls: seq<Call>)
    ensures Reaches(b, m, r, calls) <==>
      m.Direct? || CopiesBack(m, if r.ok then b.Reported(r.ran, calls) else 0)
  {
    assert And(0, WRITE) == 0 && And(READ, WRITE) == 0 && And(WRITE, WRITE) != 0;
    if b.Data? {
      ReportedIffAsked(b.len, b.flags, calls, WRITE);
    }
  }

  /** What the command leaves in block `i`. */
  ghost function LeftIn(u: seq<Byte>, b: Region, m: Mapping, r: Outcome, i: nat): seq<Byte>
    requires b.End() <= |u| && i < |r.contents| && i < |r.calls|
  {
    if Reaches(b, m, r, r.calls[i]) then r.contents[i] else Load(u, b)
  }

  /** What the command leaves in user memory: contents that reach it, old contents elsewhere in
      the blocks, and nothing changed outside them. */
  lemma DriverLeaves(u: seq<Byte>, bufs: seq<Region>, maps: seq<Mapping>, wild: seq<seq<Byte>>, h: Handler)
    requires Room(u, bufs, All(|bufs|)) && Separate(bufs, All(|bufs|)) && |maps| == |bufs| && Fit(wild, bufs) &&
      Lawful(h, bufs)
    ensures var r, v := h(Seen(u, bufs, maps, wild)), ViaDriver(u, bufs, maps, wild, h);
      && SameOutside(u, v, bufs)
      && forall i :: 0 <= i < |bufs| ==> Load(v, bufs[i]) == LeftIn(u, bufs[i], maps[i], r, i)
  {
    var r := h(Seen(u, bufs, maps, wild));
    var place, flags := InPlace(maps), UnmapFlags(bufs, r);
    var v := StoreFirst(u, bufs, r.contents, place, |bufs|);
    UnmapStores(v, bufs, maps, r.contents, flags, |bufs|);
    StoredOutside(u, bufs, r.contents, place, |bufs|);
    StoredOutside(v, bufs, r.contents, BackMask(maps, flags), |bufs|);
    forall i | 0 <= i < |bufs|
      ensures Load(StoreFirst(v, bufs, r.contents, BackMask(maps, flags), |bufs|), bufs[i]) ==
        LeftIn(u, bufs[i], maps[i], r, i)
    {
      BlockLeft(u, bufs, maps, r, flags, i);
    }
  }

  lemma BlockLeft(u: seq<Byte>, bufs: seq<Region>, maps: seq<Mapping>, r: Outcome, flags: seq<u32>, i: nat)
    requires Room(u, bufs, All(|bufs|)) && Separate(bufs, All(|bufs|)) && |maps| == |bufs| == |flags| &&
      Fit(r.contents, bufs)
    requires i < |bufs| == |r.calls| && flags[i] == if r.ok then bufs[i].Reported(r.ran, r.calls[i]) else 0
    ensures Load(StoreFirst(StoreFirst(u, bufs, r.contents, InPlace(maps), |bufs|), bufs, r.contents,
      BackMask(maps, flags), |bufs|), bufs[i])
         == LeftIn(u, bufs[i], maps[i], r, i)
  {
    ReachesIff(bufs[i], maps[i], r, r.calls[i]);
    LoadStored(u, bufs, r.contents, InPlace(maps), |bufs|, All(|bufs|), i);
    LoadStored(StoreFirst(u, bufs, r.contents, InPlace(maps), |bufs|), bufs, r.contents, BackMask(maps, flags),
      |bufs|, All(|bufs|), i);
  }

  lemma DirectlyLeaves(u: seq<Byte>, bufs: seq<Region>, h: Handler)
    requires Room(u, bufs, All(|bufs|)) && Separate(bufs, All(|bufs|)) && Lawful(h, bufs)
    ensures var r, v := h(Loaded(u, bufs)), Directly(u, bufs, h);
      SameOutside(u, v, bufs) && forall i :: 0 <= i < |bufs| ==> Load(v, bufs[i]) == r.contents[i]
  {
    var r := h(Loaded(u, bufs));
    StoredOutside(u, bufs, r.contents, All(|bufs|), |bufs|);
    forall i | 0 <= i < |bufs| ensures Load(Directly(u, bufs, h), bufs[i]) == r.contents[i] {
      LoadStored(u, bufs, r.contents, All(|bufs|), |bufs|, All(|bufs|), i);
    }
  }

  // ----- transparency -----

  /** The driver's run and the direct run leave the same memory exactly when they leave the
      same bytes in each block. */
  lemma SameRunIff(u: seq<Byte>, bufs: seq<Region>, maps: seq<Mapping>, wild: seq<seq<Byte>>, h: Handler)
    requires Room(u, bufs, All(|bufs|)) && Separate(bufs, All(|bufs|)) && |maps| == |bufs| && Fit(wild, bufs) &&
      Lawful(h, bufs)
    ensures var r, d := h(Seen(u, bufs, maps, wild)), h(Loaded(u, bufs));
      ViaDriver(u, bufs, maps, wild, h) == Directly(u, bufs, h) <==>
        forall i :: 0 <= i < |bufs| ==> d.contents[i] == LeftIn(u, bufs[i], maps[i], r, i)
  {
    DriverLeaves(u, bufs, maps, wild, h);
    DirectlyLeaves(u, bufs, h);
    SameMemory(u, ViaDriver(u, bufs, maps, wild, h), Directly(u, bufs, h), bufs);
  }

  /** The DSP sees the user's bytes in the block: it is used in place, or copied and either the
      input or a buffer that grants reading. */
  predicate Faithful(b: Region, m: Mapping) {
    m.Direct? || (m.Copied? && (b.Input? || (b.Data? && And(b.flags, READ) != 0)))
  }

  lemma FaithfulSeen(u: seq<Byte>, b: Region, m: Mapping, wild: seq<Byte>)
    requires b.End() <= |u|
    ensures SeenIn(u, b, m, wild) == if Faithful(b, m) then Load(u, b) else wild
  {
    assert And(READ, READ) != 0 && And(WRITE, READ) == 0;
  }

  lemma AllFaithfulSeen(u: seq<Byte>, bufs: seq<Region>, maps: seq<Mapping>, wild: seq<seq<Byte>>)
    requires Room(u, bufs, All(|bufs|)) && |maps| == |bufs| && Fit(wild, bufs)
    ensures forall i :: 0 <= i < |bufs| ==>
      Seen(u, bufs, maps, wild)[i] == if Faithful(bufs[i], maps[i]) then Load(u, bufs[i]) else wild[i]
  {
    forall i | 0 <= i < |bufs|
      ensures Seen(u, bufs, maps, wild)[i] == if Faithful(bufs[i], maps[i]) then Load(u, bufs[i]) else wild[i]
    {
      FaithfulSeen(u, bufs[i], maps[i], wild[i]);
    }
  }

  /** The handler does not look at the old contents of blocks that do not show the user's
      bytes: given the same other blocks it writes the same ones with the same contents. */
  ghost predicate Overwrites(h: Handler, bufs: seq<Region>, maps: seq<Mapping>)
    requires Lawful(h, bufs) && |maps| == |bufs|
  {
    forall c, d ::
      Fit(c, bufs) && Fit(d, bufs) && SameSeen(bufs, maps, c, d) ==> SameWrites(h(c), c, h(d), d, bufs)
  }

  ghost predicate SameSeen(bufs: seq<Region>, maps: seq<Mapping>, c: seq<seq<Byte>>, d: seq<seq<Byte>>)
    requires |maps| == |bufs| && Fit(c, bufs) && Fit(d, bufs)
  {
    forall i :: 0 <= i < |bufs| && Faithful(bufs[i], maps[i]) ==> c[i] == d[i]
  }

  ghost predicate SameWrites(r: Outcome, c: seq<seq<Byte>>, s: Outcome, d: seq<seq<Byte>>, bufs: seq<Region>)
    requires Fit(c, bufs) && Fit(d, bufs) && LawfulOn(r, c, bufs) && LawfulOn(s, d, bufs)
  {
    && r.ran && s.ran && r.ok == s.ok && r.calls == s.calls
    && forall i :: 0 <= i < |bufs| && bufs[i].Written(true, r.calls[i]) ==> r.contents[i] == s.contents[i]
  }

  /** A successful command leaves user memory exactly as the command on user memory itself
      does, for disjoint blocks that are readable or fully overwritten, if and only if it
      leaves the blocks that are not shared as they were. */
  lemma Transparent(u: seq<Byte>, bufs: seq<Region>, maps: seq<Mapping>, wild: seq<seq<Byte>>, h: Handler)
    requires Room(u, bufs, All(|bufs|)) && Separate(bufs, All(|bufs|)) && IsMapping(bufs, maps) && Fit(wild, bufs)
    requires Lawful(h, bufs) && Overwrites(h, bufs, maps) && h(Loaded(u, bufs)).ok
    ensures ViaDriver(u, bufs, maps, wild, h) == Directly(u, bufs, h) <==>
      forall i :: 0 <= i < |bufs| && maps[i].Unshared? ==> h(Loaded(u, bufs)).contents[i] == Load(u, bufs[i])
  {
    var c, d := Seen(u, bufs, maps, wild), Loaded(u, bufs);
    AllFaithfulSeen(u, bufs, maps, wild);
    WritesTheSame(h, bufs, maps, c, d);
    BlocksAgree(u, bufs, maps, c, d, h(c), h(d));
    SameRunIff(u, bufs, maps, wild, h);
  }

  lemma WritesTheSame(h: Handler, bufs: seq<Region>, maps: seq<Mapping>, c: seq<seq<Byte>>, d: seq<seq<Byte>>)
    requires Lawful(h, bufs) && |maps| == |bufs| && Overwrites(h, bufs, maps) && Fit(c, bufs) && Fit(d, bufs)
    requires forall i :: 0 <= i < |bufs| && Faithful(bufs[i], maps[i]) ==> c[i] == d[i]
    ensures LawfulOn(h(c), c, bufs) && LawfulOn(h(d), d, bufs) && SameWrites(h(c), c, h(d), d, bufs)
  {
    assert SameSeen(bufs, maps, c, d);
  }

  /** The blocks agree exactly when those that are not shared are as they were. */
  lemma BlocksAgree(u: seq<Byte>, bufs: seq<Region>, maps: seq<Mapping>, c: seq<seq<Byte>>, d: seq<seq<Byte>>,
        r: Outcome, s: Outcome)
    requires Room(u, bufs, All(|bufs|)) && |maps| == |bufs|
    requires Fit(c, bufs) && Fit(d, bufs) && LawfulOn(r, c, bufs) && LawfulOn(s, d, bufs) &&
      SameWrites(r, c, s, d, bufs) && r.ok
    requires forall i :: 0 <= i < |bufs| ==> d[i] == Load(u, bufs[i]) && (maps[i].Direct? ==> c[i] == d[i])
    ensures (forall i :: 0 <= i < |bufs| ==> s.contents[i] == LeftIn(u, bufs[i], maps[i], r, i)) <==>
      forall i :: 0 <= i < |bufs| && maps[i].Unshared? ==> s.contents[i] == Load(u, bufs[i])
  {
    forall i | 0 <= i < |bufs| && !maps[i].Unshared? ensures s.contents[i] == LeftIn(u, bufs[i], maps[i], r, i) {
      BlockAgrees(u, bufs, maps, c, d, r, s, i);
    }
  }

  /** A shared block is written back, or was not written. */
  lemma BlockAgrees(u: seq<Byte>, bufs: seq<Region>, maps: seq<Mapping>, c: seq<seq<Byte>>, d: seq<seq<Byte>>,
        r: Outcome, s: Outcome, i: nat)
    requires i < |bufs| == |maps| && !maps[i].Unshared? && bufs[i].End() <= |u|
    requires Fit(c, bufs) && Fit(d, bufs) && LawfulOn(r, c, bufs) && LawfulOn(s, d, bufs) &&
      SameWrites(r, c, s, d, bufs) && r.ok
    requires d[i] == Load(u, bufs[i]) && (maps[i].Direct? ==> c[i] == d[i])
    ensures s.contents[i] == LeftIn(u, bufs[i], maps[i], r, i)
  {
    WrittenBack(bufs[i], maps[i], r, r.calls[i]);
  }

  lemma WrittenBack(b: Region, m: Mapping, r: Outcome, calls: seq<Call>)
    requires !m.Unshared? && r.ok
    ensures !Reaches(b, m, r, calls) ==> !b.Written(r.ran, calls)
    ensures r.ran && Reaches(b, m, r, calls) && !b.Written(true, calls) ==> m.Direct?
  {
  }

  /** After a command that fails, user memory is as it was if and only if the handler left the
      blocks alone that it works on in place. */
  lemma FailureKeepsIff(u: seq<Byte>, bufs: seq<Region>, maps: seq<Mapping>, wild: seq<seq<Byte>>, h: Handler)
    requires Room(u, bufs, All(|bufs|)) && Separate(bufs, All(|bufs|)) && |maps| == |bufs| && Fit(wild, bufs) &&
      Lawful(h, bufs)
    requires !h(Seen(u, bufs, maps, wild)).ok
    ensures ViaDriver(u, bufs, maps, wild, h) == u <==>
      forall i :: 0 <= i < |bufs| && maps[i].Direct? ==> h(Seen(u, bufs, maps, wild)).contents[i] == Load(u, bufs[i])
  {
    var r, v := h(Seen(u, bufs, maps, wild)), ViaDriver(u, bufs, maps, wild, h);
    DriverLeaves(u, bufs, maps, wild, h);
    FailureKeeps(u, v, bufs, maps, r);
  }

  lemma FailureKeeps(u: seq<Byte>, v: seq<Byte>, bufs: seq<Region>, maps: seq<Mapping>, r: Outcome)
    requires Room(u, bufs, All(|bufs|)) && |maps| == |bufs| == |r.calls| == |r.contents| && !r.ok
    requires SameOutside(u, v, bufs)
    requires forall i :: 0 <= i < |bufs| ==> Load(v, bufs[i]) == LeftIn(u, bufs[i], maps[i], r, i)
    ensures v == u <==> forall i :: 0 <= i < |bufs| && maps[i].Direct? ==> r.contents[i] == Load(u, bufs[i])
  {
    SameMemory(u, v, u, bufs);
    forall i | 0 <= i < |bufs| ensures Load(v, bufs[i]) == if maps[i].Direct? then r.contents[i] else Load(u, bufs[i]) {
    }
  }

  /** A command whose handler never ran, and which is answered as a success all the same, shows
      the user what the copies held that were not filled: memory is as it was if and only if
      these happen to hold the user's bytes. */
  lemma NeverRanKeepsIff(u: seq<Byte>, bufs: seq<Region>, maps: seq<Mapping>, wild: seq<seq<Byte>>, h: Handler)
    requires Room(u, bufs, All(|bufs|)) && Separate(bufs, All(|bufs|)) && IsMapping(bufs, maps) && Fit(wild, bufs) &&
      Lawful(h, bufs)
    requires !h(Seen(u, bufs, maps, wild)).ran && h(Seen(u, bufs, maps, wild)).ok
    ensures ViaDriver(u, bufs, maps, wild, h) == u <==>
      forall i :: 0 <= i < |bufs| && maps[i].Copied? && !Faithful(bufs[i], maps[i]) ==> wild[i] == Load(u, bufs[i])
  {
    var r := h(Seen(u, bufs, maps, wild));
    forall i | 0 <= i < |bufs|
      ensures LeftIn(u, bufs[i], maps[i], r, i) ==
        if maps[i].Copied? && !Faithful(bufs[i], maps[i]) then wild[i] else Load(u, bufs[i])
    {
      UnrunBlock(u, bufs[i], maps[i], wild[i], r, i);
    }
    DriverLeaves(u, bufs, maps, wild, h);
    SameMemory(u, ViaDriver(u, bufs, maps, wild, h), u, bufs);
  }

  lemma UnrunBlock(u: seq<Byte>, b: Region, m: Mapping, wild: seq<Byte>, r: Outcome, i: nat)
    requires b.End() <= |u| && i < |r.contents| && i < |r.calls| && !r.ran && r.ok
    requires r.contents[i] == SeenIn(u, b, m, wild) && (m.Unshared? <==> !Shared(b.Granted()))
    ensures LeftIn(u, b, m, r, i) == if m.Copied? && !Faithful(b, m) then wild else Load(u, b)
  {
    FaithfulSeen(u, b, m, wild);
    if b.Data? && m.Copied? && !Faithful(b, m) {
      UnreadableWritable(b.flags);
    }
  }

  lemma UnreadableWritable(flags: u32)
    requires Shared(flags) && And(flags, READ) == 0
    ensures And(flags, WRITE) != 0 && flags != READ
  {
    AndSplit(flags);
  }

  lemma AndSplit(flags: nat)
    ensures And(flags, READ_WRITE) == And(flags, READ) + And(flags, WRITE)
  {
    assert And(flags, 3) == (if flags % 2 == 1 then 1 else 0) + 2 * And(flags / 2, 1);
    assert And(flags, 2) == 2 * And(flags / 2, 1);
    assert And(flags, 1) == (if flags % 2 == 1 then 1 else 0) + 2 * And(flags / 2, 0);
    assert And(flags / 2, 0) == 0;
  }

  // ----- which blocks make every command transparent -----

  ghost predicate AlwaysTransparent(bufs: seq<Region>, maps: seq<Mapping>)
    requires |maps| == |bufs|
  {
    forall u, wild, h ::
      Room(u, bufs, All(|bufs|)) && Fit(wild, bufs) && Lawful(h, bufs) && Succeeds(u, bufs, maps, wild, h) ==>
      ViaDriver(u, bufs, maps, wild, h) == Directly(u, bufs, h)
  }

  ghost predicate Succeeds(u: seq<Byte>, bufs: seq<Region>, maps: seq<Mapping>, wild: seq<seq<Byte>>, h: Handler)
    requires Room(u, bufs, All(|bufs|)) && |maps| == |bufs| && Fit(wild, bufs)
  {
    h(Loaded(u, bufs)).ok && h(Seen(u, bufs, maps, wild)).ok
  }

  lemma FaithfulTransparent(bufs: seq<Region>, maps: seq<Mapping>)
    requires Separate(bufs, All(|bufs|)) && |maps| == |bufs|
    requires forall i :: 0 <= i < |bufs| ==> Faithful(bufs[i], maps[i]) || bufs[i].len == 0
    ensures AlwaysTransparent(bufs, maps)
  {
    forall u, wild, h
      | Room(u, bufs, All(|bufs|)) && Fit(wild, bufs) && Lawful(h, bufs) && Succeeds(u, bufs, maps, wild, h)
      ensures ViaDriver(u, bufs, maps, wild, h) == Directly(u, bufs, h)
    {
      FaithfulRun(u, bufs, maps, wild, h);
    }
  }

  lemma FaithfulRun(u: seq<Byte>, bufs: seq<Region>, maps: seq<Mapping>, wild: seq<seq<Byte>>, h: Handler)
    requires Room(u, bufs, All(|bufs|)) && Separate(bufs, All(|bufs|)) && |maps| == |bufs| && Fit(wild, bufs) &&
      Lawful(h, bufs)
    requires forall i :: 0 <= i < |bufs| ==> Faithful(bufs[i], maps[i]) || bufs[i].len == 0
    requires h(Loaded(u, bufs)).ok
    ensures ViaDriver(u, bufs, maps, wild, h) == Directly(u, bufs, h)
  {
    var c := Loaded(u, bufs);
    AllFaithfulSeen(u, bufs, maps, wild);
    assert Seen(u, bufs, maps, wild) == c;
    var r := h(c);
    forall i | 0 <= i < |bufs| ensures r.contents[i] == LeftIn(u, bufs[i], maps[i], r, i) {
      if bufs[i].len > 0 { WrittenBack(bufs[i], maps[i], r, r.calls[i]); }
    }
    SameRunIff(u, bufs, maps, wild, h);
  }

  /** A handler that maps every block for writing and fills block `k` with ones. */
  function Scribble(c: seq<seq<Byte>>, k: nat): Outcome {
    Outcome(true, true, if k < |c| then c[k := seq(|c[k]|, _ => 1)] else c, seq(|c|, _ => [Call(0, 0, WRITE)]))
  }

  lemma ScribbleLawful(bufs: seq<Region>, k: nat)
    requires k < |bufs| ==> bufs[k].Data? && bufs[k].flags != READ
    ensures Lawful(c => Scribble(c, k), bufs)
  {
    if k < |bufs| {
      WriteAsked(bufs[k].len, bufs[k].flags);
    }
  }

  /** A memory large enough for the blocks, all of one value. */
  ghost function Filled(bufs: seq<Region>, x: Byte): (u: seq<Byte>)
    ensures Room(u, bufs, All(|bufs|)) && forall i :: 0 <= i < |u| ==> u[i] == x
  {
    if bufs == [] then []
    else
      var last := bufs[|bufs| - 1];
      var v := Filled(bufs[..|bufs| - 1], x);
      var w := v + seq(last.End(), _ => x);
      assert forall i :: 0 <= i < |bufs| - 1 ==> bufs[i] == bufs[..|bufs| - 1][i] && All(|bufs| - 1)[i];
      w
  }

  lemma NotAlways(bufs: seq<Region>, maps: seq<Mapping>, u: seq<Byte>, wild: seq<seq<Byte>>, h: Handler)
    requires |maps| == |bufs| && Room(u, bufs, All(|bufs|)) && Fit(wild, bufs) && Lawful(h, bufs) &&
      Succeeds(u, bufs, maps, wild, h)
    requires ViaDriver(u, bufs, maps, wild, h) != Directly(u, bufs, h)
    ensures !AlwaysTransparent(bufs, maps)
  {
  }

  /** Different bytes in one block make a difference. */
  lemma Differs(u: seq<Byte>, bufs: seq<Region>, maps: seq<Mapping>, wild: seq<seq<Byte>>, h: Handler, k: nat)
    requires Room(u, bufs, All(|bufs|)) && Separate(bufs, All(|bufs|)) && |maps| == |bufs| && Fit(wild, bufs)
    requires Lawful(h, bufs) && Succeeds(u, bufs, maps, wild, h) && k < |bufs|
    requires h(Loaded(u, bufs)).contents[k] != LeftIn(u, bufs[k], maps[k], h(Seen(u, bufs, maps, wild)), k)
    ensures !AlwaysTransparent(bufs, maps)
  {
    SameRunIff(u, bufs, maps, wild, h);
    NotAlways(bufs, maps, u, wild, h);
  }

  /** A copy that is not filled shows stale pool memory to the user after a command that maps
      it for writing and writes nothing. */
  lemma StaleBytesLeak(bufs: seq<Region>, maps: seq<Mapping>, k: nat)
    requires Separate(bufs, All(|bufs|)) && IsMapping(bufs, maps)
    requires k < |bufs| && maps[k].Copied? && !Faithful(bufs[k], maps[k]) && bufs[k].len > 0
    ensures !AlwaysTransparent(bufs, maps)
  {
    var u := Filled(bufs, 0);
    var wild := Loaded(Filled(bufs, 1), bufs);
    var h: Handler := c => Scribble(c, |bufs|);
    ScribbleLawful(bufs, |bufs|);
    FaithfulSeen(u, bufs[k], maps[k], wild[k]);
    UntouchedGoesBack(bufs[k], maps[k], h(Seen(u, bufs, maps, wild)), k);
    assert wild[k][0] == 1 && Loaded(u, bufs)[k][0] == 0;
    Differs(u, bufs, maps, wild, h, k);
  }

  lemma UntouchedGoesBack(b: Region, m: Mapping, r: Outcome, i: nat)
    requires m.Copied? && !Faithful(b, m) && Shared(b.Granted())
    requires r.ok && r.ran && i < |r.calls| && r.calls[i] == [Call(0, 0, WRITE)]
    ensures Reaches(b, m, r, r.calls[i])
  {
    if b.Data? {
      UnreadableWritable(b.flags);
      WriteAsked(b.len, b.flags);
    }
  }

  lemma UnsharedIsData(b: Region)
    requires !Shared(b.Granted())
    ensures b.Data? && b.flags != READ
  {
    assert And(READ, READ_WRITE) != 0 && And(WRITE, READ_WRITE) != 0;
  }

  /** What a handler writes into a block that is not shared never reaches the user. */
  lemma WritesVanish(bufs: seq<Region>, maps: seq<Mapping>, k: nat)
    requires Separate(bufs, All(|bufs|)) && IsMapping(bufs, maps)
    requires k < |bufs| && maps[k].Unshared? && bufs[k].len > 0
    ensures !AlwaysTransparent(bufs, maps)
  {
    var u := Filled(bufs, 0);
    var wild := Loaded(u, bufs);
    var h: Handler := c => Scribble(c, k);
    UnsharedIsData(bufs[k]);
    ScribbleLawful(bufs, k);
    ScribbleShows(Loaded(u, bufs), k);
    Differs(u, bufs, maps, wild, h, k);
  }

  lemma ScribbleShows(c: seq<seq<Byte>>, k: nat)
    requires k < |c| && |c[k]| > 0 && c[k][0] == 0
    ensures Scribble(c, k).contents[k] != c[k]
  {
    assert Scribble(c, k).contents[k][0] == 1;
  }

  /** For disjoint blocks, every successful command is transparent if and only if every block
      that has any bytes is used in place, or is copied and is the input or grants reading. */
  lemma TransparentIff(bufs: seq<Region>, maps: seq<Mapping>)
    requires Separate(bufs, All(|bufs|)) && IsMapping(bufs, maps)
    ensures AlwaysTransparent(bufs, maps) <==>
      forall i :: 0 <= i < |bufs| ==> Faithful(bufs[i], maps[i]) || bufs[i].len == 0
  {
    if forall i :: 0 <= i < |bufs| ==> Faithful(bufs[i], maps[i]) || bufs[i].len == 0 {
      FaithfulTransparent(bufs, maps);
    } else {
      var k :| 0 <= k < |bufs| && !Faithful(bufs[k], maps[k]) && bufs[k].len != 0;
      if maps[k].Unshared? { WritesVanish(bufs, maps, k); } else { StaleBytesLeak(bufs, maps, k); }
    }
  }
}
