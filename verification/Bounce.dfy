/** Bounce buffers: the page-wise copy, and where the copy is placed. */
module Bounce {
  import opened Bits
  import opened FreeLists
  import opened Memory
  import Pools

  const PAGE: nat := Pools.PAGE_SIZE

  // ----- the copy loop -----

  /** How many chunks a copy takes: one for each page of physical memory it touches, or one in
      all when the physical address has no page structures. */
  function Chunks(paddr: nat, size: nat, paged: bool): (n: nat)
    ensures paged ==> LastChunk(paddr, size, n)
  {
    if !paged then 1
    else if size == 0 then 0
    else (DivMono(paddr, paddr + size - 1); (paddr + size - 1) / PAGE - paddr / PAGE + 1)
  }

  lemma DivMono(x: nat, y: nat)
    requires x <= y
    ensures x / PAGE <= y / PAGE
  {
  }

  /** Why a chunk fails: its physical memory cannot be mapped, or user memory faults after some
      bytes. */
  datatype Fault = NoMapping | UserFault(copied: nat)

  /** The chunks that fail, by number. */
  type Faults = map<nat, Fault>

  /** A chunk of no bytes touches no user memory. */
  predicate Possible(faults: Faults, chunk: nat, n: nat) {
    n == 0 && chunk in faults ==> faults[chunk].NoMapping?
  }

  /** No chunk of the copy fails. */
  ghost predicate NoFault(faults: Faults, chunks: nat) {
    forall k :: 0 <= k < chunks ==> k !in faults
  }

  /** How far a chunk of `n` bytes gets when it fails: never to its end. */
  function Partial(f: Fault, n: nat): nat
    requires n > 0 || f.NoMapping?
  {
    match f
    case NoMapping => 0
    case UserFault(copied) => Min(copied, n - 1)
  }

  /** Byte `k` of memory `was` once `n` bytes of `data` and then `z` zeros are stored at `at`. */
  function ByteAt(was: seq<Byte>, at: nat, data: seq<Byte>, n: nat, z: nat, k: nat): Byte
    requires n <= |data| && k < |was|
  {
    if at <= k < at + n then data[k - at] else if at + n <= k < at + n + z then 0 else was[k]
  }

  ghost predicate Copied(was: seq<Byte>, now: seq<Byte>, at: nat, data: seq<Byte>, n: nat, z: nat) {
    && n + z <= |data| && |now| == |was|
    && forall k :: 0 <= k < |was| ==> now[k] == ByteAt(was, at, data, n, z, k)
  }

  /** A copy of `data` to `at` that went wrong: a proper prefix of it, if it has any bytes, then
      zeros up to the end of a chunk if `padded`, and nothing else has changed. */
  ghost predicate Broken(was: seq<Byte>, now: seq<Byte>, at: nat, data: seq<Byte>, padded: bool) {
    exists n: nat, z: nat :: Copied(was, now, at, data, n, z) && (n < |data| || data == []) && (padded || z == 0)
  }

  lemma CopiedAll(was: seq<Byte>, now: seq<Byte>, at: nat, data: seq<Byte>)
    requires Copied(was, now, at, data, |data|, 0) && at + |data| <= |was|
    ensures now == Store(was, at, data)
  {
    var w := Store(was, at, data);
    forall k | 0 <= k < |was| ensures now[k] == w[k] {}
  }

  /** Copies `size` bytes between user memory and physical memory: page by page when the
      physical address has page structures, in one go otherwise. */
  method CopyUserPhys(user: array<Byte>, vaddr: nat, size: nat, phys: array<Byte>, paddr: nat,
                      toPhys: bool, paged: bool, faults: Faults) returns (ok: bool)
    requires user != phys && vaddr + size <= user.Length && paddr + size <= phys.Length
    requires !paged ==> Possible(faults, 0, size)
    modifies if toPhys then phys else user
    ensures ok <==> NoFault(faults, Chunks(paddr, size, paged))
    ensures toPhys && ok ==> phys[..] == Store(old(phys[..]), paddr, user[vaddr..vaddr + size])
    ensures !toPhys && ok ==> user[..] == Store(old(user[..]), vaddr, phys[paddr..paddr + size])
    ensures toPhys && !ok ==> Broken(old(phys[..]), phys[..], paddr, user[vaddr..vaddr + size], true)
    ensures !toPhys && !ok ==> Broken(old(user[..]), user[..], vaddr, phys[paddr..paddr + size], false)
  {
    if toPhys {
      ok := CopyIn(user, vaddr, size, phys, paddr, paged, faults);
    } else {
      ok := CopyOut(user, vaddr, size, phys, paddr, paged, faults);
    }
  }

  /** The next `n` bytes of a copy of `data`, of which `offs` bytes are done, and `z` zeros. */
  method CopyChunk(src: array<Byte>, from: nat, dst: array<Byte>, to: nat, n: nat, z: nat,
                   ghost was: seq<Byte>, ghost at: nat, ghost data: seq<Byte>, ghost offs: nat)
    requires src != dst && offs + n + z <= |data| && at + |data| <= dst.Length
    requires to == at + offs && offs <= from && from - offs + |data| <= src.Length
    requires forall k :: 0 <= k < |data| ==> src[from - offs + k] == data[k]
    requires Copied(was, dst[..], at, data, offs, 0)
    modifies dst
    ensures Copied(was, dst[..], at, data, offs + n, z)
  {
    forall k | 0 <= k < n {
      dst[to + k] := src[from + k];
    }
    forall k | 0 <= k < z {
      dst[to + n + k] := 0;
    }
    forall k | 0 <= k < |was| ensures dst[..][k] == ByteAt(was, at, data, offs + n, z, k) {
      assert at + offs <= k < at + offs + n ==> src[from - offs + (k - at)] == data[k - at];
    }
  }

  /** One chunk: copied, or broken off. When user memory faults on the way in, the rest of the
      chunk is filled with zeros. */
  method TryChunk(src: array<Byte>, from: nat, dst: array<Byte>, to: nat, n: nat, chunk: nat, faults: Faults,
                  padded: bool, ghost was: seq<Byte>, ghost at: nat, ghost data: seq<Byte>, ghost offs: nat)
    returns (ok: bool)
    requires src != dst && offs + n <= |data| && at + |data| <= dst.Length
    requires to == at + offs && offs <= from && from - offs + |data| <= src.Length
    requires forall k :: 0 <= k < |data| ==> src[from - offs + k] == data[k]
    requires Copied(was, dst[..], at, data, offs, 0)
    requires Possible(faults, chunk, n) && (n == 0 ==> data == [])
    modifies dst
    ensures ok <==> chunk !in faults
    ensures ok ==> Copied(was, dst[..], at, data, offs + n, 0)
    ensures !ok ==> Broken(was, dst[..], at, data, padded)
  {
    ok := chunk !in faults;
    if ok {
      CopyChunk(src, from, dst, to, n, 0, was, at, data, offs);
    } else {
      var k := Partial(faults[chunk], n);
      var z := if padded && faults[chunk].UserFault? then n - k else 0;
      CopyChunk(src, from, dst, to, k, z, was, at, data, offs);
    }
  }

  function Min(x: nat, y: nat): nat { if x < y then x else y }

  /** The last of `chunks` pages from the page of `paddr` on holds the last byte. */
  ghost predicate LastChunk(paddr: nat, size: nat, chunks: nat) {
    if size == 0 then chunks == 0
    else
      var past := (paddr / PAGE + chunks) * PAGE;
      chunks > 0 && past - PAGE < paddr + size <= past
  }

  /** The copy stands at `offs`, on page `page`, with `chunk` of its chunks done. */
  ghost predicate ChunkAt(paddr: nat, size: nat, chunks: nat, page: nat, pageOffs: int, offs: nat, chunk: nat) {
    && 0 <= pageOffs < PAGE && chunk == page - paddr / PAGE <= chunks
    && if offs < size then page * PAGE + pageOffs == paddr + offs else chunk == chunks
  }

  lemma NextChunk(paddr: nat, size: nat, chunks: nat, page: nat, pageOffs: nat, offs: nat, chunk: nat, n: nat)
    requires LastChunk(paddr, size, chunks) && ChunkAt(paddr, size, chunks, page, pageOffs, offs, chunk) && offs < size
    requires n == Min(PAGE - pageOffs, size - offs)
    ensures 0 < n && offs + n <= size && chunk < chunks
    ensures ChunkAt(paddr, size, chunks, page + 1, 0, offs + n, chunk + 1)
  {
  }

  method CopyIn(user: array<Byte>, vaddr: nat, size: nat, phys: array<Byte>, paddr: nat, paged: bool, faults: Faults)
    returns (ok: bool)
    requires user != phys && vaddr + size <= user.Length && paddr + size <= phys.Length
    requires !paged ==> Possible(faults, 0, size)
    modifies phys
    ensures ok <==> NoFault(faults, Chunks(paddr, size, paged))
    ensures ok ==> phys[..] == Store(old(phys[..]), paddr, user[vaddr..vaddr + size])
    ensures !ok ==> Broken(old(phys[..]), phys[..], paddr, user[vaddr..vaddr + size], true)
  {
    ghost var was, data := phys[..], user[vaddr..vaddr + size];
    if paged {
      ok := CopyInPages(user, vaddr, size, phys, paddr, faults, Chunks(paddr, size, true), data);
    } else {
      ok := TryChunk(user, vaddr, phys, paddr, size, 0, faults, true, was, paddr, data, 0);
    }
    if ok {
      CopiedAll(was, phys[..], paddr, data);
    }
  }

  method CopyInPages(user: array<Byte>, vaddr: nat, size: nat, phys: array<Byte>, paddr: nat, faults: Faults,
                     ghost chunks: nat, ghost data: seq<Byte>)
    returns (ok: bool)
    requires user != phys && vaddr + size <= user.Length && paddr + size <= phys.Length && |data| == size
    requires LastChunk(paddr, size, chunks) && forall k :: 0 <= k < |data| ==> user[vaddr + k] == data[k]
    modifies phys
    ensures ok <==> NoFault(faults, chunks)
    ensures ok ==> Copied(old(phys[..]), phys[..], paddr, data, size, 0)
    ensures !ok ==> Broken(old(phys[..]), phys[..], paddr, data, true)
  {
    ghost var was := phys[..];
    var page: nat, pageOffs: nat, offs: nat, chunk: nat := paddr / PAGE, paddr % PAGE, 0, 0;
    while offs < size
      invariant offs <= size && ChunkAt(paddr, size, chunks, page, pageOffs, offs, chunk)
      invariant Copied(was, phys[..], paddr, data, offs, 0)
      invariant NoFault(faults, chunk)
      decreases size - offs
    {
      var copySize := Min(PAGE - pageOffs, size - offs);
      NextChunk(paddr, size, chunks, page, pageOffs, offs, chunk, copySize);
      ok := TryChunk(user, vaddr + offs, phys, page * PAGE + pageOffs, copySize, chunk, faults, true, was, paddr,
        data, offs);
      if !ok {
        return;
      }
      page, pageOffs, offs, chunk := page + 1, 0, offs + copySize, chunk + 1;
    }
    ok := true;
  }

  method CopyOut(user: array<Byte>, vaddr: nat, size: nat, phys: array<Byte>, paddr: nat, paged: bool, faults: Faults)
    returns (ok: bool)
    requires user != phys && vaddr + size <= user.Length && paddr + size <= phys.Length
    requires !paged ==> Possible(faults, 0, size)
    modifies user
    ensures ok <==> NoFault(faults, Chunks(paddr, size, paged))
    ensures ok ==> user[..] == Store(old(user[..]), vaddr, phys[paddr..paddr + size])
    ensures !ok ==> Broken(old(user[..]), user[..], vaddr, phys[paddr..paddr + size], false)
  {
    ghost var was, data := user[..], phys[paddr..paddr + size];
    if paged {
      ok := CopyOutPages(user, vaddr, size, phys, paddr, faults, Chunks(paddr, size, true), data);
    } else {
      ok := TryChunk(phys, paddr, user, vaddr, size, 0, faults, false, was, vaddr, data, 0);
    }
    if ok {
      CopiedAll(was, user[..], vaddr, data);
    }
  }

  method CopyOutPages(user: array<Byte>, vaddr: nat, size: nat, phys: array<Byte>, paddr: nat, faults: Faults,
                     ghost chunks: nat, ghost data: seq<Byte>)
    returns (ok: bool)
    requires user != phys && vaddr + size <= user.Length && paddr + size <= phys.Length && |data| == size
    requires LastChunk(paddr, size, chunks) && forall k :: 0 <= k < |data| ==> phys[paddr + k] == data[k]
    modifies user
    ensures ok <==> NoFault(faults, chunks)
    ensures ok ==> Copied(old(user[..]), user[..], vaddr, data, size, 0)
    ensures !ok ==> Broken(old(user[..]), user[..], vaddr, data, false)
  {
    ghost var was := user[..];
    var page: nat, pageOffs: nat, offs: nat, chunk: nat := paddr / PAGE, paddr % PAGE, 0, 0;
    while offs < size
      invariant offs <= size && ChunkAt(paddr, size, chunks, page, pageOffs, offs, chunk)
      invariant Copied(was, user[..], vaddr, data, offs, 0)
      invariant NoFault(faults, chunk)
      decreases size - offs
    {
      var copySize := Min(PAGE - pageOffs, size - offs);
      NextChunk(paddr, size, chunks, page, pageOffs, offs, chunk, copySize);
      ok := TryChunk(phys, page * PAGE + pageOffs, user, vaddr + offs, copySize, chunk, faults, false, was, vaddr,
        data, offs);
      if !ok {
        return;
      }
      page, pageOffs, offs, chunk := page + 1, 0, offs + copySize, chunk + 1;
    }
    ok := true;
  }

  // ----- where the copy is placed -----

  function Max(x: nat, y: nat): nat { if x < y then y else x }

  /** The kernel's `clamp(v, lo, hi)`. */
  function Clamp(v: nat, lo: nat, hi: nat): nat { Min(Max(v, lo), hi) }

  /** The bounds are passed the wrong way round, so the alignment is 16 for every address. */
  lemma AlignIs16(lowestBit: nat)
    ensures Clamp(lowestBit, PAGE, 16) == 16
  {
  }

  /** The address of the copy inside an allocation that starts at `start`. */
  function Place(start: u32, vaddr: nat, align: u32): nat
    requires align > 0
  {
    var phys := Or(And(start, M - align), And(vaddr, align - 1));
    if phys < start then phys + align else phys
  }

  lemma {:induction false} OrDisjoint(x: nat, y: nat, a: nat)
    requires PowerOfTwo(a) && x % a == 0 && y < a
    ensures Or(x, y) == x + y
    decreases a
  {
    if a > 1 {
      DivModStep(x, a);
      OrDisjoint(x / 2, y / 2, a / 2);
    }
  }

  lemma PlaceIs(start: u32, vaddr: nat, align: u32)
    requires PowerOfTwo(align) && start % align == 0
    ensures Place(start, vaddr, align) == start + vaddr % align
  {
    MaskHigh(start, align);
    AndLow(vaddr, align);
    OrDisjoint(start, vaddr % align, align);
  }

  lemma ModOfMultiple(x: nat, d: nat, e: nat)
    requires d > 0 && e > 0 && e % d == 0
    ensures x % e % d == x % d
  {
    var q, k := x / e, e / d;
    assert e == k * d by { FloorMultiple(e, d); }
    assert x == q * e + x % e by { FloorMultiple(x, e); }
    var r := x % e;
    assert r == (r / d) * d + r % d by { FloorMultiple(r, d); }
    assert q * (k * d) == (q * k) * d;
    assert x == (q * k + r / d) * d + r % d;
    ModUnique(x, d, q * k + r / d, r % d);
  }

  lemma SumOfMultiples(x: nat, y: nat, d: nat)
    requires d > 0 && x % d == 0
    ensures (x + y) % d == y % d
  {
    FloorMultiple(x, d);
    FloorMultiple(y, d);
    assert x + y == (x / d + y / d) * d + y % d;
    ModUnique(x + y, d, x / d + y / d, y % d);
  }

  /** The documented alignment: the low four bits are kept, and an address with at least four
      low zero bits keeps as many of them, up to twelve. It holds for every alignment from 16
      to a page, because allocations start at page boundaries. */
  lemma AlignmentKept(start: u32, vaddr: nat, align: u32, d: nat)
    requires PowerOfTwo(align) && 16 <= align <= PAGE && start % PAGE == 0
    requires PowerOfTwo(d) && d <= PAGE
    ensures Place(start, vaddr, align) % 16 == vaddr % 16
    ensures vaddr % 16 == 0 && vaddr % d == 0 ==> Place(start, vaddr, align) % d == 0
  {
    Divides(start, align);
    PlaceIs(start, vaddr, align);
    LowBitsKept(start, vaddr, align);
    if vaddr % d == 0 {
      ZeroBitsKept(start, vaddr, align, d);
    }
  }

  lemma LowBitsKept(start: u32, vaddr: nat, align: u32)
    requires PowerOfTwo(align) && 16 <= align <= PAGE && start % PAGE == 0
    ensures (start + vaddr % align) % 16 == vaddr % 16
  {
    assert PowerOfTwo(16);
    Divides(start, 16);
    PowersDivide(16, align);
    ModOfMultiple(vaddr, 16, align);
    SumOfMultiples(start, vaddr % align, 16);
  }

  lemma ZeroBitsKept(start: u32, vaddr: nat, align: u32, d: nat)
    requires PowerOfTwo(align) && align <= PAGE && start % PAGE == 0
    requires PowerOfTwo(d) && d <= PAGE && vaddr % d == 0
    ensures (start + vaddr % align) % d == 0
  {
    Divides(start, d);
    SumOfMultiples(start, vaddr % align, d);
    if d <= align {
      PowersDivide(d, align);
      ModOfMultiple(vaddr, d, align);
    } else {
      PowersDivide(align, d);
      ModOfMultiple(vaddr, align, d);
    }
  }

  lemma Divides(start: u32, d: nat)
    requires start % PAGE == 0 && PowerOfTwo(d) && d <= PAGE
    ensures start % d == 0
  {
    Pools.PagePower();
    PowersDivide(d, PAGE);
    ModOfMultiple(start, d, PAGE);
  }

  /** The size asked of the pool, as the 32-bit parameter receives it. */
  function Asked(size: u32, align: u32): u32 { (size + align) % M }

  lemma AskedExact(size: u32, align: u32)
    requires size + align < M
    ensures Asked(size, align) == size + align
  {
  }

  /** A copy of `size` bytes at `place` lies wholly inside block `b`. */
  predicate Inside(b: Block, place: nat, size: nat) { b.start <= place && place + size <= b.End() }

  /** The copy lies wholly inside its allocation if and only if the size with the alignment
      added is at most 2^32 less a page: beyond it the sum, or its rounding to pages, wraps. */
  lemma InsideIff(p: Pools.Pool, vaddr: nat, size: u32, align: u32)
    requires p.Valid() && PowerOfTwo(align) && 16 <= align <= PAGE && !Pools.BadRequest(Asked(size, align), align)
    requires Pools.Request(p.free, Asked(size, align), align).Cut?
    ensures var b := Pools.Request(p.free, Asked(size, align), align).block;
      && b.start < M && b.start % PAGE == 0
      && (Inside(b, Place(b.start, vaddr, align), size) <==> size + align <= M - PAGE)
  {
    var need := Asked(size, align);
    var b := Pools.Request(p.free, need, align).block;
    BlockInPool(p, need, align);
    Divides(b.start, align);
    PlaceIs(b.start, vaddr, align);
    RoomIff(b, b.start + vaddr % align, size, align);
  }

  lemma RoomIff(b: Block, place: nat, size: u32, align: u32)
    requires 16 <= align <= PAGE && b.start <= place < b.start + align
    requires b.size == if Asked(size, align) <= M - PAGE then RoundUp(Asked(size, align), PAGE) else 0
    ensures Inside(b, place, size) <==> size + align <= M - PAGE
  {
    var need := Asked(size, align);
    RoundUpLeast(need, PAGE);
    if size + align >= M {
      assert need == size + align - M;
    } else {
      assert need == size + align;
    }
  }

  /** Sizes up to 2^32 less a page get what they ask for, rounded to pages; larger ones get a
      block of no bytes. */
  lemma BlockInPool(p: Pools.Pool, size: u32, align: u32)
    requires p.Valid() && align <= PAGE && !Pools.BadRequest(size, align) && Pools.Request(p.free, size, align).Cut?
    ensures var b := Pools.Request(p.free, size, align).block;
      && b.start < M && b.start % PAGE == 0
      && b.size == if size <= M - PAGE then RoundUp(size, PAGE) else 0
  {
    Pools.AlignCheck(size, align);
    RoundedAtTop(size);
    PageMultiple(align);
    var i := Pools.Carve32From(p.free, Pools.RoundedSize(size), Pools.EffectiveAlign(align));
  }

  lemma PageMultiple(align: u32)
    requires align <= PAGE && (align == 0 || PowerOfTwo(align))
    ensures Pools.EffectiveAlign(align) == PAGE
  {
    Pools.AlignCheck(1, align);
  }

  lemma RoundedAtTop(size: u32)
    requires size > 0
    ensures Pools.RoundedSize(size) == if size <= M - PAGE then RoundUp(size, PAGE) else 0
  {
    Pools.SizeCheck(size);
    RoundUpLeast(size, PAGE);
    assert (M - PAGE) % PAGE == 0;
  }

  /** Sharing 2^32 - 1 bytes from a pool of one page: the pool is asked for 15 bytes, hands out
      its page, and the copy runs far past it. */
  lemma OutsideExample(vaddr: nat)
    ensures Pools.Initial(PAGE, PAGE).Valid() && !Pools.BadRequest(Asked(M - 1, 16), 16)
    ensures var b := Block(PAGE, PAGE);
      Pools.Request([b], Asked(M - 1, 16), 16) == Cut(b, []) && !Inside(b, Place(PAGE, vaddr, 16), M - 1)
  {
    Pools.InitialValid(PAGE, PAGE);
    var fl := Pools.Initial(PAGE, PAGE).free;
    assert Asked(M - 1, 16) == 15;
    assert PowerOfTwo(16);
    Pools.PagePower();
    Pools.AlignCheck(15, 16);
    Pools.SizeCheck(15);
    Pools.RepresentableExact(fl, 15, 16, PAGE, 2 * PAGE);
    assert RoundUp(15, PAGE) == PAGE && RoundUp(PAGE, PAGE) == PAGE;
    assert Fits(fl[0], PAGE, PAGE);
    PlaceIs(PAGE, vaddr, 16);
  }

  /** Sharing 2^32 - 17 bytes from it: the sum with the alignment fits into 32 bits, its rounding
      does not, and the pool hands out a block of no bytes. */
  lemma NothingExample(vaddr: nat)
    ensures Asked(M - 17, 16) == M - 1 && !Pools.BadRequest(M - 1, 16) && Pools.Words([Block(PAGE, PAGE)])
    ensures Pools.Request([Block(PAGE, PAGE)], M - 1, 16) == Cut(Block(PAGE, 0), [Block(PAGE, PAGE)])
    ensures !Inside(Block(PAGE, 0), Place(PAGE, vaddr, 16), M - 17)
  {
    assert PowerOfTwo(16);
    Pools.PagePower();
    Pools.AlignCheck(M - 1, 16);
    Pools.SizeCheck(M - 1);
    AlignExact(PAGE, PAGE);
    assert RoundUp(PAGE, PAGE) == PAGE && RoundUp(M - 1, PAGE) == M;
    assert Pools.EffectiveAlign(16) == PAGE;
  }
}
