/** The copies of shared blocks in the physical memory of the pool: one array, in which the
    driver fills them, the DSP works on them and the driver reads them back. */
module Copies {
  import opened Bits
  import opened Bounce
  import opened FreeLists
  import opened Sharing
  import Pools

  /** A command about to run: user memory, physical memory, the blocks with their mappings, the
      physical addresses of the copies, and what the DSP finds in blocks that are not shared. */
  datatype Scene = Scene(
    u: seq<Byte>, phys: seq<Byte>, bufs: seq<Region>, maps: seq<Mapping>, at: seq<nat>, wild: seq<seq<Byte>>)
  {
    ghost predicate Shaped() {
      Room(u, bufs, All(|bufs|)) && |maps| == |bufs| == |at| && Fit(wild, bufs)
    }

    /** The copies have room, and do not overlap. */
    ghost predicate Ready() {
      Shaped() && Room(phys, Spots(bufs, at), CopyMask(maps)) && Separate(Spots(bufs, at), CopyMask(maps))
    }
  }

  /** Where the copies are: the blocks with their physical addresses. */
  ghost function Spots(bufs: seq<Region>, at: seq<nat>): (c: seq<Region>)
    requires |at| == |bufs|
    ensures |c| == |bufs|
    ensures forall i :: 0 <= i < |bufs| ==> c[i].addr == at[i] && c[i].len == bufs[i].len
  {
    seq(|bufs|, i requires 0 <= i < |bufs| => bufs[i].(addr := at[i]))
  }

  ghost function CopyMask(maps: seq<Mapping>): (m: seq<bool>)
    ensures |m| == |maps| && forall i :: 0 <= i < |m| ==> m[i] == maps[i].Copied?
  {
    seq(|maps|, i requires 0 <= i < |maps| => maps[i].Copied?)
  }

  ghost function FillMask(bufs: seq<Region>, maps: seq<Mapping>): (m: seq<bool>)
    requires |maps| == |bufs|
    ensures |m| == |maps| && forall i :: 0 <= i < |m| ==> m[i] == (maps[i].Copied? && bufs[i].Readable())
  {
    seq(|maps|, i requires 0 <= i < |maps| => maps[i].Copied? && bufs[i].Readable())
  }

  /** The contents of the copies, and `other` for the blocks that have none. */
  ghost function FromCopies(
      phys: seq<Byte>, spots: seq<Region>, maps: seq<Mapping>, other: seq<seq<Byte>>): (c: seq<seq<Byte>>)
    requires |maps| == |spots| && Room(phys, spots, CopyMask(maps)) && Fit(other, spots)
    ensures Fit(c, spots)
    ensures forall i :: 0 <= i < |spots| ==> c[i] == if maps[i].Copied? then Load(phys, spots[i]) else other[i]
  {
    var m := CopyMask(maps);
    seq(|spots|, i requires 0 <= i < |spots| =>
      if maps[i].Copied? then assert m[i]; Load(phys, spots[i]) else other[i])
  }

  /** Pool memory once the readable copies are filled. */
  ghost function FilledIn(x: Scene): (p: seq<Byte>)
    requires x.Ready()
    ensures |p| == |x.phys|
  {
    StoreFirst(x.phys, Spots(x.bufs, x.at), Loaded(x.u, x.bufs), FillMask(x.bufs, x.maps), |x.bufs|)
  }

  /** What the DSP finds in the blocks. */
  ghost function Found(x: Scene): (c: seq<seq<Byte>>)
    requires x.Ready()
    ensures Fit(c, x.bufs)
  {
    FromCopies(FilledIn(x), Spots(x.bufs, x.at), x.maps, Seen(x.u, x.bufs, x.maps, x.wild))
  }

  /** Pool memory after the command. */
  ghost function PoolAfter(x: Scene, h: Handler): (p: seq<Byte>)
    requires x.Ready() && Lawful(h, x.bufs)
    ensures |p| == |x.phys|
  {
    StoreFirst(FilledIn(x), Spots(x.bufs, x.at), h(Found(x)).contents, CopyMask(x.maps), |x.bufs|)
  }

  /** User memory after the command: changed in place, and then by what the copies hold. */
  ghost function UserAfter(x: Scene, h: Handler): seq<Byte>
    requires x.Ready() && Lawful(h, x.bufs)
  {
    var r := h(Found(x));
    var copies := FromCopies(PoolAfter(x, h), Spots(x.bufs, x.at), x.maps, r.contents);
    var v := StoreFirst(x.u, x.bufs, r.contents, InPlace(x.maps), |x.bufs|);
    Unmap(v, x.bufs, x.maps, copies, UnmapFlags(x.bufs, r), |x.bufs|)
  }

  /** What pool memory held at the places of the copies. */
  ghost function Before(x: Scene): (c: seq<seq<Byte>>)
    requires x.Ready()
    ensures Fit(c, x.bufs)
  {
    FromCopies(x.phys, Spots(x.bufs, x.at), x.maps, x.wild)
  }

  lemma FoundIsSeen(x: Scene)
    requires x.Ready()
    ensures Found(x) == Seen(x.u, x.bufs, x.maps, Before(x))
  {
    var spots, copied, fill := Spots(x.bufs, x.at), CopyMask(x.maps), FillMask(x.bufs, x.maps);
    var found, seen := Found(x), Seen(x.u, x.bufs, x.maps, Before(x));
    forall i | 0 <= i < |x.bufs| ensures found[i] == seen[i] {
      if x.maps[i].Copied? {
        LoadStored(x.phys, spots, Loaded(x.u, x.bufs), fill, |x.bufs|, copied, i);
      }
    }
  }

  lemma CopiesHold(p: seq<Byte>, spots: seq<Region>, maps: seq<Mapping>, c: seq<seq<Byte>>)
    requires |maps| == |spots| && Fit(c, spots)
    requires Room(p, spots, CopyMask(maps)) && Separate(spots, CopyMask(maps))
    ensures FromCopies(StoreFirst(p, spots, c, CopyMask(maps), |spots|), spots, maps, c) == c
  {
    var copied := CopyMask(maps);
    var back := FromCopies(StoreFirst(p, spots, c, copied, |spots|), spots, maps, c);
    forall i | 0 <= i < |spots| ensures back[i] == c[i] {
      if maps[i].Copied? {
        LoadStored(p, spots, c, copied, |spots|, copied, i);
      }
    }
  }

  /** A command through one physical memory is the command on separate copies, as long as the
      places do not overlap. */
  lemma PhysicalRun(x: Scene, h: Handler)
    requires x.Ready() && Lawful(h, x.bufs)
    ensures UserAfter(x, h) == ViaDriver(x.u, x.bufs, x.maps, Before(x), h)
  {
    FoundIsSeen(x);
    CopiesHold(FilledIn(x), Spots(x.bufs, x.at), x.maps, h(Found(x)).contents);
  }

  // ----- copies in live allocations -----

  /** The copies are placed, each in an allocation of its own that was asked for with its size
      and an alignment of 16. */
  ghost predicate Placed(pool: Pools.Pool, blocks: seq<Block>, bufs: seq<Region>, maps: seq<Mapping>, at: seq<nat>) {
    && |blocks| == |bufs| == |maps| == |at|
    && (forall i :: 0 <= i < |bufs| && maps[i].Copied? ==>
          blocks[i] in pool.live && PlacedIn(blocks[i], bufs[i], at[i]))
    && (forall i, j :: 0 <= i < j < |bufs| && maps[i].Copied? && maps[j].Copied? ==> blocks[i] != blocks[j])
  }

  ghost predicate PlacedIn(k: Block, b: Region, at: nat) {
    && k.start < M && k.start % PAGE == 0 && k.size == RoundUp(b.len + 16, PAGE)
    && at == Place(k.start, b.addr, 16) && b.len + 16 <= M - PAGE
  }

  lemma PlacedInside(k: Block, b: Region, at: nat)
    requires PlacedIn(k, b, at)
    ensures k.start <= at && at + b.len <= k.End()
  {
    assert PowerOfTwo(16);
    Divides(k.start, 16);
    PlaceIs(k.start, b.addr, 16);
    AskedExact(b.len, 16);
    RoomIff(k, at, b.len, 16);
  }

  /** An allocation made for a copy is one that the copy can be placed in. */
  lemma AllocatedForCopy(p: Pools.Pool, b: Region)
    requires p.Valid() && b.len + 16 <= M - PAGE
    ensures !Pools.BadRequest(b.len + 16, 16)
    ensures Pools.Request(p.free, b.len + 16, 16).Cut? ==>
      var k := Pools.Request(p.free, b.len + 16, 16).block;
      k.start < M && PlacedIn(k, b, Place(k.start, b.addr, 16))
  {
    assert PowerOfTwo(16);
    Pools.AlignCheck(b.len + 16, 16);
    if Pools.Request(p.free, b.len + 16, 16).Cut? {
      BlockInPool(p, b.len + 16, 16);
    }
  }

  lemma PlacedReady(
      pool: Pools.Pool, blocks: seq<Block>, phys: seq<Byte>, bufs: seq<Region>, maps: seq<Mapping>, at: seq<nat>)
    requires pool.Valid() && pool.hi <= |phys| && Placed(pool, blocks, bufs, maps, at)
    ensures Room(phys, Spots(bufs, at), CopyMask(maps)) && Separate(Spots(bufs, at), CopyMask(maps))
  {
    var spots, copied := Spots(bufs, at), CopyMask(maps);
    forall i | 0 <= i < |bufs| && copied[i] ensures spots[i].End() <= |phys| {
      PlacedInside(blocks[i], bufs[i], at[i]);
      assert blocks[i] in pool.live + pool.lost;
    }
    forall i, j | 0 <= i < j < |bufs| && copied[i] && copied[j] ensures Beside(spots[i], spots[j]) {
      PlacedInside(blocks[i], bufs[i], at[i]);
      PlacedInside(blocks[j], bufs[j], at[j]);
      assert blocks[i] in pool.live + pool.lost && blocks[j] in pool.live + pool.lost;
      assert Apart(blocks[i], blocks[j]);
    }
  }

  /** Every allocation other than `blocks` holds the same bytes. */
  ghost predicate OthersKept(pool: Pools.Pool, blocks: seq<Block>, phys: seq<Byte>, after: seq<Byte>) {
    |after| == |phys| && forall d :: d in pool.live && d !in blocks && d.End() <= |phys| ==>
      after[d.start..d.End()] == phys[d.start..d.End()]
  }

  lemma BesideCopies(
      pool: Pools.Pool, blocks: seq<Block>, bufs: seq<Region>, maps: seq<Mapping>, at: seq<nat>, d: Block)
    requires pool.Valid() && Placed(pool, blocks, bufs, maps, at) && d in pool.live && d !in blocks
    ensures d.size < M
    ensures forall i :: 0 <= i < |bufs| && CopyMask(maps)[i] ==> Beside(Spots(bufs, at)[i], Input(d.start, d.size))
  {
    assert d in pool.live + pool.lost;
    forall i | 0 <= i < |bufs| && CopyMask(maps)[i] ensures Beside(Spots(bufs, at)[i], Input(d.start, d.size)) {
      PlacedInside(blocks[i], bufs[i], at[i]);
      assert blocks[i] in pool.live + pool.lost && Apart(blocks[i], d);
    }
  }

  /** Two rounds of stores into the copies leave everything beside them alone. */
  lemma TwoRounds(
      phys: seq<Byte>, spots: seq<Region>, copied: seq<bool>, c: seq<seq<Byte>>, fill: seq<bool>, e: seq<seq<Byte>>,
      d: Region)
    requires Room(phys, spots, copied) && Selects(copied, fill) && Fit(c, spots) && Fit(e, spots) && d.End() <= |phys|
    requires forall i :: 0 <= i < |spots| && copied[i] ==> Beside(spots[i], d)
    ensures Load(StoreFirst(StoreFirst(phys, spots, c, fill, |spots|), spots, e, copied, |spots|), d) == Load(phys, d)
  {
    LoadElsewhere(phys, spots, c, fill, |spots|, d);
    LoadElsewhere(StoreFirst(phys, spots, c, fill, |spots|), spots, e, copied, |spots|, d);
  }

  lemma CopiesOnly(pool: Pools.Pool, blocks: seq<Block>, x: Scene, e: seq<seq<Byte>>)
    requires pool.Valid() && Placed(pool, blocks, x.bufs, x.maps, x.at) && x.Ready() && Fit(e, x.bufs)
    ensures OthersKept(pool, blocks, x.phys,
      StoreFirst(FilledIn(x), Spots(x.bufs, x.at), e, CopyMask(x.maps), |x.bufs|))
  {
    var spots, copied, fill := Spots(x.bufs, x.at), CopyMask(x.maps), FillMask(x.bufs, x.maps);
    var after := StoreFirst(FilledIn(x), spots, e, copied, |x.bufs|);
    forall d | d in pool.live && d !in blocks && d.End() <= |x.phys|
      ensures after[d.start..d.End()] == x.phys[d.start..d.End()]
    {
      BesideCopies(pool, blocks, x.bufs, x.maps, x.at, d);
      TwoRounds(x.phys, spots, copied, Loaded(x.u, x.bufs), fill, e, Input(d.start, d.size));
    }
  }

  /** With copies in live allocations of a valid pool, a command through pool memory is the
      command on separate copies, and no other allocation sees a byte change. */
  lemma PooledRun(x: Scene, pool: Pools.Pool, blocks: seq<Block>, h: Handler)
    requires pool.Valid() && pool.hi <= |x.phys| && Placed(pool, blocks, x.bufs, x.maps, x.at)
    requires x.Shaped() && Lawful(h, x.bufs)
    ensures x.Ready()
    ensures UserAfter(x, h) == ViaDriver(x.u, x.bufs, x.maps, Before(x), h)
    ensures OthersKept(pool, blocks, x.phys, PoolAfter(x, h))
  {
    PlacedReady(pool, blocks, x.phys, x.bufs, x.maps, x.at);
    PhysicalRun(x, h);
    CopiesOnly(pool, blocks, x, h(Found(x)).contents);
  }
}
