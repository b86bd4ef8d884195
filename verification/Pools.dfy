/** The private pool as a value: its free list, the allocations handed out, and the regions
    lost to a failed node allocation, together with the 32-bit arithmetic that the code
    decides with. */
module Pools {
  import opened Bits
  import opened FreeLists

  const PAGE_SIZE: u32 := 4096

  // ----- 32-bit first fit -----

  function Remainder32(cur: Block, a: u32, size: u32): seq<Block>
    requires Word(cur)
  {
    var tail := Add32(a, size);
    var end := Add32(cur.start, cur.size);
    if a == cur.start then
      if tail == end then []
      else [Block(tail, Sub32(cur.size, Sub32(tail, cur.start)))]
    else
      if tail == end then [Block(cur.start, Sub32(a, cur.start))]
      else [Block(cur.start, Sub32(a, cur.start)), Block(tail, Sub32(end, tail))]
  }

  predicate Fits32(cur: Block, size: u32, align: u32)
    requires Word(cur) && align > 0
  {
    var a := Align32(cur.start, align);
    a >= cur.start && Add32(Sub32(a, cur.start), size) <= cur.size
  }

  predicate Word(b: Block) {
    b.start < M && b.size < M
  }

  ghost predicate Words(fl: seq<Block>) {
    forall i :: 0 <= i < |fl| ==> Word(fl[i])
  }

  /** First fit with every test and update taken modulo 2^32. */
  ghost function Carve32(fl: seq<Block>, size: u32, align: u32): Carved
    requires Words(fl) && align > 0
  {
    if fl == [] then NoFit
    else if Fits32(fl[0], size, align) then
      var a := Align32(fl[0].start, align);
      Cut(Block(a, size), Remainder32(fl[0], a, size) + fl[1..])
    else
      match Carve32(fl[1..], size, align)
      case NoFit => NoFit
      case Cut(b, rest) => Cut(b, [fl[0]] + rest)
  }

  lemma FitsExact(cur: Block, size: u32, align: u32)
    requires cur.size > 0 && cur.End() <= M && Word(cur)
    requires PowerOfTwo(align) && size > 0 && size + align <= M
    ensures Fits32(cur, size, align) <==> Fits(cur, size, align)
    ensures Fits(cur, size, align) ==> Align32(cur.start, align) == RoundUp(cur.start, align)
  {
    AlignExact(cur.start, align);
    RoundUpLeast(cur.start, align);
    var a := Align32(cur.start, align);
    if a >= cur.start {
      assert a == RoundUp(cur.start, align);
      Sub32Exact(a, cur.start);
      Add32Exact(a - cur.start, size);
    }
  }

  lemma RemainderExact(cur: Block, a: u32, size: u32)
    requires cur.size > 0 && cur.End() <= M && Word(cur)
    requires size > 0 && cur.start <= a && a + size <= cur.End()
    ensures Remainder32(cur, a, size) == Remainder(cur, a, size)
  {
    Add32Exact(a, size);
    Add32Exact(cur.start, cur.size);
    Sub32Exact(a, cur.start);
    if a + size != cur.End() {
      Sub32Exact(a + size, cur.start);
      Sub32Exact(cur.size, a + size - cur.start);
      Sub32Exact(Add32(cur.start, cur.size), a + size);
    }
  }

  /** When the rounded size and the alignment together fit in 2^32, the wrapped decisions
      are the exact ones, also for a block that ends at 2^32. */
  lemma {:induction false} CarveExact(fl: seq<Block>, size: u32, align: u32, lo: nat, hi: nat)
    requires Normal(fl, lo, hi) && hi <= M && Words(fl)
    requires PowerOfTwo(align) && size > 0 && size + align <= M
    ensures Carve32(fl, size, align) == Carve(fl, size, align)
    decreases |fl|
  {
    if fl != [] {
      FitsExact(fl[0], size, align);
      if Fits(fl[0], size, align) {
        RoundUpLeast(fl[0].start, align);
        RemainderExact(fl[0], RoundUp(fl[0].start, align), size);
      } else {
        NormalTail(fl, lo, hi);
        CarveExact(fl[1..], size, align, fl[0].End() + 1, hi);
      }
    }
  }

  // ----- 32-bit release -----

  function End32(b: Block): u32
    requires Word(b)
  {
    Add32(b.start, b.size)
  }

  function Merge32(start: u32, size: u32, more: u32): Block {
    Block(start, Add32(size, more))
  }

  function Joined32(fl: seq<Block>, m: Block): seq<Block>
    requires Words(fl) && Word(m) && fl != []
  {
    if |fl| > 1 && End32(m) == fl[1].start
    then [Merge32(m.start, m.size, fl[1].size)] + fl[2..]
    else [m] + fl[1..]
  }

  /** The free loop with every test and update taken modulo 2^32. */
  function Release32(fl: seq<Block>, b: Block): seq<Block>
    requires Words(fl) && Word(b)
  {
    if fl == [] then [b]
    else if End32(fl[0]) == b.start then Joined32(fl, Merge32(fl[0].start, fl[0].size, b.size))
    else if b.start < fl[0].start then
      if End32(b) == fl[0].start
      then [Merge32(b.start, fl[0].size, b.size)] + fl[1..]
      else [b] + fl
    else [fl[0]] + Release32(fl[1..], b)
  }

  /** A block inside a pool of less than 2^32 bytes ends where the wrapped sum says, as far
      as another block of that pool can tell. */
  lemma EndExact(c: Block, s: nat, lo: nat, hi: nat)
    requires c.size > 0 && lo <= c.start && c.End() <= hi <= M && hi - lo < M
    requires lo <= s < hi
    ensures Word(c)
    ensures End32(c) == s <==> c.End() == s
  {
    Add32Exact(c.start, c.size);
  }

  lemma MergeExact(start: u32, size: u32, more: u32)
    requires size + more < M
    ensures Merge32(start, size, more) == Block(start, size + more)
  {
    Add32Exact(size, more);
  }

  /** In a pool of 32-bit addresses the wrapped free loop is the exact one, also for a pool
      that ends at 2^32. */
  lemma {:induction false} ReleaseExact(fl: seq<Block>, b: Block, at: nat, lo: nat, hi: nat)
    requires lo <= at && Normal(fl, at, hi) && hi <= M && hi - lo < M && Words(fl)
    requires ApartFromAll(fl, b) && b.size > 0 && lo <= b.start && b.End() <= hi && Word(b)
    ensures Release32(fl, b) == Release(fl, b)
    decreases |fl|
  {
    if fl != [] {
      EndExact(fl[0], b.start, lo, hi);
      if fl[0].End() == b.start {
        assert |fl| > 1 ==> Apart(fl[1], b);
        ReleaseAfterExact(fl, b, lo, hi);
      } else if b.start < fl[0].start {
        assert Apart(fl[0], b);
        ReleaseBeforeExact(fl, b, lo, hi);
      } else {
        NormalTail(fl, at, hi);
        ReleaseExact(fl[1..], b, fl[0].End() + 1, lo, hi);
      }
    }
  }

  lemma ReleaseAfterExact(fl: seq<Block>, b: Block, lo: nat, hi: nat)
    requires hi <= M && hi - lo < M && Words(fl) && Word(b) && b.size > 0 && b.End() <= hi
    requires fl != [] && lo <= fl[0].start && fl[0].End() == b.start && End32(fl[0]) == b.start
    requires |fl| > 1 ==> fl[1].size > 0 && b.End() <= fl[1].start && fl[1].End() <= hi
    ensures Release32(fl, b) == Release(fl, b)
  {
    var m := Block(fl[0].start, fl[0].size + b.size);
    MergeExact(fl[0].start, fl[0].size, b.size);
    JoinedExact(fl, m, lo, hi);
    assert Release(fl, b) == Joined(fl, m);
  }

  lemma ReleaseBeforeExact(fl: seq<Block>, b: Block, lo: nat, hi: nat)
    requires hi <= M && hi - lo < M && Words(fl) && Word(b) && b.size > 0 && lo <= b.start
    requires fl != [] && b.End() <= fl[0].start && fl[0].End() <= hi && fl[0].size > 0
    requires End32(fl[0]) != b.start && fl[0].End() != b.start
    ensures Release32(fl, b) == Release(fl, b)
  {
    EndExact(b, fl[0].start, lo, hi);
    MergeExact(b.start, fl[0].size, b.size);
  }

  lemma JoinedExact(fl: seq<Block>, m: Block, lo: nat, hi: nat)
    requires Words(fl) && fl != [] && m.size > 0 && lo <= m.start && m.End() <= hi <= M && hi - lo < M
    requires |fl| > 1 ==> fl[1].size > 0 && m.End() <= fl[1].start && fl[1].End() <= hi
    ensures Word(m) && Joined32(fl, m) == Joined(fl, m)
  {
    if |fl| > 1 {
      EndExact(m, fl[1].start, lo, hi);
      if m.End() == fl[1].start {
        MergeExact(m.start, m.size, fl[1].size);
      }
    }
  }

  // ----- argument checks and rounding -----

  /** `align & (align - 1)` is non-zero, or the size is zero. */
  predicate BadRequest(size: u32, align: u32) {
    size == 0 || And(align, Sub32(align, 1)) != 0
  }

  function EffectiveAlign(align: u32): u32 {
    Align32(if align == 0 then 1 else align, PAGE_SIZE)
  }

  function RoundedSize(size: u32): u32 {
    Align32(size, PAGE_SIZE)
  }

  lemma PagePower()
    ensures PowerOfTwo(PAGE_SIZE)
  {
    assert PowerOfTwo(256);
  }

  /** A request passes the check exactly when its alignment is zero or a power of two, and
      then the effective alignment is a power of two of at least a page. */
  lemma AlignCheck(size: u32, align: u32)
    ensures BadRequest(size, align) <==> size == 0 || !(align == 0 || PowerOfTwo(align))
    ensures !BadRequest(size, align) ==>
      && PowerOfTwo(EffectiveAlign(align)) && EffectiveAlign(align) % PAGE_SIZE == 0
      && EffectiveAlign(align) == if align < PAGE_SIZE then PAGE_SIZE else align
  {
    if align > 0 {
      PowerOfTwoTest(align);
      Sub32Exact(align, 1);
    }
    if !BadRequest(size, align) {
      PageAlign(if align == 0 then 1 else align);
      PagePower();
    }
  }

  lemma PageAlign(a: u32)
    requires PowerOfTwo(a)
    ensures Align32(a, PAGE_SIZE) == (if a < PAGE_SIZE then PAGE_SIZE else a)
    ensures a >= PAGE_SIZE ==> a % PAGE_SIZE == 0
  {
    PagePower();
    AlignExact(a, PAGE_SIZE);
    if a >= PAGE_SIZE {
      PowersDivide(PAGE_SIZE, a);
      RoundUpId(a, PAGE_SIZE);
    } else {
      ModUnique(a + PAGE_SIZE - 1, PAGE_SIZE, 1, a - 1);
    }
  }

  lemma SizeCheck(size: u32)
    requires size > 0
    ensures RoundUp(size, PAGE_SIZE) <= M && RoundUp(size, PAGE_SIZE) % PAGE_SIZE == 0
    ensures RoundedSize(size) == if RoundUp(size, PAGE_SIZE) == M then 0 else RoundUp(size, PAGE_SIZE)
  {
    PagePower();
    AlignExact(size, PAGE_SIZE);
    RoundUpLeast(size, PAGE_SIZE);
  }

  /** The requests that the 32-bit code decides correctly on every pool. */
  predicate Representable(size: u32, align: u32) {
    RoundUp(size, PAGE_SIZE) + EffectiveAlign(align) <= M
  }

  ghost predicate ExactOn(fl: seq<Block>, size: u32, align: u32)
    requires Words(fl) && !BadRequest(size, align)
  {
    AlignCheck(size, align);
    Carve32(fl, RoundedSize(size), EffectiveAlign(align))
      == Carve(fl, RoundUp(size, PAGE_SIZE), EffectiveAlign(align))
  }

  lemma NormalWords(fl: seq<Block>, lo: nat, hi: nat)
    requires Normal(fl, lo, hi) && hi <= M && hi - lo < M
    ensures Words(fl)
  {
  }

  lemma RepresentableExact(fl: seq<Block>, size: u32, align: u32, lo: nat, hi: nat)
    requires !BadRequest(size, align) && Representable(size, align)
    requires Normal(fl, lo, hi) && hi <= M && Words(fl)
    ensures ExactOn(fl, size, align)
  {
    AlignCheck(size, align);
    SizeCheck(size);
    RoundUpLeast(size, PAGE_SIZE);
    CarveExact(fl, RoundedSize(size), EffectiveAlign(align), lo, hi);
  }

  /** The pool `[4096, 2^32)`, on which every other request is decided wrongly: the wrapped
      test accepts a range that is not there. */
  lemma UnrepresentableWrong(size: u32, align: u32)
    requires !BadRequest(size, align) && !Representable(size, align)
    ensures var fl := [Block(PAGE_SIZE, M - PAGE_SIZE)]; !ExactOn(fl, size, align)
  {
    AlignCheck(size, align);
    SizeCheck(size);
    var e, r := EffectiveAlign(align), RoundUp(size, PAGE_SIZE);
    AcceptsWrapped(e, RoundedSize(size), r);
    RejectsExact(e, r);
    OnlyBlock(Block(PAGE_SIZE, M - PAGE_SIZE), RoundedSize(size), r, e);
  }

  lemma OnlyBlock(cur: Block, size: u32, exact: nat, e: u32)
    requires Word(cur) && e > 0
    requires Fits32(cur, size, e) && !Fits(cur, exact, e)
    ensures Carve32([cur], size, e).Cut? && Carve([cur], exact, e).NoFit?
  {
    assert [cur][1..] == [] && Carve([], exact, e) == NoFit;
  }

  lemma RejectsExact(e: u32, exact: nat)
    requires PAGE_SIZE <= e && M < exact + e
    ensures !Fits(Block(PAGE_SIZE, M - PAGE_SIZE), exact, e)
  {
    FirstMultiple(e);
  }

  lemma AcceptsWrapped(e: u32, size: u32, exact: nat)
    requires PowerOfTwo(e) && PAGE_SIZE <= e && e % PAGE_SIZE == 0
    requires exact % PAGE_SIZE == 0 && exact <= M < exact + e && size == (if exact == M then 0 else exact)
    ensures Fits32(Block(PAGE_SIZE, M - PAGE_SIZE), size, e)
  {
    AlignPage(e);
    Sub32Exact(e, PAGE_SIZE);
    WrappedSum(e, size, exact);
  }

  lemma AlignPage(e: u32)
    requires PowerOfTwo(e) && PAGE_SIZE <= e
    ensures Align32(PAGE_SIZE, e) == e
  {
    FirstMultiple(e);
    AlignExact(PAGE_SIZE, e);
  }

  lemma WrappedSum(e: u32, size: u32, exact: nat)
    requires PAGE_SIZE <= e && e % PAGE_SIZE == 0
    requires exact % PAGE_SIZE == 0 && exact <= M < exact + e && size == (if exact == M then 0 else exact)
    ensures Add32(e - PAGE_SIZE, size) <= M - PAGE_SIZE
  {
    if exact < M {
      assert (e + exact) % PAGE_SIZE == 0;
      assert Add32(e - PAGE_SIZE, size) == e - PAGE_SIZE + size - M;
    }
  }

  lemma FirstMultiple(e: u32)
    requires e >= PAGE_SIZE
    ensures RoundUp(PAGE_SIZE, e) == e
  {
    ModUnique(PAGE_SIZE + e - 1, e, 1, PAGE_SIZE - 1);
  }

  /** A well-formed request is decided as in exact arithmetic on every pool of 32-bit
      addresses if and only if its rounded size plus its effective alignment is at most
      2^32. */
  lemma AllocExactIff(size: u32, align: u32)
    requires !BadRequest(size, align)
    ensures (forall fl, lo: nat, hi: nat :: Normal(fl, lo, hi) && hi <= M && hi - lo < M && Words(fl) ==>
      ExactOn(fl, size, align))
        <==> Representable(size, align)
  {
    if Representable(size, align) {
      forall fl, lo: nat, hi: nat | Normal(fl, lo, hi) && hi <= M && hi - lo < M && Words(fl)
        ensures ExactOn(fl, size, align)
      {
        RepresentableExact(fl, size, align, lo, hi);
      }
    } else {
      UnrepresentableWrong(size, align);
      assert Normal([Block(PAGE_SIZE, M - PAGE_SIZE)], PAGE_SIZE, M);
    }
  }

  // ----- which requests are decided rightly on a given pool -----

  /** The lowest free block starts at address 0 and is large enough. */
  predicate AtZero(fl: seq<Block>, need: nat) {
    fl != [] && fl[0].start == 0 && need <= fl[0].size
  }

  /** The request is refused, or the pool has no way to go wrong on it. */
  ghost predicate Decided(fl: seq<Block>, size: u32, align: u32)
    requires Words(fl) && !BadRequest(size, align)
  {
    Request(fl, size, align).NoFit? || Representable(size, align) || AtZero(fl, RoundUp(size, PAGE_SIZE))
  }

  /** In exact arithmetic a request that is not representable fits at address 0 or nowhere. */
  lemma FitsOnlyAtZero(fl: seq<Block>, need: nat, e: nat, lo: nat, hi: nat)
    requires Normal(fl, lo, hi) && hi <= M && need > 0 && e > 0 && need + e > M
    ensures Carve(fl, need, e).Cut? <==> AtZero(fl, need)
  {
    if fl != [] {
      RoundUpLeast(fl[0].start, e);
      if fl[0].start == 0 { RoundUpZero(e); }
    }
    var c := Carve(fl, need, e);
    if c.Cut? {
      CarveSound(fl, need, e, lo, hi);
      SmallMultiple(c.block.start, e);
      if !Fits(fl[0], need, e) {
        NormalTail(fl, lo, hi);
        CarveSound(fl[1..], need, e, fl[0].End() + 1, hi);
        assert false;
      }
    }
  }

  lemma RoundUpZero(e: nat)
    requires e > 0
    ensures RoundUp(0, e) == 0
  {
    ModUnique(e - 1, e, 0, e - 1);
  }

  lemma SmallMultiple(a: nat, e: nat)
    requires e > 0 && a % e == 0
    ensures a < e ==> a == 0
  {
    if a < e { ModUnique(a, e, 0, a); }
  }

  /** At address 0 the wrapped search is the exact one, whatever the alignment. */
  lemma ZeroExact(fl: seq<Block>, need: u32, e: u32)
    requires Words(fl) && AtZero(fl, need) && need > 0 && PowerOfTwo(e)
    ensures Carve32(fl, need, e) == Carve(fl, need, e)
  {
    RoundUpZero(e);
    AlignExact(0, e);
    Add32Exact(0, need);
    RemainderExact(fl[0], 0, need);
  }

  /** A well-formed request is decided as in exact arithmetic on a given pool if and only if it
      is refused, is representable, or fits at address 0. */
  lemma DecidedExact(fl: seq<Block>, size: u32, align: u32, lo: nat, hi: nat)
    requires !BadRequest(size, align) && Normal(fl, lo, hi) && hi <= M && hi - lo < M && Words(fl)
    ensures ExactOn(fl, size, align) <==> Decided(fl, size, align)
  {
    if Representable(size, align) {
      RepresentableExact(fl, size, align, lo, hi);
    } else {
      AlignCheck(size, align);
      SizeCheck(size);
      RoundUpLeast(size, PAGE_SIZE);
      var need, e := RoundUp(size, PAGE_SIZE), EffectiveAlign(align);
      FitsOnlyAtZero(fl, need, e, lo, hi);
      if AtZero(fl, need) { ZeroExact(fl, need, e); }
    }
  }

  /** What the wrapped search hands out: an aligned range, from the start of some block on. */
  lemma {:induction false} Carve32From(fl: seq<Block>, size: u32, align: u32) returns (i: nat)
    requires Words(fl) && PowerOfTwo(align) && Carve32(fl, size, align).Cut?
    ensures i < |fl|
    ensures var b := Carve32(fl, size, align).block;
      && b.size == size && b.start % align == 0 && b.start < M
      && fl[i].start <= b.start && Add32(b.start - fl[i].start, size) <= fl[i].size
    decreases |fl|
  {
    if Fits32(fl[0], size, align) {
      i := 0;
      Aligned32(fl[0].start, align);
      Sub32Exact(Align32(fl[0].start, align), fl[0].start);
    } else {
      var k := Carve32From(fl[1..], size, align);
      i := k + 1;
      assert fl[1..][k] == fl[i];
    }
  }

  lemma Aligned32(v: u32, a: u32)
    requires PowerOfTwo(a)
    ensures Align32(v, a) % a == 0
  {
    AlignExact(v, a);
    RoundUpLeast(v, a);
    if RoundUp(v, a) == M { ModUnique(0, a, 0, 0); }
  }

  /** A request decided wrongly gets a block of no bytes, or one that ends past 2^32. */
  lemma UndecidedBlock(fl: seq<Block>, size: u32, align: u32, lo: nat, hi: nat)
    requires !BadRequest(size, align) && Normal(fl, lo, hi) && hi <= M && hi - lo < M && Words(fl)
    requires !Decided(fl, size, align)
    ensures var b := Request(fl, size, align).block; b.size == 0 || b.End() > M
  {
    AlignCheck(size, align);
    SizeCheck(size);
    var need, e := RoundUp(size, PAGE_SIZE), EffectiveAlign(align);
    var i := Carve32From(fl, RoundedSize(size), e);
    var b := Request(fl, size, align).block;
    SmallMultiple(b.start, e);
    Add32Exact(0, RoundedSize(size));
    assert i > 0 ==> fl[0].End() < fl[i].start;
    assert b.size != 0 && b.start == 0 ==> AtZero(fl, need);
  }

  // ----- the pool over whole runs -----

  /** `live` are the allocations handed out; `lost` are regions no longer on either side. */
  datatype Pool = Pool(lo: nat, hi: nat, free: seq<Block>, live: set<Block>, lost: set<Block>) {
    ghost predicate Held(x: int) {
      exists b :: b in live + lost && b.Has(x)
    }

    /** The free list is normal, and free, live and lost blocks partition the pool. */
    ghost predicate Valid() {
      && lo < hi <= M && hi - lo < M
      && Normal(free, lo, hi) && Words(free)
      && live !! lost
      && (forall b :: b in live + lost ==> b.size > 0 && lo <= b.start && b.End() <= hi && ApartFromAll(free, b))
      && (forall b, c :: b in live + lost && c in live + lost && b != c ==> Apart(b, c))
      && (forall x :: lo <= x < hi ==> Covers(free, x) || Held(x))
    }
  }

  datatype Op = Alloc(size: u32, align: u32, nodes: nat) | Free(block: Block)

  /** How many list nodes the cut needs beyond the one it may take over from the list: the
      first is allocated before the search, the second only after a split. */
  predicate NeedsSecondNode(free: seq<Block>, c: Carved) {
    c.Cut? && |c.rest| == |free| + 1
  }

  /** First fit for a well-formed request, after rounding. */
  ghost function Request(free: seq<Block>, size: u32, align: u32): Carved
    requires Words(free) && !BadRequest(size, align)
  {
    AlignCheck(size, align);
    Carve32(free, RoundedSize(size), EffectiveAlign(align))
  }

  /** One call. `nodes` is how many node allocations succeed in it: with none the call fails
      early, and with one a split loses the region that it cut out. */
  ghost function Step(p: Pool, op: Op): Pool
    requires Words(p.free) && (op.Free? ==> Word(op.block))
  {
    match op
    case Alloc(size, align, nodes) =>
      if BadRequest(size, align) || nodes == 0 then p
      else
        var c := Request(p.free, size, align);
        if c.NoFit? then p
        else if NeedsSecondNode(p.free, c) && nodes == 1 then p.(free := c.rest, lost := p.lost + {c.block})
        else p.(free := c.rest, live := p.live + {c.block})
    case Free(b) =>
      p.(free := Release32(p.free, b), live := p.live - {b})
  }

  /** Each live allocation is freed once, and the requests that get memory are decided
      rightly. */
  ghost predicate Legal(p: Pool, op: Op)
    requires Words(p.free)
  {
    match op
    case Alloc(size, align, nodes) => BadRequest(size, align) || nodes == 0 || Decided(p.free, size, align)
    case Free(b) => b in p.live
  }

  lemma CutKeepsPartition(p: Pool, c: Carved, p': Pool)
    requires p.Valid() && c.Cut? && Normal(c.rest, p.lo, p.hi) && c.block.size > 0
    requires p.lo <= c.block.start && c.block.End() <= p.hi && ApartFromAll(c.rest, c.block)
    requires forall x :: Covers(p.free, x) <==> Covers(c.rest, x) || c.block.Has(x)
    requires p' == p.(free := c.rest, live := p.live + {c.block}) ||
      p' == p.(free := c.rest, lost := p.lost + {c.block})
    ensures p'.Valid()
    ensures c.block !in p.live + p.lost
  {
    NormalWords(c.rest, p.lo, p.hi);
    assert c.block.Has(c.block.start);
    forall b | b in p.live + p.lost ensures Apart(b, c.block) && ApartFromAll(c.rest, b) && b != c.block {
      assert b.Has(b.start);
      NotCoveredWhenApart(p.free, b);
      ApartByCover(c.rest, b, p.lo, p.hi);
      ApartOrShared(b, c.block);
    }
    forall x | p'.lo <= x < p'.hi ensures Covers(p'.free, x) || p'.Held(x) {
      if p.Held(x) {
        var b :| b in p.live + p.lost && b.Has(x);
        assert b in p'.live + p'.lost;
      } else if c.block.Has(x) {
        assert c.block in p'.live + p'.lost;
      }
    }
  }

  lemma FreeKeepsPartition(p: Pool, b: Block)
    requires p.Valid() && b in p.live
    ensures p.(free := Release(p.free, b), live := p.live - {b}).Valid()
  {
    var p' := p.(free := Release(p.free, b), live := p.live - {b});
    ReleaseNormal(p.free, b, p.lo, p.hi);
    NormalWords(p'.free, p.lo, p.hi);
    forall c | c in p'.live + p'.lost ensures ApartFromAll(p'.free, c) {
      assert c in p.live + p.lost && b in p.live + p.lost && Apart(b, c);
      NotCoveredWhenApart(p.free, c);
      ApartByCover(p'.free, c, p.lo, p.hi);
    }
    forall x | p'.lo <= x < p'.hi ensures Covers(p'.free, x) || p'.Held(x) {
      if p.Held(x) && !b.Has(x) {
        var c :| c in p.live + p.lost && c.Has(x);
        assert c in p'.live + p'.lost;
      }
    }
  }

  /** Every legal call keeps the partition. */
  lemma StepValid(p: Pool, op: Op)
    requires p.Valid() && Legal(p, op)
    ensures op.Free? ==> Word(op.block)
    ensures Step(p, op).Valid()
  {
    match op
    case Alloc(size, align, nodes) =>
      if Step(p, op) != p {
        AlignCheck(size, align);
        SizeCheck(size);
        DecidedExact(p.free, size, align, p.lo, p.hi);
        var c := Carve(p.free, RoundUp(size, PAGE_SIZE), EffectiveAlign(align));
        CarveSound(p.free, RoundUp(size, PAGE_SIZE), EffectiveAlign(align), p.lo, p.hi);
        CutKeepsPartition(p, c, Step(p, op));
      }
    case Free(b) =>
      assert b in p.live + p.lost;
      ReleaseExact(p.free, b, p.lo, p.lo, p.hi);
      FreeKeepsPartition(p, b);
  }

  /** An allocation call keeps the partition if and only if it is decided rightly: whatever
      size and alignment are asked for, refused requests and requests that are not representable
      included. */
  lemma StepValidIff(p: Pool, op: Op)
    requires p.Valid() && op.Alloc?
    ensures Step(p, op).Valid() <==> Legal(p, op)
  {
    if Legal(p, op) {
      StepValid(p, op);
    } else {
      UndecidedBlock(p.free, op.size, op.align, p.lo, p.hi);
      var b := Request(p.free, op.size, op.align).block;
      var q := Step(p, op);
      assert b in q.live + q.lost;
    }
  }

  ghost predicate LegalRun(p: Pool, ops: seq<Op>)
    requires p.Valid()
    decreases |ops|
  {
    ops == [] || (Legal(p, ops[0]) && (StepValid(p, ops[0]); LegalRun(Step(p, ops[0]), ops[1..])))
  }

  ghost function Run(p: Pool, ops: seq<Op>): Pool
    requires p.Valid() && LegalRun(p, ops)
    decreases |ops|
  {
    if ops == [] then p else StepValid(p, ops[0]); Run(Step(p, ops[0]), ops[1..])
  }

  function Initial(start: u32, size: u32): Pool {
    Pool(start, start + size, [Block(start, size)], {}, {})
  }

  lemma InitialValid(start: u32, size: u32)
    requires size > 0 && start + size <= M
    ensures Initial(start, size).Valid()
  {
    var p := Initial(start, size);
    forall x | p.lo <= x < p.hi ensures Covers(p.free, x) {
      assert p.free[0].Has(x);
    }
  }

  lemma {:induction false} RunValid(p: Pool, ops: seq<Op>)
    requires p.Valid() && LegalRun(p, ops)
    ensures var q := Run(p, ops); q.Valid() && q.lo == p.lo && q.hi == p.hi
    decreases |ops|
  {
    if ops != [] {
      StepValid(p, ops[0]);
      RunValid(Step(p, ops[0]), ops[1..]);
    }
  }

  /** Conservation over every run from a fresh pool: the free list is normal, and every
      address of the pool is free or belongs to exactly one live or lost block. */
  lemma EveryAddressOnce(start: u32, size: u32, ops: seq<Op>, x: int)
    requires size > 0 && start + size <= M && start <= x < start + size
    requires (InitialValid(start, size); LegalRun(Initial(start, size), ops))
    ensures var q := (InitialValid(start, size); Run(Initial(start, size), ops));
      && Normal(q.free, start, start + size)
      && (Covers(q.free, x) <==> !q.Held(x))
      && forall b, c :: b in q.live + q.lost && c in q.live + q.lost && b.Has(x) && c.Has(x) ==> b == c
  {
    InitialValid(start, size);
    RunValid(Initial(start, size), ops);
    FreeOrHeld(Run(Initial(start, size), ops), x);
  }

  lemma FreeOrHeld(q: Pool, x: int)
    requires q.Valid() && q.lo <= x < q.hi
    ensures Covers(q.free, x) <==> !q.Held(x)
    ensures forall b, c :: b in q.live + q.lost && c in q.live + q.lost && b.Has(x) && c.Has(x) ==> b == c
  {
    if q.Held(x) {
      var b :| b in q.live + q.lost && b.Has(x);
      NotCoveredWhenApart(q.free, b);
    }
  }

  /** Once everything is freed, and nothing was lost, the list is the single initial block. */
  lemma AllFreedIsInitial(start: u32, size: u32, ops: seq<Op>)
    requires size > 0 && start + size <= M
    requires (InitialValid(start, size); LegalRun(Initial(start, size), ops))
    requires (InitialValid(start, size); Run(Initial(start, size), ops).live == {})
    ensures var q := (InitialValid(start, size); Run(Initial(start, size), ops));
      q.free == [Block(start, size)] <==> q.lost == {}
  {
    InitialValid(start, size);
    var p := Initial(start, size);
    RunValid(p, ops);
    var q := Run(p, ops);
    if q.lost == {} {
      forall x ensures Covers(q.free, x) <==> Covers(p.free, x) {
        assert p.free[0].Has(x) <==> start <= x < start + size;
      }
      NormalUnique(q.free, p.free, start, start + size);
    } else {
      var b :| b in q.lost;
      assert b in q.live + q.lost;
      NotCoveredWhenApart(q.free, b);
      assert b.Has(b.start);
      assert p.free[0].Has(b.start);
    }
  }

  /** The answer is the lowest aligned address whose whole page-rounded range is free, or out
      of memory when the pool has no such range. */
  ghost predicate LowestAnswer(p: Pool, size: u32, align: u32)
    requires Words(p.free) && !BadRequest(size, align)
  {
    AlignCheck(size, align);
    var need, e := RoundUp(size, PAGE_SIZE), EffectiveAlign(align);
    match Request(p.free, size, align)
    case NoFit => forall a: nat :: a % e == 0 ==> !CoversRange(p.free, a, need)
    case Cut(b, _) =>
      && b.size == need && b.start % e == 0 && CoversRange(p.free, b.start, need)
      && forall a: nat :: a % e == 0 && CoversRange(p.free, a, need) ==> b.start <= a
  }

  /** Alloc answers with the lowest aligned free range, and reports out of memory exactly when
      there is none, if and only if the request is decided rightly. */
  lemma AllocLowestIff(p: Pool, size: u32, align: u32)
    requires p.Valid() && !BadRequest(size, align)
    ensures LowestAnswer(p, size, align) <==> Decided(p.free, size, align)
  {
    AlignCheck(size, align);
    SizeCheck(size);
    RoundUpLeast(size, PAGE_SIZE);
    DecidedExact(p.free, size, align, p.lo, p.hi);
    if Decided(p.free, size, align) {
      LowestFit(p.free, RoundUp(size, PAGE_SIZE), EffectiveAlign(align), p.lo, p.hi);
    } else {
      UndecidedBlock(p.free, size, align, p.lo, p.hi);
      NotThere(p, Request(p.free, size, align).block, RoundUp(size, PAGE_SIZE));
    }
  }

  lemma NotThere(p: Pool, b: Block, need: nat)
    requires p.Valid() && need > 0 && (b.size == 0 || b.End() > M)
    ensures b.size == need ==> !CoversRange(p.free, b.start, need)
  {
    assert b.size == need ==> !Covers(p.free, b.start + need - 1);
  }

  lemma LowestFit(fl: seq<Block>, need: nat, e: nat, lo: nat, hi: nat)
    requires Normal(fl, lo, hi) && need > 0 && e > 0
    ensures match Carve(fl, need, e)
      case NoFit => forall a: nat :: a % e == 0 ==> !CoversRange(fl, a, need)
      case Cut(b, _) =>
        && b.size == need && b.start % e == 0 && CoversRange(fl, b.start, need)
        && forall a: nat :: a % e == 0 && CoversRange(fl, a, need) ==> b.start <= a
  {
    if Carve(fl, need, e).Cut? {
      CarveSound(fl, need, e, lo, hi);
      CarveWasFree(fl, need, e, lo, hi);
    }
    forall a: nat | a % e == 0 && CoversRange(fl, a, need)
      ensures Carve(fl, need, e).Cut? && Carve(fl, need, e).block.start <= a
    {
      CarveFirstFit(fl, need, e, lo, hi, a);
    }
  }

  // ----- lost regions -----

  /** The lowest aligned free range of `need` bytes has free bytes on both sides. */
  ghost predicate SplitsFree(free: seq<Block>, need: nat, e: nat)
    requires e > 0
  {
    exists a: nat :: Lowest(free, need, e, a) && Covers(free, a - 1) && Covers(free, a + need)
  }

  ghost predicate Lowest(free: seq<Block>, need: nat, e: nat, a: nat)
    requires e > 0
  {
    && a % e == 0 && CoversRange(free, a, need)
    && forall x: nat :: x % e == 0 && CoversRange(free, x, need) ==> a <= x
  }

  /** A well-formed call with a single node, whose range lies in the middle of free memory. */
  ghost predicate Loses(p: Pool, op: Op) {
    && op.Alloc? && op.nodes == 1 && !BadRequest(op.size, op.align)
    && (AlignCheck(op.size, op.align); SplitsFree(p.free, RoundUp(op.size, PAGE_SIZE), EffectiveAlign(op.align)))
  }

  lemma SplitIsSecondNode(fl: seq<Block>, need: nat, e: nat, lo: nat, hi: nat)
    requires Normal(fl, lo, hi) && need > 0 && e > 0
    ensures NeedsSecondNode(fl, Carve(fl, need, e)) <==> SplitsFree(fl, need, e)
  {
    LowestFit(fl, need, e, lo, hi);
    var c := Carve(fl, need, e);
    if c.Cut? {
      CarveSplits(fl, need, e, lo, hi);
      assert Lowest(fl, need, e, c.block.start);
      forall a: nat | Lowest(fl, need, e, a) ensures a == c.block.start {}
    } else {
      assert forall a: nat :: !Lowest(fl, need, e, a);
    }
  }

  /** One call loses a region exactly when it is such a call, and then it loses that range. */
  lemma StepLoses(p: Pool, op: Op)
    requires p.Valid() && Legal(p, op)
    ensures op.Free? ==> Word(op.block)
    ensures p.lost <= Step(p, op).lost
    ensures Step(p, op).lost == p.lost <==> !Loses(p, op)
  {
    StepValid(p, op);
    if op.Alloc? && !BadRequest(op.size, op.align) && op.nodes > 0 {
      AlignCheck(op.size, op.align);
      SizeCheck(op.size);
      DecidedExact(p.free, op.size, op.align, p.lo, p.hi);
      var need, e := RoundUp(op.size, PAGE_SIZE), EffectiveAlign(op.align);
      RoundUpLeast(op.size, PAGE_SIZE);
      SplitIsSecondNode(p.free, need, e, p.lo, p.hi);
      var c := Carve(p.free, need, e);
      if c.Cut? {
        CarveSound(p.free, need, e, p.lo, p.hi);
        CutKeepsPartition(p, c, Step(p, op));
      }
    }
  }

  /** An allocation with nodes enough hands out the lowest aligned free range and nothing else, and
      changes nothing when there is none. */
  lemma AllocAdds(p: Pool, op: Op)
    requires p.Valid() && op.Alloc? && !BadRequest(op.size, op.align) && op.nodes >= 2 && Legal(p, op)
    ensures EffectiveAlign(op.align) > 0
    ensures var need, e := RoundUp(op.size, PAGE_SIZE), EffectiveAlign(op.align);
      && (forall a: nat :: Lowest(p.free, need, e, a) ==>
            Block(a, need) !in p.live && Step(p, op).live == p.live + {Block(a, need)})
      && ((forall a: nat :: !Lowest(p.free, need, e, a)) ==> Step(p, op) == p)
      && Step(p, op).lost == p.lost
  {
    AlignCheck(op.size, op.align);
    SizeCheck(op.size);
    RoundUpLeast(op.size, PAGE_SIZE);
    var need, e := RoundUp(op.size, PAGE_SIZE), EffectiveAlign(op.align);
    DecidedExact(p.free, op.size, op.align, p.lo, p.hi);
    LowestFit(p.free, need, e, p.lo, p.hi);
    var c := Carve(p.free, need, e);
    if c.Cut? {
      assert Lowest(p.free, need, e, c.block.start);
      forall a: nat | Lowest(p.free, need, e, a) ensures a == c.block.start {}
      CarveSound(p.free, need, e, p.lo, p.hi);
      CutKeepsPartition(p, c, Step(p, op));
    }
  }

  /** Some call of the run loses a region. */
  ghost predicate RunLoses(p: Pool, ops: seq<Op>)
    requires p.Valid() && LegalRun(p, ops)
    decreases |ops|
  {
    ops != [] && (Loses(p, ops[0]) || (StepValid(p, ops[0]); RunLoses(Step(p, ops[0]), ops[1..])))
  }

  lemma {:induction false} RunLost(p: Pool, ops: seq<Op>)
    requires p.Valid() && LegalRun(p, ops)
    ensures p.lost <= Run(p, ops).lost
    ensures Run(p, ops).lost == p.lost <==> !RunLoses(p, ops)
    decreases |ops|
  {
    if ops != [] {
      StepValid(p, ops[0]);
      StepLoses(p, ops[0]);
      RunLost(Step(p, ops[0]), ops[1..]);
    }
  }

  /** Over every run from a fresh pool: once everything is freed the pool is the single
      initial block again if and only if no call ran out of nodes in the middle of free
      memory. */
  lemma WholeAgainIff(start: u32, size: u32, ops: seq<Op>)
    requires size > 0 && start + size <= M
    requires (InitialValid(start, size); LegalRun(Initial(start, size), ops))
    requires (InitialValid(start, size); Run(Initial(start, size), ops).live == {})
    ensures (InitialValid(start, size); Run(Initial(start, size), ops).free == [Block(start, size)] <==>
      !RunLoses(Initial(start, size), ops))
  {
    InitialValid(start, size);
    AllFreedIsInitial(start, size, ops);
    RunLost(Initial(start, size), ops);
  }

  /** A pool of four pages from 4096 on: one page aligned to 8192, asked for with one node,
      lies between free pages and is lost. */
  lemma PageLost() returns (ops: seq<Op>)
    ensures (InitialValid(4096, 0x4000); LegalRun(Initial(4096, 0x4000), ops))
    ensures (InitialValid(4096, 0x4000); Run(Initial(4096, 0x4000), ops) ==
      Pool(4096, 0x5000, [Block(4096, 4096), Block(0x3000, 0x2000)], {}, {Block(0x2000, 4096)}))
  {
    InitialValid(4096, 0x4000);
    var op := Alloc(4096, 0x2000, 1);
    ops := [op];
    PageStep();
    OneStep(Initial(4096, 0x4000), op);
  }

  lemma PageStep()
    ensures Initial(4096, 0x4000).Valid() && Legal(Initial(4096, 0x4000), Alloc(4096, 0x2000, 1))
    ensures Step(Initial(4096, 0x4000), Alloc(4096, 0x2000, 1))
         == Pool(4096, 0x5000, [Block(4096, 4096), Block(0x3000, 0x2000)], {}, {Block(0x2000, 4096)})
  {
    InitialValid(4096, 0x4000);
    PageRequest();
    SplitStep(Initial(4096, 0x4000), 4096, 0x2000, Block(0x2000, 4096), [Block(4096, 4096), Block(0x3000, 0x2000)]);
  }

  lemma SplitStep(p: Pool, size: u32, align: u32, b: Block, rest: seq<Block>)
    requires Words(p.free) && !BadRequest(size, align) && Request(p.free, size, align) == Cut(b, rest) &&
      |rest| == |p.free| + 1
    ensures Step(p, Alloc(size, align, 1)) == Pool(p.lo, p.hi, rest, p.live, p.lost + {b})
  {
  }

  lemma OneStep(p: Pool, op: Op)
    requires p.Valid() && Legal(p, op)
    ensures op.Free? ==> Word(op.block)
    ensures LegalRun(p, [op]) && Run(p, [op]) == Step(p, op)
  {
    StepValid(p, op);
    assert [op][1..] == [];
  }

  lemma PageRequest()
    ensures !BadRequest(4096, 0x2000) && Representable(4096, 0x2000)
    ensures Words([Block(4096, 0x4000)])
    ensures Request([Block(4096, 0x4000)], 4096, 0x2000) ==
      Cut(Block(0x2000, 4096), [Block(4096, 4096), Block(0x3000, 0x2000)])
  {
    PagePower();
    assert PowerOfTwo(0x2000);
    AlignCheck(4096, 0x2000);
    SizeCheck(4096);
    var fl := [Block(4096, 0x4000)];
    assert Normal(fl, 4096, 0x5000);
    RepresentableExact(fl, 4096, 0x2000, 4096, 0x5000);
    assert RoundUp(4096, PAGE_SIZE) == 4096 && RoundUp(4096, 0x2000) == 0x2000;
    assert Fits(fl[0], 4096, 0x2000);
  }

  // ----- runs with any requests at all -----

  /** All that the callers owe: a live allocation is freed once. */
  ghost predicate Owed(p: Pool, op: Op) {
    op.Free? ==> op.block in p.live
  }

  ghost predicate InWords(p: Pool) {
    Words(p.free) && forall b :: b in p.live ==> Word(b)
  }

  lemma {:induction false} Carve32Words(fl: seq<Block>, size: u32, align: u32)
    requires Words(fl) && align > 0 && Carve32(fl, size, align).Cut?
    ensures var c := Carve32(fl, size, align); Words(c.rest) && Word(c.block)
    decreases |fl|
  {
    if !Fits32(fl[0], size, align) {
      Carve32Words(fl[1..], size, align);
    }
  }

  lemma {:induction false} Release32Words(fl: seq<Block>, b: Block)
    requires Words(fl) && Word(b)
    ensures Words(Release32(fl, b))
    decreases |fl|
  {
    if fl != [] {
      Release32Words(fl[1..], b);
    }
  }

  lemma StepInWords(p: Pool, op: Op)
    requires InWords(p) && Owed(p, op)
    ensures InWords(Step(p, op))
  {
    match op
    case Alloc(size, align, nodes) =>
      if !BadRequest(size, align) && Request(p.free, size, align).Cut? {
        AlignCheck(size, align);
        Carve32Words(p.free, RoundedSize(size), EffectiveAlign(align));
      }
    case Free(b) => Release32Words(p.free, b);
  }

  ghost predicate OwedRun(p: Pool, ops: seq<Op>)
    requires InWords(p)
    decreases |ops|
  {
    ops == [] || (Owed(p, ops[0]) && (StepInWords(p, ops[0]); OwedRun(Step(p, ops[0]), ops[1..])))
  }

  /** Every state of the run is a partition of the pool. */
  ghost predicate AllValid(p: Pool, ops: seq<Op>)
    requires InWords(p) && OwedRun(p, ops)
    decreases |ops|
  {
    p.Valid() && (ops == [] || (StepInWords(p, ops[0]); AllValid(Step(p, ops[0]), ops[1..])))
  }

  lemma ValidInWords(p: Pool)
    requires p.Valid()
    ensures InWords(p)
  {
    forall b | b in p.live ensures Word(b) {
      assert b in p.live + p.lost;
    }
  }

  /** Whatever is asked for, a run keeps the pool a partition all along if and only if every
      request of it that got memory was decided rightly. */
  lemma {:induction false} AllValidIff(p: Pool, ops: seq<Op>)
    requires p.Valid() && (ValidInWords(p); OwedRun(p, ops))
    ensures (ValidInWords(p); AllValid(p, ops)) <==> LegalRun(p, ops)
    decreases |ops|
  {
    ValidInWords(p);
    if ops != [] {
      StepInWords(p, ops[0]);
      if Legal(p, ops[0]) {
        StepValid(p, ops[0]);
        AllValidIff(Step(p, ops[0]), ops[1..]);
      } else {
        StepValidIff(p, ops[0]);
      }
    }
  }

  /** 2^32 - 1 bytes asked of a pool of one page: the size rounds to 0, an empty block is handed
      out, and after it is freed the list has an empty block beside the page. */
  lemma EmptyBlockLeft() returns (p: Pool, q: Pool)
    ensures Words([Block(4096, 4096)]) && p == Step(Initial(4096, 4096), Alloc(M - 1, 0, 2))
    ensures p == Pool(4096, 8192, [Block(4096, 4096)], {Block(4096, 0)}, {})
    ensures q == Step(p, Free(Block(4096, 0))) && q == Pool(4096, 8192, [Block(4096, 4096), Block(4096, 0)], {}, {})
  {
    WholeRequest();
    p := Pool(4096, 8192, [Block(4096, 4096)], {Block(4096, 0)}, {});
    assert Release32([], Block(4096, 0)) == [Block(4096, 0)];
    assert p.free[1..] == [];
    q := Pool(4096, 8192, [Block(4096, 4096), Block(4096, 0)], {}, {});
    assert p.live - {Block(4096, 0)} == {};
  }

  lemma WholeRequest()
    ensures !BadRequest(M - 1, 0)
    ensures Words([Block(4096, 4096)]) && Request([Block(4096, 4096)], M - 1, 0) ==
      Cut(Block(4096, 0), [Block(4096, 4096)])
  {
    PagePower();
    AlignCheck(M - 1, 0);
    SizeCheck(M - 1);
    AlignExact(4096, 4096);
    assert RoundUp(4096, 4096) == 4096 && RoundUp(M - 1, 4096) == M;
  }
}
