/** Free lists as values: address-sorted, fully coalesced sequences of blocks, with the
    first-fit cut and the merging release that the pool performs on them in place. */
module FreeLists {
  import opened Bits

  datatype Block = Block(start: nat, size: nat) {
    function End(): nat { start + size }
    predicate Has(x: int) { start <= x < End() }
  }

  /** The outcome of a first-fit search: nothing fits, or a block and what is left. */
  datatype Carved = NoFit | Cut(block: Block, rest: seq<Block>)

  ghost predicate Apart(a: Block, b: Block) {
    a.End() <= b.start || b.End() <= a.start
  }

  ghost predicate ApartFromAll(fl: seq<Block>, b: Block) {
    forall i :: 0 <= i < |fl| ==> Apart(fl[i], b)
  }

  /** Strictly ascending, non-empty, non-touching blocks inside `[lo, hi)`. */
  ghost predicate Normal(fl: seq<Block>, lo: nat, hi: nat) {
    && (forall i :: 0 <= i < |fl| ==> fl[i].size > 0 && lo <= fl[i].start && fl[i].End() <= hi)
    && (forall i, j :: 0 <= i < j < |fl| ==> fl[i].End() < fl[j].start)
  }

  /** Address `x` is free. */
  ghost predicate Covers(fl: seq<Block>, x: int) {
    exists i :: 0 <= i < |fl| && fl[i].Has(x)
  }

  /** Every address of `[a, a + size)` is free. */
  ghost predicate CoversRange(fl: seq<Block>, a: nat, size: nat) {
    forall x :: a <= x < a + size ==> Covers(fl, x)
  }

  lemma CoversSplit(fl: seq<Block>, x: int)
    requires fl != []
    ensures Covers(fl, x) <==> fl[0].Has(x) || Covers(fl[1..], x)
  {
    if Covers(fl, x) {
      var i :| 0 <= i < |fl| && fl[i].Has(x);
      if i > 0 { assert fl[1..][i - 1].Has(x); }
    }
    if Covers(fl[1..], x) {
      var i :| 0 <= i < |fl[1..]| && fl[1..][i].Has(x);
      assert fl[i + 1].Has(x);
    }
  }

  lemma CoversConcat(f: seq<Block>, g: seq<Block>, x: int)
    ensures Covers(f + g, x) <==> Covers(f, x) || Covers(g, x)
  {
    if Covers(f, x) {
      var i :| 0 <= i < |f| && f[i].Has(x);
      assert (f + g)[i].Has(x);
    }
    if Covers(g, x) {
      var i :| 0 <= i < |g| && g[i].Has(x);
      assert (f + g)[|f| + i].Has(x);
    }
  }

  // ----- the free list is determined by the set of free addresses -----

  lemma NormalTail(fl: seq<Block>, lo: nat, hi: nat)
    requires Normal(fl, lo, hi) && fl != []
    ensures Normal(fl[1..], fl[0].End() + 1, hi)
    ensures forall x :: Covers(fl[1..], x) <==> Covers(fl, x) && !fl[0].Has(x)
  {
    forall x ensures Covers(fl[1..], x) <==> Covers(fl, x) && !fl[0].Has(x) {
      CoversSplit(fl, x);
      assert forall i :: 0 <= i < |fl[1..]| ==> fl[1..][i] == fl[i + 1];
    }
  }

  lemma HeadBelow(f: seq<Block>, g: seq<Block>, lo: nat, hi: nat)
    requires Normal(f, lo, hi) && Normal(g, lo, hi) && f != []
    requires forall x :: Covers(f, x) <==> Covers(g, x)
    ensures g != [] && g[0].start <= f[0].start && (g[0].start == f[0].start ==> g[0].size >= f[0].size)
  {
    assert f[0].Has(f[0].start);
    assert Covers(g, f[0].start);
    assert !Covers(g, g[0].End());
    assert g[0].start <= f[0].start && g[0].End() < f[0].End() ==> f[0].Has(g[0].End()) || g[0].End() < f[0].start;
  }

  /** Two normal free lists with the same free addresses are the same list. */
  lemma {:induction false} NormalUnique(f: seq<Block>, g: seq<Block>, lo: nat, hi: nat)
    requires Normal(f, lo, hi) && Normal(g, lo, hi)
    requires forall x :: Covers(f, x) <==> Covers(g, x)
    ensures f == g
    decreases |f|
  {
    if f == [] {
      if g != [] { HeadBelow(g, f, lo, hi); }
    } else {
      HeadBelow(f, g, lo, hi);
      HeadBelow(g, f, lo, hi);
      NormalTail(f, lo, hi);
      NormalTail(g, lo, hi);
      NormalUnique(f[1..], g[1..], f[0].End() + 1, hi);
      assert f == [f[0]] + f[1..] && g == [g[0]] + g[1..];
    }
  }

  // ----- release -----

  /** `m` in place of the first block, merged with the second one when they touch. */
  function Joined(fl: seq<Block>, m: Block): seq<Block>
    requires fl != []
  {
    if |fl| > 1 && m.End() == fl[1].start
    then [Block(m.start, m.size + fl[1].size)] + fl[2..]
    else [m] + fl[1..]
  }

  /** Returning block `b`: the three merges and the insertion of the pool's free loop. */
  function Release(fl: seq<Block>, b: Block): seq<Block> {
    if fl == [] then [b]
    else if fl[0].End() == b.start then Joined(fl, Block(fl[0].start, fl[0].size + b.size))
    else if b.start < fl[0].start then
      if b.End() == fl[0].start
      then [Block(b.start, fl[0].size + b.size)] + fl[1..]
      else [b] + fl
    else [fl[0]] + Release(fl[1..], b)
  }

  /** Releasing a block adds exactly its addresses and keeps the list in normal form. */
  lemma {:induction false} ReleaseNormal(fl: seq<Block>, b: Block, lo: nat, hi: nat)
    requires Normal(fl, lo, hi) && ApartFromAll(fl, b)
    requires b.size > 0 && lo <= b.start && b.End() <= hi
    ensures Normal(Release(fl, b), lo, hi)
    ensures forall x :: Covers(Release(fl, b), x) <==> Covers(fl, x) || b.Has(x)
    decreases |fl|
  {
    var r := Release(fl, b);
    if fl == [] {
      assert r[0] == b;
    } else if fl[0].End() == b.start {
      ReleaseAtTail(fl, b, lo, hi);
    } else if b.start < fl[0].start {
      ReleaseBefore(fl, b, lo, hi);
    } else {
      NormalTail(fl, lo, hi);
      ReleaseNormal(fl[1..], b, fl[0].End() + 1, hi);
      assert r[1..] == Release(fl[1..], b);
      forall x ensures Covers(r, x) <==> Covers(fl, x) || b.Has(x) {
        CoversSplit(fl, x);
        CoversSplit(r, x);
      }
    }
  }

  lemma ReleaseAtTail(fl: seq<Block>, b: Block, lo: nat, hi: nat)
    requires Normal(fl, lo, hi) && ApartFromAll(fl, b) && fl != []
    requires b.size > 0 && b.End() <= hi && fl[0].End() == b.start
    ensures Normal(Release(fl, b), lo, hi)
    ensures forall x :: Covers(Release(fl, b), x) <==> Covers(fl, x) || b.Has(x)
  {
    if |fl| > 1 && b.End() == fl[1].start {
      ReleaseBetween(fl, b, lo, hi);
    } else {
      assert |fl| > 1 ==> Apart(fl[1], b);
      ReleaseExtend(fl, b, lo, hi);
    }
  }

  lemma ReleaseExtend(fl: seq<Block>, b: Block, lo: nat, hi: nat)
    requires Normal(fl, lo, hi) && fl != [] && b.End() <= hi
    requires fl[0].End() == b.start && (|fl| > 1 ==> b.End() < fl[1].start)
    ensures Normal(Release(fl, b), lo, hi)
    ensures forall x :: Covers(Release(fl, b), x) <==> Covers(fl, x) || b.Has(x)
  {
    var m := Block(fl[0].start, fl[0].size + b.size);
    CoversFirst(fl);
    ReplaceFront(fl, b, m, 1, lo, hi);
    assert Release(fl, b) == [m] + fl[1..];
  }

  lemma ReleaseBetween(fl: seq<Block>, b: Block, lo: nat, hi: nat)
    requires Normal(fl, lo, hi) && |fl| > 1
    requires fl[0].End() == b.start && b.End() == fl[1].start
    ensures Normal(Release(fl, b), lo, hi)
    ensures forall x :: Covers(Release(fl, b), x) <==> Covers(fl, x) || b.Has(x)
  {
    var m := Block(fl[0].start, fl[0].size + b.size + fl[1].size);
    CoversFirstTwo(fl);
    ReplaceFront(fl, b, m, 2, lo, hi);
    assert Release(fl, b) == [m] + fl[2..];
  }

  lemma ReleaseBefore(fl: seq<Block>, b: Block, lo: nat, hi: nat)
    requires Normal(fl, lo, hi) && ApartFromAll(fl, b) && fl != []
    requires b.size > 0 && lo <= b.start && b.start < fl[0].start && fl[0].End() != b.start
    ensures Normal(Release(fl, b), lo, hi)
    ensures forall x :: Covers(Release(fl, b), x) <==> Covers(fl, x) || b.Has(x)
  {
    assert Apart(fl[0], b);
    if b.End() == fl[0].start {
      CoversFirst(fl);
      var m := Block(b.start, fl[0].size + b.size);
      ReplaceFront(fl, b, m, 1, lo, hi);
      assert Release(fl, b) == [m] + fl[1..];
    } else {
      assert fl[..0] == [] && fl[0..] == fl;
      ReplaceFront(fl, b, b, 0, lo, hi);
      assert Release(fl, b) == [b] + fl;
    }
  }

  lemma CoversFirst(fl: seq<Block>)
    requires fl != []
    ensures forall x :: Covers(fl[..1], x) <==> fl[0].Has(x)
  {
  }

  lemma CoversFirstTwo(fl: seq<Block>)
    requires |fl| > 1
    ensures forall x :: Covers(fl[..2], x) <==> fl[0].Has(x) || fl[1].Has(x)
  {
    forall x ensures Covers(fl[..2], x) <==> fl[0].Has(x) || fl[1].Has(x) {
      CoversSplit(fl[..2], x);
      CoversSplit(fl[..2][1..], x);
    }
  }

  /** Replacing the first `k` blocks by one block `m` made of them and `b`. */
  lemma ReplaceFront(fl: seq<Block>, b: Block, m: Block, k: nat, lo: nat, hi: nat)
    requires Normal(fl, lo, hi) && k <= |fl|
    requires m.size > 0 && lo <= m.start && m.End() <= hi && (k < |fl| ==> m.End() < fl[k].start)
    requires forall x :: m.Has(x) <==> b.Has(x) || Covers(fl[..k], x)
    ensures Normal([m] + fl[k..], lo, hi)
    ensures forall x :: Covers([m] + fl[k..], x) <==> Covers(fl, x) || b.Has(x)
  {
    NormalFront(fl, m, k, lo, hi);
    forall x ensures Covers([m] + fl[k..], x) <==> Covers(fl, x) || b.Has(x) {
      assert fl == fl[..k] + fl[k..];
      CoversConcat(fl[..k], fl[k..], x);
      CoversSplit([m] + fl[k..], x);
      assert ([m] + fl[k..])[1..] == fl[k..];
    }
  }

  lemma NormalFront(fl: seq<Block>, m: Block, k: nat, lo: nat, hi: nat)
    requires Normal(fl, lo, hi) && k <= |fl|
    requires m.size > 0 && lo <= m.start && m.End() <= hi && (k < |fl| ==> m.End() < fl[k].start)
    ensures Normal([m] + fl[k..], lo, hi)
  {
  }

  // ----- frees in any order -----

  /** Pairwise apart blocks of the pool, none of them free. */
  ghost predicate Returnable(fl: seq<Block>, bs: seq<Block>, lo: nat, hi: nat) {
    && (forall i :: 0 <= i < |bs| ==>
          bs[i].size > 0 && lo <= bs[i].start && bs[i].End() <= hi && ApartFromAll(fl, bs[i]))
    && (forall i, j :: 0 <= i < j < |bs| ==> Apart(bs[i], bs[j]))
  }

  function ReleaseAll(fl: seq<Block>, bs: seq<Block>): seq<Block>
    decreases |bs|
  {
    if bs == [] then fl else ReleaseAll(Release(fl, bs[0]), bs[1..])
  }

  lemma {:induction false} ReleaseAllNormal(fl: seq<Block>, bs: seq<Block>, lo: nat, hi: nat)
    requires Normal(fl, lo, hi) && Returnable(fl, bs, lo, hi)
    ensures Normal(ReleaseAll(fl, bs), lo, hi)
    ensures forall x :: Covers(ReleaseAll(fl, bs), x) <==> Covers(fl, x) || Covers(bs, x)
    decreases |bs|
  {
    if bs != [] {
      var r := Release(fl, bs[0]);
      ReleaseNormal(fl, bs[0], lo, hi);
      forall i | 0 <= i < |bs[1..]| ensures ApartFromAll(r, bs[1..][i]) {
        assert bs[1..][i] == bs[i + 1] && Apart(bs[0], bs[i + 1]);
        NotCoveredWhenApart(fl, bs[i + 1]);
        ApartByCover(r, bs[i + 1], lo, hi);
      }
      ReleaseAllNormal(r, bs[1..], lo, hi);
      forall x ensures Covers(ReleaseAll(fl, bs), x) <==> Covers(fl, x) || Covers(bs, x) {
        CoversSplit(bs, x);
      }
    }
  }

  /** Frees of the same blocks give the same list, whatever their order. */
  lemma FreeOrderIrrelevant(fl: seq<Block>, bs: seq<Block>, cs: seq<Block>, lo: nat, hi: nat)
    requires Normal(fl, lo, hi) && Returnable(fl, bs, lo, hi) && Returnable(fl, cs, lo, hi)
    requires multiset(bs) == multiset(cs)
    ensures ReleaseAll(fl, bs) == ReleaseAll(fl, cs)
  {
    ReleaseAllNormal(fl, bs, lo, hi);
    ReleaseAllNormal(fl, cs, lo, hi);
    forall x ensures Covers(bs, x) <==> Covers(cs, x) {
      if Covers(bs, x) { SameBlocksCover(bs, cs, x); }
      if Covers(cs, x) { SameBlocksCover(cs, bs, x); }
    }
    NormalUnique(ReleaseAll(fl, bs), ReleaseAll(fl, cs), lo, hi);
  }

  lemma SameBlocksCover(bs: seq<Block>, cs: seq<Block>, x: int)
    requires multiset(bs) == multiset(cs) && Covers(bs, x)
    ensures Covers(cs, x)
  {
    var i :| 0 <= i < |bs| && bs[i].Has(x);
    assert bs[i] in multiset(bs);
    assert bs[i] in cs;
  }

  lemma ApartOrShared(b: Block, c: Block)
    requires b.size > 0 && c.size > 0
    ensures Apart(b, c) || exists x :: b.Has(x) && c.Has(x)
  {
    if !Apart(b, c) {
      var x := if b.start < c.start then c.start else b.start;
      assert b.Has(x) && c.Has(x);
    }
  }

  /** A block none of whose addresses is free is apart from every free block. */
  lemma ApartByCover(fl: seq<Block>, b: Block, lo: nat, hi: nat)
    requires Normal(fl, lo, hi) && b.size > 0
    requires forall x :: b.Has(x) ==> !Covers(fl, x)
    ensures ApartFromAll(fl, b)
  {
    forall i | 0 <= i < |fl| ensures Apart(fl[i], b) {
      ApartOrShared(fl[i], b);
    }
  }

  lemma NotCoveredWhenApart(fl: seq<Block>, b: Block)
    requires ApartFromAll(fl, b)
    ensures forall x :: b.Has(x) ==> !Covers(fl, x)
  {
  }

  // ----- first-fit allocation -----

  /** What is left of `cur` when `[a, a + size)` is cut out of it: nothing, the tail, the
      head, or both. */
  function Remainder(cur: Block, a: nat, size: nat): seq<Block>
    requires cur.start <= a && a + size <= cur.End()
  {
    if a == cur.start then
      if a + size == cur.End() then []
      else [Block(a + size, cur.End() - (a + size))]
    else
      if a + size == cur.End() then [Block(cur.start, a - cur.start)]
      else [Block(cur.start, a - cur.start), Block(a + size, cur.End() - (a + size))]
  }

  predicate Fits(cur: Block, size: nat, align: nat)
    requires align > 0
  {
    RoundUp(cur.start, align) + size <= cur.End()
  }

  /** First fit in exact arithmetic. */
  function Carve(fl: seq<Block>, size: nat, align: nat): Carved
    requires align > 0
  {
    if fl == [] then NoFit
    else if Fits(fl[0], size, align) then
      RoundUpLeast(fl[0].start, align);
      var a := RoundUp(fl[0].start, align);
      Cut(Block(a, size), Remainder(fl[0], a, size) + fl[1..])
    else
      match Carve(fl[1..], size, align)
      case NoFit => NoFit
      case Cut(b, rest) => Cut(b, [fl[0]] + rest)
  }

  /** The cut block is aligned and in bounds; the rest stays normal, and block and rest
      together are exactly what was free. */
  lemma {:induction false} CarveSound(fl: seq<Block>, size: nat, align: nat, lo: nat, hi: nat)
    requires Normal(fl, lo, hi) && size > 0 && align > 0 && Carve(fl, size, align).Cut?
    ensures var c := Carve(fl, size, align);
      && c.block.size == size && c.block.start % align == 0
      && lo <= c.block.start && c.block.End() <= hi
      && Normal(c.rest, lo, hi)
      && ApartFromAll(c.rest, c.block)
      && forall x :: Covers(fl, x) <==> Covers(c.rest, x) || c.block.Has(x)
    decreases |fl|
  {
    RoundUpLeast(fl[0].start, align);
    NormalTail(fl, lo, hi);
    var c := Carve(fl, size, align);
    if Fits(fl[0], size, align) {
      CutHere(fl, c.block.start, size, lo, hi);
    } else {
      CarveSound(fl[1..], size, align, fl[0].End() + 1, hi);
      assert c.rest[1..] == Carve(fl[1..], size, align).rest;
      forall x ensures Covers(fl, x) <==> Covers(c.rest, x) || c.block.Has(x) {
        CoversSplit(fl, x);
        CoversSplit(c.rest, x);
      }
    }
  }

  lemma CutHere(fl: seq<Block>, a: nat, size: nat, lo: nat, hi: nat)
    requires Normal(fl, lo, hi) && fl != [] && size > 0
    requires fl[0].start <= a && a + size <= fl[0].End()
    ensures var r := Remainder(fl[0], a, size) + fl[1..];
      && Normal(r, lo, hi)
      && ApartFromAll(r, Block(a, size))
      && forall x :: Covers(fl, x) <==> Covers(r, x) || Block(a, size).Has(x)
  {
    var m := Remainder(fl[0], a, size);
    forall x ensures Covers(fl, x) <==> Covers(m + fl[1..], x) || Block(a, size).Has(x) {
      CoversSplit(fl, x);
      CoversConcat(m, fl[1..], x);
      if |m| > 0 {
        CoversSplit(m, x);
        if |m| > 1 { CoversSplit(m[1..], x); }
      }
    }
  }

  /** A wholly free range lies inside a single block: this is what coalescing buys. */
  lemma RangeInOneBlock(fl: seq<Block>, a: nat, size: nat, lo: nat, hi: nat) returns (i: nat)
    requires Normal(fl, lo, hi) && size > 0 && CoversRange(fl, a, size)
    ensures i < |fl| && fl[i].start <= a && a + size <= fl[i].End()
  {
    assert Covers(fl, a);
    i :| 0 <= i < |fl| && fl[i].Has(a);
    assert !Covers(fl, fl[i].End());
  }

  /** No aligned free range starts below the one first fit returns, and first fit fails only
      when there is none at all. */
  lemma {:induction false} CarveFirstFit(fl: seq<Block>, size: nat, align: nat, lo: nat, hi: nat, a: nat)
    requires Normal(fl, lo, hi) && size > 0 && align > 0
    requires a % align == 0 && CoversRange(fl, a, size)
    ensures Carve(fl, size, align).Cut? && Carve(fl, size, align).block.start <= a
    decreases |fl|
  {
    var i := RangeInOneBlock(fl, a, size, lo, hi);
    RoundUpLeast(fl[0].start, align);
    if i == 0 {
      assert Fits(fl[0], size, align);
    } else {
      NormalTail(fl, lo, hi);
      if Fits(fl[0], size, align) {
        assert fl[0].End() < fl[i].start;
      } else {
        assert fl[1..][i - 1] == fl[i];
        forall x | a <= x < a + size ensures Covers(fl[1..], x) {
          assert fl[1..][i - 1].Has(x);
        }
        CarveFirstFit(fl[1..], size, align, fl[0].End() + 1, hi, a);
      }
    }
  }

  /** The range first fit returns was wholly free. */
  lemma CarveWasFree(fl: seq<Block>, size: nat, align: nat, lo: nat, hi: nat)
    requires Normal(fl, lo, hi) && size > 0 && align > 0 && Carve(fl, size, align).Cut?
    ensures CoversRange(fl, Carve(fl, size, align).block.start, size)
  {
    CarveSound(fl, size, align, lo, hi);
    var b := Carve(fl, size, align).block;
    forall x | b.start <= x < b.start + size ensures Covers(fl, x) {
      assert b.Has(x);
    }
  }

  /** The list grows by the cut exactly when the byte before the block and the byte after it
      are both free. */
  lemma {:induction false} CarveSplits(fl: seq<Block>, size: nat, align: nat, lo: nat, hi: nat)
    requires Normal(fl, lo, hi) && size > 0 && align > 0 && Carve(fl, size, align).Cut?
    ensures var c := Carve(fl, size, align);
      |c.rest| == |fl| + 1 <==> Covers(fl, c.block.start - 1) && Covers(fl, c.block.End())
    decreases |fl|
  {
    RoundUpLeast(fl[0].start, align);
    var c := Carve(fl, size, align);
    if Fits(fl[0], size, align) {
      HeadNeighbours(fl, c.block, lo, hi);
    } else {
      NormalTail(fl, lo, hi);
      CarveSplits(fl[1..], size, align, fl[0].End() + 1, hi);
      CarveSound(fl[1..], size, align, fl[0].End() + 1, hi);
      CoversSplit(fl, c.block.start - 1);
      CoversSplit(fl, c.block.End());
    }
  }

  lemma HeadNeighbours(fl: seq<Block>, b: Block, lo: nat, hi: nat)
    requires Normal(fl, lo, hi) && fl != [] && b.size > 0
    requires fl[0].start <= b.start && b.End() <= fl[0].End()
    ensures Covers(fl, b.start - 1) <==> b.start != fl[0].start
    ensures Covers(fl, b.End()) <==> b.End() != fl[0].End()
  {
    assert fl[0].Has(b.start - 1) <==> b.start != fl[0].start;
    assert fl[0].Has(b.End()) <==> b.End() != fl[0].End();
  }

  /** Freeing what was just allocated restores the list exactly. */
  lemma CarveRelease(fl: seq<Block>, size: nat, align: nat, lo: nat, hi: nat)
    requires Normal(fl, lo, hi) && size > 0 && align > 0 && Carve(fl, size, align).Cut?
    ensures var c := Carve(fl, size, align); Release(c.rest, c.block) == fl
  {
    CarveSound(fl, size, align, lo, hi);
    var c := Carve(fl, size, align);
    ReleaseNormal(c.rest, c.block, lo, hi);
    NormalUnique(Release(c.rest, c.block), fl, lo, hi);
  }
}
