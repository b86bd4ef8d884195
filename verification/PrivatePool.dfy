/** The private pool of the kernel driver: a singly linked free list edited in place. */
module PrivatePool {
  import opened Bits
  import opened FreeLists
  import opened Pools

  /** An allocation record. On the free list it describes a free block; otherwise it is a
      handle held by the users counted in `refs`. */
  class Allocation {
    var start: u32
    var size: u32
    var next: Allocation?
    var refs: nat

    constructor (start: u32, size: u32)
      ensures this.start == start && this.size == size && next == null && refs == 0
    {
      this.start, this.size, next, refs := start, size, null, 0;
    }

    function Extent(): Block
      reads this`start, this`size
    {
      Block(start, size)
    }
  }

  /** The node at position `i`, or null at the end of the chain. */
  ghost function At(nodes: seq<Allocation>, i: nat): Allocation? {
    if i < |nodes| then nodes[i] else null
  }

  ghost predicate Distinct(nodes: seq<Allocation>) {
    forall i, j :: 0 <= i < j < |nodes| ==> nodes[i] != nodes[j]
  }

  /** `nodes` is the chain that starts at `head`. */
  ghost predicate Chain(head: Allocation?, nodes: seq<Allocation>)
    reads nodes
  {
    && head == At(nodes, 0)
    && (forall i {:trigger nodes[i]} :: 0 <= i < |nodes| ==> nodes[i].next == At(nodes, i + 1))
    && Distinct(nodes)
  }

  ghost function Blocks(nodes: seq<Allocation>): (fl: seq<Block>)
    reads nodes
    ensures |fl| == |nodes| && forall i :: 0 <= i < |nodes| ==> fl[i] == nodes[i].Extent()
  {
    seq(|nodes|, i requires 0 <= i < |nodes| reads nodes => nodes[i].Extent())
  }

  // ----- where the two loops stop -----

  predicate StopsAt(c: Block, b: Block)
    requires Word(c) && Word(b)
  {
    End32(c) == b.start || b.start < c.start
  }

  lemma {:induction false} ReleaseSkips(fl: seq<Block>, b: Block, k: nat)
    requires Words(fl) && Word(b) && k <= |fl|
    requires forall i :: 0 <= i < k ==> !StopsAt(fl[i], b)
    ensures Release32(fl, b) == fl[..k] + Release32(fl[k..], b)
    decreases k
  {
    if k == 0 {
      assert fl[0..] == fl;
    } else {
      ReleaseSkips(fl[1..], b, k - 1);
      assert !StopsAt(fl[0], b);
      assert fl[1..][k - 1..] == fl[k..] && fl[..k] == [fl[0]] + fl[1..][..k - 1];
    }
  }

  /** `fl` with `more` bytes joined to the tail of block `k`. */
  ghost function Extended(fl: seq<Block>, k: nat, more: u32): seq<Block>
    requires Words(fl) && k < |fl|
  {
    var m := Merge32(fl[k].start, fl[k].size, more);
    if k + 1 < |fl| && End32(m) == fl[k + 1].start
    then fl[..k] + [Merge32(m.start, m.size, fl[k + 1].size)] + fl[k + 2..]
    else fl[k := m]
  }

  /** What the free loop does to the list when it stops at position `k`: tail merge, head
      merge or insertion. */
  lemma ReleaseAtTailOf(fl: seq<Block>, b: Block, k: nat)
    requires Words(fl) && Word(b) && k < |fl|
    requires forall i :: 0 <= i < k ==> !StopsAt(fl[i], b)
    requires End32(fl[k]) == b.start
    ensures Release32(fl, b) == Extended(fl, k, b.size)
  {
    ReleaseSkips(fl, b, k);
    ReleaseTailHere(fl[k..], b);
    var m := Merge32(fl[k].start, fl[k].size, b.size);
    assert fl[k..][1..] == fl[k + 1..];
    if k + 1 < |fl| && End32(m) == fl[k + 1].start {
      assert fl[k..][2..] == fl[k + 2..];
    } else {
      UpdateSplit(fl, k, m);
    }
  }

  lemma ReleaseTailHere(g: seq<Block>, b: Block)
    requires Words(g) && Word(b) && g != [] && End32(g[0]) == b.start
    ensures var m := Merge32(g[0].start, g[0].size, b.size);
      Release32(g, b) == if |g| > 1 && End32(m) == g[1].start
                         then [Merge32(m.start, m.size, g[1].size)] + g[2..]
                         else [m] + g[1..]
  {
  }

  lemma UpdateSplit(fl: seq<Block>, k: nat, m: Block)
    requires k < |fl|
    ensures fl[k := m] == fl[..k] + ([m] + fl[k + 1..]) == fl[..k] + [m] + fl[k + 1..]
  {
  }

  lemma ReleaseAtHeadOf(fl: seq<Block>, b: Block, k: nat)
    requires Words(fl) && Word(b) && k < |fl|
    requires forall i :: 0 <= i < k ==> !StopsAt(fl[i], b)
    requires End32(fl[k]) != b.start && b.start < fl[k].start && End32(b) == fl[k].start
    ensures Release32(fl, b) == fl[k := Merge32(b.start, fl[k].size, b.size)]
  {
    ReleaseSkips(fl, b, k);
    var m := Merge32(b.start, fl[k].size, b.size);
    assert Release32(fl[k..], b) == [m] + fl[k..][1..];
    assert fl[k..][1..] == fl[k + 1..];
    UpdateSplit(fl, k, m);
  }

  lemma ReleaseInserts(fl: seq<Block>, b: Block, k: nat)
    requires Words(fl) && Word(b) && k <= |fl|
    requires forall i :: 0 <= i < k ==> !StopsAt(fl[i], b)
    requires k < |fl| ==> End32(fl[k]) != b.start && b.start < fl[k].start && End32(b) != fl[k].start
    ensures Release32(fl, b) == fl[..k] + [b] + fl[k..]
  {
    ReleaseSkips(fl, b, k);
    assert Release32(fl[k..], b) == [b] + fl[k..];
  }

  lemma UpdateDrop(fl: seq<Block>, k: nat, m: Block)
    requires k + 1 < |fl|
    ensures fl[k := m][..k + 1] + fl[k := m][k + 2..] == fl[..k] + [m] + fl[k + 2..]
  {
  }

  /** First fit cuts the first block that passes the test. */
  lemma CarveAt(fl: seq<Block>, size: u32, align: u32, k: nat)
    requires Words(fl) && align > 0 && k < |fl|
    requires forall i :: 0 <= i < k ==> !Fits32(fl[i], size, align)
    requires Fits32(fl[k], size, align)
    ensures var a := Align32(fl[k].start, align);
      Carve32(fl, size, align) == Cut(Block(a, size), fl[..k] + Remainder32(fl[k], a, size) + fl[k + 1..])
  {
    CarveSkips(fl, size, align, k);
    var a := Align32(fl[k].start, align);
    assert fl[k..][1..] == fl[k + 1..];
    assert Carve32(fl[k..], size, align) == Cut(Block(a, size), Remainder32(fl[k], a, size) + fl[k + 1..]);
    assert fl[..k] + (Remainder32(fl[k], a, size) + fl[k + 1..]) == fl[..k] + Remainder32(fl[k], a, size) + fl[k + 1..];
  }

  lemma UpdateInsert(fl: seq<Block>, k: nat, m: Block, n: Block)
    requires k < |fl|
    ensures fl[k := m][..k + 1] + [n] + fl[k := m][k + 1..] == fl[..k] + [m, n] + fl[k + 1..]
  {
  }

  // ----- blocks of spliced chains -----

  lemma DistinctInsert(nodes: seq<Allocation>, k: nat, n: Allocation)
    requires k <= |nodes| && Distinct(nodes) && n !in nodes
    ensures Distinct(nodes[..k] + [n] + nodes[k..])
  {
  }

  lemma DistinctDrop(nodes: seq<Allocation>, k: nat)
    requires k < |nodes| && Distinct(nodes)
    ensures Distinct(nodes[..k] + nodes[k + 1..]) && nodes[k] !in nodes[..k] + nodes[k + 1..]
  {
  }

  /** Every node of `nodes` was in `before` or is `extra`. */
  ghost predicate Within(nodes: seq<Allocation>, before: seq<Allocation>, extra: Allocation) {
    forall n :: n in nodes ==> n in before || n == extra
  }

  lemma WithinInsert(nodes: seq<Allocation>, k: nat, n: Allocation)
    requires k <= |nodes|
    ensures Within(nodes[..k] + [n] + nodes[k..], nodes, n)
  {
  }

  lemma WithinDrop(nodes: seq<Allocation>, k: nat, n: Allocation)
    requires k < |nodes|
    ensures Within(nodes[..k] + nodes[k + 1..], nodes, n)
  {
  }

  lemma BlocksInsert(nodes: seq<Allocation>, k: nat, n: Allocation)
    requires k <= |nodes|
    ensures Blocks(nodes[..k] + [n] + nodes[k..]) == Blocks(nodes)[..k] + [n.Extent()] + Blocks(nodes)[k..]
  {
  }

  lemma BlocksDrop(nodes: seq<Allocation>, k: nat)
    requires k < |nodes|
    ensures Blocks(nodes[..k] + nodes[k + 1..]) == Blocks(nodes)[..k] + Blocks(nodes)[k + 1..]
  {
  }

  lemma {:induction false} CarveSkips(fl: seq<Block>, size: u32, align: u32, k: nat)
    requires Words(fl) && align > 0 && k <= |fl|
    requires forall i :: 0 <= i < k ==> !Fits32(fl[i], size, align)
    ensures match Carve32(fl[k..], size, align)
      case NoFit => Carve32(fl, size, align) == NoFit
      case Cut(b, rest) => Carve32(fl, size, align) == Cut(b, fl[..k] + rest)
    decreases k
  {
    if k == 0 {
      assert fl[0..] == fl;
      assert forall rest: seq<Block> :: fl[..0] + rest == rest;
    } else {
      CarveSkips(fl[1..], size, align, k - 1);
      assert fl[1..][k - 1..] == fl[k..];
      assert forall rest: seq<Block> :: [fl[0]] + (fl[1..][..k - 1] + rest) == fl[..k] + rest;
    }
  }

  /** The outcome of an allocation call. */
  datatype Outcome = EInval | ENoMem | Ok

  /** No range fits, or the one that does needs a second node that cannot be had. */
  ghost predicate NotServed(free: seq<Block>, c: Carved, available: nat) {
    c.NoFit? || (available == 1 && NeedsSecondNode(free, c))
  }

  lemma AlignPositive(size: u32, align: u32)
    requires !BadRequest(size, align)
    ensures EffectiveAlign(align) > 0
  {
    AlignCheck(size, align);
  }

  lemma StepAlloc(p: Pools.Pool, size: u32, align: u32, available: nat, c: Carved)
    requires Words(p.free) && !BadRequest(size, align) && c == Request(p.free, size, align) && available > 0
    ensures var q := Step(p, Op.Alloc(size, align, available));
      && q.lo == p.lo && q.hi == p.hi
      && q.free == (if c.NoFit? then p.free else c.rest)
      && (!NotServed(p.free, c, available) ==> q.live == p.live + {c.block})
  {
  }

  class Pool {
    const start: u32
    const size: u32
    var freeList: Allocation?
    ghost var nodes: seq<Allocation>
    ghost var model: Pools.Pool

    /** The list is well linked and shows the free blocks of the model. */
    ghost predicate Valid()
      reads this, nodes
    {
      && Chain(freeList, nodes)
      && model.free == Blocks(nodes)
      && model.lo == start && model.hi == start + size
    }

    constructor (start: u32, size: u32)
      ensures Valid() && fresh(nodes)
      ensures this.start == start && this.size == size && model == Initial(start, size)
    {
      var whole := new Allocation(start, size);
      this.start, this.size := start, size;
      freeList := whole;
      nodes := [whole];
      model := Initial(start, size);
      new;
      assert Blocks(nodes) == [Block(start, size)];
    }

    /** Splices `freed` back into the list. */
    method Free(freed: Allocation)
      requires Valid() && freed !in nodes
      modifies this, nodes`start, nodes`size, nodes`next, freed`next
      ensures Valid()
      ensures model == Step(old(model), Op.Free(old(freed.Extent())))
      ensures Within(nodes, old(nodes), freed)
    {
      ghost var fl, b := Blocks(nodes), freed.Extent();
      Splice(freed);
      model := model.(free := Release32(fl, b), live := model.live - {b});
    }

    method Splice(freed: Allocation)
      requires Chain(freeList, nodes) && freed !in nodes
      modifies this`nodes, this`freeList, nodes`start, nodes`size, nodes`next, freed`next
      ensures Chain(freeList, nodes)
      ensures Blocks(nodes) == Release32(old(Blocks(nodes)), old(freed.Extent()))
      ensures Within(nodes, old(nodes), freed)
    {
      ghost var fl, b := Blocks(nodes), freed.Extent();
      var prev, cur, k := Locate(freed);
      if cur != null && Add32(cur.start, cur.size) == freed.start {
        ReleaseAtTailOf(fl, b, k);
        Extend(cur, freed, k);
      } else if cur != null && Add32(freed.start, freed.size) == cur.start {
        ReleaseAtHeadOf(fl, b, k);
        Resize(cur, freed.start, Add32(cur.size, freed.size), k);
      } else {
        ReleaseInserts(fl, b, k);
        WithinInsert(nodes, k, freed);
        Insert(prev, cur, freed, k);
      }
    }

    /** Walks to the first node that ends at `freed` or lies above it. */
    method Locate(freed: Allocation) returns (prev: Allocation?, cur: Allocation?, ghost k: nat)
      requires Chain(freeList, nodes)
      ensures k <= |nodes| && cur == At(nodes, k) && prev == (if k > 0 then nodes[k - 1] else null)
      ensures forall i :: 0 <= i < k ==> !StopsAt(nodes[i].Extent(), freed.Extent())
      ensures cur != null ==> StopsAt(cur.Extent(), freed.Extent())
    {
      prev, cur, k := null, freeList, 0;
      while cur != null && !(Add32(cur.start, cur.size) == freed.start || freed.start < cur.start)
        invariant k <= |nodes| && cur == At(nodes, k)
        invariant prev == if k > 0 then nodes[k - 1] else null
        invariant forall i :: 0 <= i < k ==> !StopsAt(nodes[i].Extent(), freed.Extent())
        decreases |nodes| - k
      {
        prev, cur, k := cur, cur.next, k + 1;
      }
    }

    /** Merges `freed` into the tail of `cur`, and then `cur` with its successor when they
        have come to touch. */
    method Extend(cur: Allocation, freed: Allocation, ghost k: nat)
      requires Chain(freeList, nodes) && k < |nodes| && cur == nodes[k] && freed !in nodes
      modifies this`nodes, nodes`start, nodes`size, nodes`next
      ensures Chain(freeList, nodes) && Within(nodes, old(nodes), freed)
      ensures Blocks(nodes) == old(Extended(Blocks(nodes), k, freed.size))
    {
      var next := cur.next;
      Resize(cur, cur.start, Add32(cur.size, freed.size), k);
      if next != null && Add32(cur.start, cur.size) == next.start {
        WithinDrop(nodes, k + 1, freed);
        Absorb(cur, next, k);
      }
    }

    /** Joins the successor of `cur` to it. */
    method Absorb(cur: Allocation, next: Allocation, ghost k: nat)
      requires Chain(freeList, nodes) && k + 1 < |nodes| && cur == nodes[k] && next == nodes[k + 1]
      modifies this`nodes, cur`start, cur`size, cur`next
      ensures Chain(freeList, nodes) && nodes == old(nodes)[..k + 1] + old(nodes)[k + 2..]
      ensures Blocks(nodes) ==
        old(Blocks(nodes)[..k] + [Merge32(cur.start, cur.size, next.size)] + Blocks(nodes)[k + 2..])
    {
      UpdateDrop(Blocks(nodes), k, Merge32(cur.start, cur.size, next.size));
      Resize(cur, cur.start, Add32(cur.size, next.size), k);
      DropNext(cur, k);
    }

    /** Sets the extent of node `k` in place. */
    method Resize(n: Allocation, start: u32, size: u32, ghost k: nat)
      requires Chain(freeList, nodes) && k < |nodes| && n == nodes[k]
      modifies n`start, n`size
      ensures Chain(freeList, nodes) && n.Extent() == Block(start, size)
      ensures Blocks(nodes) == old(Blocks(nodes))[k := Block(start, size)]
    {
      n.start, n.size := start, size;
    }

    /** Unlinks the successor of `cur`. */
    method DropNext(cur: Allocation, ghost k: nat)
      requires Chain(freeList, nodes) && k + 1 < |nodes| && cur == nodes[k]
      modifies this`nodes, cur`next
      ensures Chain(freeList, nodes) && nodes == old(nodes)[..k + 1] + old(nodes)[k + 2..]
      ensures Blocks(nodes) == old(Blocks(nodes)[..k + 1] + Blocks(nodes)[k + 2..])
    {
      ghost var was, fl := nodes, Blocks(nodes);
      LinkPast(cur, k);
      assert Blocks(was) == fl;
      BlocksDrop(was, k + 1);
    }

    method LinkPast(cur: Allocation, ghost k: nat)
      requires Chain(freeList, nodes) && k + 1 < |nodes| && cur == nodes[k]
      modifies this`nodes, cur`next
      ensures Chain(freeList, nodes) && nodes == old(nodes)[..k + 1] + old(nodes)[k + 2..]
    {
      DistinctDrop(nodes, k + 1);
      cur.next := cur.next.next;
      nodes := nodes[..k + 1] + nodes[k + 2..];
    }

    /** Links `freed` between `prev` and `cur`. */
    method Insert(prev: Allocation?, cur: Allocation?, freed: Allocation, ghost k: nat)
      requires Chain(freeList, nodes) && k <= |nodes| && freed !in nodes
      requires cur == At(nodes, k) && prev == (if k > 0 then nodes[k - 1] else null)
      modifies this`nodes, this`freeList, nodes`next, freed`next
      ensures Chain(freeList, nodes) && nodes == old(nodes)[..k] + [freed] + old(nodes)[k..]
      ensures Blocks(nodes) == old(Blocks(nodes)[..k] + [freed.Extent()] + Blocks(nodes)[k..])
    {
      ghost var was, fl := nodes, Blocks(nodes);
      if prev == null {
        LinkFirst(cur, freed);
      } else {
        LinkAfter(prev, cur, freed, k);
      }
      assert Blocks(was) == fl;
      BlocksInsert(was, k, freed);
    }

    method LinkFirst(cur: Allocation?, freed: Allocation)
      requires Chain(freeList, nodes) && freed !in nodes && cur == At(nodes, 0)
      modifies this`nodes, this`freeList, freed`next
      ensures Chain(freeList, nodes) && nodes == old(nodes)[..0] + [freed] + old(nodes)[0..]
    {
      DistinctInsert(nodes, 0, freed);
      freed.next := cur;
      freeList := freed;
      nodes := nodes[..0] + [freed] + nodes[0..];
    }

    method LinkAfter(prev: Allocation, cur: Allocation?, freed: Allocation, ghost k: nat)
      requires Chain(freeList, nodes) && 0 < k <= |nodes| && freed !in nodes
      requires cur == At(nodes, k) && prev == nodes[k - 1]
      modifies this`nodes, prev`next, freed`next
      ensures Chain(freeList, nodes) && nodes == old(nodes)[..k] + [freed] + old(nodes)[k..]
    {
      DistinctInsert(nodes, k, freed);
      freed.next := cur;
      prev.next := freed;
      ghost var was := nodes;
      nodes := was[..k] + [freed] + was[k..];
      forall i | 0 <= i < |nodes| ensures nodes[i].next == At(nodes, i + 1) {
        assert nodes[i] == if i < k then was[i] else if i == k then freed else was[i - 1];
      }
    }

    /** Allocates `size` bytes, rounded up to pages, at an address aligned to `align` and to
        the page size. `available` is how many list nodes can be allocated during the call. */
    method Alloc(size: u32, align: u32, available: nat) returns (r: Outcome, a: Allocation?)
      requires Valid()
      modifies this, nodes
      ensures Valid()
      ensures model == Step(old(model), Op.Alloc(size, align, available))
      ensures r.EInval? <==> BadRequest(size, align)
      ensures r.Ok? <==> a != null
      ensures r.Ok? ==> a !in nodes && (a in old(nodes) || fresh(a)) && a.refs == 1
      ensures r.Ok? ==> model.live == old(model.live) + {a.Extent()}
      ensures r.ENoMem? <==>
        && !BadRequest(size, align)
        && (available == 0 || NotServed(old(model.free), Request(old(model.free), size, align), available))
      ensures forall n :: n in nodes ==> n in old(nodes) || fresh(n)
    {
      if size == 0 || And(align, Sub32(align, 1)) != 0 {
        return EInval, null;
      }
      AlignPositive(size, align);
      if available == 0 {
        return ENoMem, null;
      }
      var e := Align32(if align == 0 then 1 else align, PAGE_SIZE);
      var s := Align32(size, PAGE_SIZE);
      ghost var c := Request(model.free, size, align);
      a := Obtain(s, e, available);
      r := if a == null then ENoMem else Ok;
      StepAlloc(model, size, align, available, c);
      model := Step(model, Op.Alloc(size, align, available));
    }

    /** Cuts a range out of the list and finds a record for it, allocating at most
        `available` nodes. */
    method Obtain(size: u32, align: u32, available: nat) returns (a: Allocation?)
      requires Chain(freeList, nodes) && align > 0 && available > 0
      modifies this`nodes, this`freeList, nodes
      ensures Chain(freeList, nodes)
      ensures var c := old(Carve32(Blocks(nodes), size, align));
        && Blocks(nodes) == (if c.NoFit? then old(Blocks(nodes)) else c.rest)
        && (a == null <==> NotServed(old(Blocks(nodes)), c, available))
        && (a != null ==> a.Extent() == c.block)
      ensures a != null ==> a !in nodes && (a in old(nodes) || fresh(a)) && a.refs == 1
      ensures forall n :: n in nodes ==> n in old(nodes) || fresh(n)
    {
      var spare := new Allocation(0, 0);
      var found, aligned;
      found, aligned, a := FirstFit(size, align, spare);
      if !found {
        return null;
      }
      if a == null {
        if available == 1 {
          return;
        }
        a := new Allocation(0, 0);
      }
      Claim(a, aligned, size);
    }

    /** Writes the extent into a record that is not on the list. */
    method Claim(a: Allocation, start: u32, size: u32)
      requires Chain(freeList, nodes) && a !in nodes
      modifies a
      ensures Chain(freeList, nodes) && Blocks(nodes) == old(Blocks(nodes))
      ensures a.Extent() == Block(start, size) && a.refs == 1
    {
      a.start, a.size, a.refs := start, size, 1;
    }

    /** Search and cut. `taken` is the record left over for the caller, if any. */
    method FirstFit(size: u32, align: u32, spare: Allocation)
      returns (found: bool, aligned: u32, taken: Allocation?)
      requires Chain(freeList, nodes) && align > 0 && spare !in nodes
      modifies this`nodes, this`freeList, nodes, spare
      ensures Chain(freeList, nodes) && Within(nodes, old(nodes), spare)
      ensures var c := old(Carve32(Blocks(nodes), size, align));
        if c.NoFit? then !found && nodes == old(nodes) && Blocks(nodes) == old(Blocks(nodes))
        else
          && found && c.block == Block(aligned, size) && Blocks(nodes) == c.rest
          && (taken == null <==> |c.rest| == |old(nodes)| + 1)
      ensures taken != null ==> taken !in nodes && (taken in old(nodes) || taken == spare)
    {
      ghost var fl := Blocks(nodes);
      var prev, cur, k := Search(size, align);
      if cur == null {
        CarveSkips(fl, size, align, k);
        assert fl[k..] == [];
        return false, 0, null;
      }
      CarveAt(fl, size, align, k);
      found, aligned := true, Align32(cur.start, align);
      taken := Carve(prev, cur, aligned, size, spare, k);
    }

    /** Walks to the first node that passes the fit test. */
    method Search(size: u32, align: u32) returns (prev: Allocation?, cur: Allocation?, ghost k: nat)
      requires Chain(freeList, nodes) && align > 0
      ensures k <= |nodes| && cur == At(nodes, k) && prev == (if k > 0 then nodes[k - 1] else null)
      ensures forall i :: 0 <= i < k ==> !Fits32(nodes[i].Extent(), size, align)
      ensures cur != null ==> Fits32(cur.Extent(), size, align)
    {
      prev, cur, k := null, freeList, 0;
      while cur != null
        invariant k <= |nodes| && cur == At(nodes, k)
        invariant prev == if k > 0 then nodes[k - 1] else null
        invariant forall i :: 0 <= i < k ==> !Fits32(nodes[i].Extent(), size, align)
        decreases |nodes| - k
      {
        var aligned := Align32(cur.start, align);
        if aligned >= cur.start && Add32(Sub32(aligned, cur.start), size) <= cur.size {
          return;
        }
        prev, cur, k := cur, cur.next, k + 1;
      }
    }

    /** Cuts `[aligned, aligned + size)` out of `cur`. The record for it is `cur` itself when
        the whole block goes, `spare` when one end goes, and none after a split, which puts
        `spare` on the list. */
    method Carve(prev: Allocation?, cur: Allocation, aligned: u32, size: u32, spare: Allocation, ghost k: nat)
      returns (taken: Allocation?)
      requires Chain(freeList, nodes) && k < |nodes| && spare !in nodes
      requires cur == nodes[k] && prev == (if k > 0 then nodes[k - 1] else null)
      modifies this`nodes, this`freeList, nodes, spare
      ensures Chain(freeList, nodes) && Within(nodes, old(nodes), spare)
      ensures Blocks(nodes) ==
        old(Blocks(nodes)[..k] + Remainder32(cur.Extent(), aligned, size) + Blocks(nodes)[k + 1..])
      ensures taken == null <==> |Remainder32(old(cur.Extent()), aligned, size)| == 2
      ensures taken != null ==> taken !in nodes && (taken == cur || taken == spare)
    {
      var tail, end := Add32(aligned, size), Add32(cur.start, cur.size);
      if aligned == cur.start {
        if tail == end {
          WithinDrop(nodes, k, spare);
          DistinctDrop(nodes, k);
          Unlink(prev, cur, k);
          taken := cur;
        } else {
          UpdateSplit(Blocks(nodes), k, Block(tail, Sub32(cur.size, Sub32(tail, cur.start))));
          Resize(cur, tail, Sub32(cur.size, Sub32(tail, cur.start)), k);
          taken := spare;
        }
      } else if tail == end {
        UpdateSplit(Blocks(nodes), k, Block(cur.start, Sub32(aligned, cur.start)));
        Resize(cur, cur.start, Sub32(aligned, cur.start), k);
        taken := spare;
      } else {
        Split(cur, aligned, tail, Sub32(end, tail), spare, k);
        taken := null;
      }
    }

    /** Shortens `cur` to end at `aligned` and links a node for the rest behind it. */
    method Split(cur: Allocation, aligned: u32, tail: u32, rest: u32, spare: Allocation, ghost k: nat)
      requires Chain(freeList, nodes) && k < |nodes| && spare !in nodes && cur == nodes[k]
      modifies this`nodes, this`freeList, nodes, spare
      ensures Chain(freeList, nodes) && Within(nodes, old(nodes), spare)
      ensures Blocks(nodes) == old(Blocks(nodes)[..k]
        + [Block(cur.start, Sub32(aligned, cur.start)), Block(tail, rest)] + Blocks(nodes)[k + 1..])
    {
      UpdateInsert(Blocks(nodes), k, Block(cur.start, Sub32(aligned, cur.start)), Block(tail, rest));
      WithinInsert(nodes, k + 1, spare);
      ghost var fl := Blocks(nodes);
      spare.start, spare.size := tail, rest;
      assert Blocks(nodes) == fl;
      Resize(cur, cur.start, Sub32(aligned, cur.start), k);
      Insert(cur, cur.next, spare, k + 1);
    }

    /** Unlinks `cur`. */
    method Unlink(prev: Allocation?, cur: Allocation, ghost k: nat)
      requires Chain(freeList, nodes) && k < |nodes| && cur == nodes[k]
      requires prev == (if k > 0 then nodes[k - 1] else null)
      modifies this`nodes, this`freeList, nodes`next
      ensures Chain(freeList, nodes) && nodes == old(nodes)[..k] + old(nodes)[k + 1..]
      ensures Blocks(nodes) == old(Blocks(nodes)[..k] + Blocks(nodes)[k + 1..])
    {
      if prev == null {
        ghost var was, fl := nodes, Blocks(nodes);
        freeList := cur.next;
        nodes := nodes[..0] + nodes[1..];
        BlocksDrop(was, 0);
      } else {
        DropNext(prev, k - 1);
      }
    }

    /** Takes one more reference. */
    method Get(a: Allocation)
      requires a !in nodes
      modifies a`refs
      ensures a.refs == old(a.refs) + 1
    {
      a.refs := a.refs + 1;
    }

    /** Drops a reference; the last one returns the block to the pool. */
    method Put(a: Allocation)
      requires Valid() && a !in nodes && a.refs > 0
      modifies this, nodes, a
      ensures Valid() && a.refs == old(a.refs) - 1
      ensures model == if old(a.refs) == 1 then Step(old(model), Op.Free(old(a.Extent()))) else old(model)
      ensures old(a.refs) > 1 ==> nodes == old(nodes)
      ensures Within(nodes, old(nodes), a)
    {
      a.refs := a.refs - 1;
      if a.refs == 0 {
        Free(a);
      }
    }
  }
}
