/** The protocol and the pool together: requests hold allocations while the DSP may use them,
    and the last holder of an allocation returns it to the pool. */
module Lending {
  import opened Bits
  import opened FreeLists
  import Pools
  import opened Protocol
  import opened ProtocolProof
  import ProtocolAlways

  /** A process that mapped the allocation, or a request that shares it with the DSP. */
  datatype Holder = User(id: nat) | Lent(req: Req)

  datatype System = System(p: State, pool: Pools.Pool, held: set<(Holder, Block)>)

  /** `Proto` is a step of the protocol; `Obtain`, `Share` and `Drop` are the allocation of a
      block, one more reference to it, and the end of a reference. */
  datatype Move =
    | Proto(action: Action)
    | Obtain(holder: Holder, size: u32, align: u32, nodes: nat)
    | Share(holder: Holder, block: Block)
    | Drop(holder: Holder, block: Block)

  /** References change while a request is being mapped or after its memory was returned, but
      not in between. */
  predicate Free(s: System, h: Holder) {
    h.Lent? ==> h.req !in s.p.books.mapped
  }

  predicate Growing(s: System, h: Holder) {
    h.Lent? ==> h.req !in s.p.books.mapped && h.req !in s.p.books.returned
  }

  /** An allocation is asked for with any size and alignment that the pool does not decide
      wrongly. */
  ghost predicate Can(c: Config, s: System, m: Move) {
    match m
    case Proto(a) => Enabled(c, s.p, a)
    case Obtain(h, size, align, nodes) =>
      Growing(s, h) && Pools.Words(s.pool.free) && Pools.Legal(s.pool, Pools.Alloc(size, align, nodes))
    case Share(h, b) => Growing(s, h) && b in s.pool.live
    case Drop(h, b) => Free(s, h) && (h, b) in s.held && Pools.Words(s.pool.free) && Pools.Word(b)
  }

  predicate LastHolder(held: set<(Holder, Block)>, h: Holder, b: Block) {
    forall x :: x in held && x.1 == b ==> x.0 == h
  }

  /** Holder `h` gets what an allocation call hands out. */
  ghost function Obtains(s: System, h: Holder, op: Pools.Op): System
    requires op.Alloc? && Pools.Words(s.pool.free)
  {
    var pool := Pools.Step(s.pool, op);
    s.(pool := pool, held := s.held + set b | b in pool.live - s.pool.live :: (h, b))
  }

  ghost function Do(c: Config, s: System, m: Move): System
    requires Can(c, s, m)
  {
    match m
    case Proto(a) => s.(p := Next(c, s.p, a))
    case Obtain(h, size, align, nodes) => Obtains(s, h, Pools.Alloc(size, align, nodes))
    case Share(h, b) => s.(held := s.held + {(h, b)})
    case Drop(h, b) =>
      var held := s.held - {(h, b)};
      if LastHolder(s.held, h, b)
      then s.(held := held, pool := Pools.Step(s.pool, Pools.Free(b)))
      else s.(held := held)
  }

  /** The allocations handed out are those that somebody holds. */
  ghost predicate Valid(s: System) {
    && s.pool.Valid()
    && (forall x :: x in s.held ==> x.1 in s.pool.live)
    && (forall b :: b in s.pool.live ==> exists h :: (h, b) in s.held)
  }

  /** Whatever is asked for, allocating keeps the pool a partition, with holders for exactly the
      live allocations, if and only if the pool does not decide the request wrongly. */
  lemma ObtainValidIff(s: System, h: Holder, op: Pools.Op)
    requires Valid(s) && op.Alloc?
    ensures Valid(Obtains(s, h, op)) <==> Pools.Legal(s.pool, op)
  {
    Pools.StepValidIff(s.pool, op);
    if Pools.Legal(s.pool, op) {
      var t := Obtains(s, h, op);
      forall b | b in t.pool.live ensures exists k :: (k, b) in t.held {
        if b in s.pool.live {
          var k :| (k, b) in s.held;
          assert (k, b) in t.held;
        } else {
          assert (h, b) in t.held;
        }
      }
    }
  }

  lemma DropValid(c: Config, s: System, m: Move)
    requires Valid(s) && m.Drop? && Can(c, s, m)
    ensures Valid(Do(c, s, m))
    ensures forall x :: x in s.held && x != (m.holder, m.block) ==> x.1 in Do(c, s, m).pool.live
  {
    var t := Do(c, s, m);
    if LastHolder(s.held, m.holder, m.block) {
      Pools.StepValid(s.pool, Pools.Free(m.block));
      assert forall x :: x in t.held ==> x.1 != m.block;
    } else {
      var x :| x in s.held && x.1 == m.block && x.0 != m.holder;
      assert (x.0, m.block) in t.held;
    }
    forall b | b in t.pool.live ensures exists h :: (h, b) in t.held {
      var h :| (h, b) in s.held;
      if b != m.block { assert (h, b) in t.held; }
    }
  }

  lemma MoveValid(c: Config, s: System, m: Move)
    requires Valid(s) && Can(c, s, m)
    ensures Valid(Do(c, s, m))
  {
    match m
    case Proto(_) =>
    case Obtain(h, size, align, nodes) => ObtainValidIff(s, h, Pools.Alloc(size, align, nodes));
    case Share(h, b) =>
      var t := Do(c, s, m);
      forall b' | b' in t.pool.live ensures exists k :: (k, b') in t.held {
        var k :| (k, b') in s.held;
        assert (k, b') in t.held;
      }
    case Drop(_, _) => DropValid(c, s, m);
  }

  // ----- every run -----

  ghost predicate IsRun(c: Config, states: seq<System>, moves: seq<Move>) {
    && |states| == |moves| + 1
    && Init(states[0].p) && Valid(states[0])
    && forall i {:trigger moves[i]} :: 0 <= i < |moves| ==>
      Can(c, states[i], moves[i]) && states[i + 1] == Do(c, states[i], moves[i])
  }

  lemma MoveInv(c: Config, s: System, m: Move)
    requires Kept(c) && Inv(c, s.p) && Can(c, s, m)
    ensures Inv(c, Do(c, s, m).p)
  {
    if m.Proto? {
      StepInv(c, s.p, m.action);
    }
  }

  lemma {:induction false} RunValid(c: Config, states: seq<System>, moves: seq<Move>, k: nat)
    requires IsRun(c, states, moves) && k <= |moves|
    ensures Valid(states[k]) && ProtocolAlways.Basic(states[k].p)
    decreases k
  {
    if k > 0 {
      RunValid(c, states, moves, k - 1);
      MoveValid(c, states[k - 1], moves[k - 1]);
      MoveBasic(c, states[k - 1], moves[k - 1]);
      assert states[(k - 1) + 1] == Do(c, states[k - 1], moves[k - 1]);
    }
  }

  lemma MoveBasic(c: Config, s: System, m: Move)
    requires ProtocolAlways.Basic(s.p) && Can(c, s, m)
    ensures ProtocolAlways.Basic(Do(c, s, m).p)
  {
    if m.Proto? {
      ProtocolAlways.BasicStep(c, s.p, m.action);
    }
  }

  lemma {:induction false} RunInv(c: Config, states: seq<System>, moves: seq<Move>, k: nat)
    requires Kept(c) && IsRun(c, states, moves) && k <= |moves|
    ensures Inv(c, states[k].p)
    decreases k
  {
    if k == 0 {
      InitInv(c, states[0].p);
    } else {
      RunInv(c, states, moves, k - 1);
      MoveInv(c, states[k - 1], moves[k - 1]);
      assert states[(k - 1) + 1] == Do(c, states[k - 1], moves[k - 1]);
    }
  }

  /** Block `b` is handed out: none of its addresses is free or belongs to another block. */
  ghost predicate Reserved(pool: Pools.Pool, b: Block) {
    && b in pool.live
    && (forall x :: b.Has(x) ==> !Covers(pool.free, x))
    && (forall d :: d in pool.live + pool.lost && d != b ==> Apart(b, d))
  }

  lemma LiveIsReserved(pool: Pools.Pool, b: Block)
    requires pool.Valid() && b in pool.live
    ensures Reserved(pool, b)
  {
    assert b in pool.live + pool.lost;
    NotCoveredWhenApart(pool.free, b);
  }

  // ----- what a request holds does not change while it is mapped -----

  lemma MappedBefore(c: Config, s: System, m: Move, r: Req)
    requires Can(c, s, m)
    ensures r in s.p.books.returned ==> r in Do(c, s, m).p.books.returned
    ensures r in s.p.books.mapped ==> r in Do(c, s, m).p.books.mapped || r in Do(c, s, m).p.books.returned
  {
    if m.Proto? {
      BooksGrow(c, s.p, m.action, r);
    }
  }

  lemma BooksGrow(c: Config, p: State, a: Action, r: Req)
    requires Enabled(c, p, a)
    ensures r in p.books.returned ==> r in Next(c, p, a).books.returned
    ensures r in p.books.mapped ==> r in Next(c, p, a).books.mapped || r in Next(c, p, a).books.returned
  {
    if a.Host? {
      if p.host.Boot? { BootLends(c, p, a.event); } else { SubmitLends(c, p, a.event); }
    } else if a.Dsp? {
      assert DspDo(c, p, a.fails).books.mapped == p.books.mapped;
    }
  }

  lemma BootLends(c: Config, p: State, e: Event)
    requires p.host.Boot?
    ensures BootDo(c, p, e).books.mapped == p.books.mapped && BootDo(c, p, e).books.returned == p.books.returned
  {
    ProtocolAlways.BootBooks(c, p, e);
  }

  lemma SubmitLends(c: Config, p: State, e: Event)
    requires p.host.Submit?
    ensures SubmitDo(c, p, e).books.mapped == p.books.mapped && SubmitDo(c, p, e).books.returned == p.books.returned
  {
  }

  lemma MoveKeepsLent(c: Config, s: System, m: Move, r: Req, b: Block)
    requires Can(c, s, m) && r in s.p.books.mapped
    ensures (Lent(r), b) in s.held <==> (Lent(r), b) in Do(c, s, m).held
  {
  }

  lemma StillMappedAt(c: Config, states: seq<System>, moves: seq<Move>, k: nat, r: Req)
    requires IsRun(c, states, moves) && k < |moves|
    ensures r in states[k].p.books.returned ==> r in states[k + 1].p.books.returned
    ensures r in states[k].p.books.mapped ==> r in states[k + 1].p.books.mapped || r in states[k + 1].p.books.returned
    ensures !(r in states[k].p.books.mapped && r in states[k].p.books.returned)
  {
    RunValid(c, states, moves, k);
    MappedBefore(c, states[k], moves[k], r);
  }

  lemma KeepsLentAt(c: Config, states: seq<System>, moves: seq<Move>, k: nat, r: Req, b: Block)
    requires IsRun(c, states, moves) && k < |moves| && r in states[k].p.books.mapped
    ensures (Lent(r), b) in states[k].held <==> (Lent(r), b) in states[k + 1].held
  {
    MoveKeepsLent(c, states[k], moves[k], r, b);
  }

  lemma Disjoint(c: Config, states: seq<System>, moves: seq<Move>, k: nat)
    requires IsRun(c, states, moves) && k <= |moves|
    ensures states[k].p.books.mapped !! states[k].p.books.returned
  {
    RunValid(c, states, moves, k);
  }

  lemma AbandonedAt(c: Config, states: seq<System>, moves: seq<Move>, k: nat, r: Req)
    requires IsRun(c, states, moves) && k < |moves| && ProtocolAlways.Abandoned(states[k].p, r)
    ensures ProtocolAlways.Abandoned(states[k + 1].p, r)
  {
    RunValid(c, states, moves, k);
    AbandonedMove(c, states[k], moves[k], r);
  }

  lemma AbandonedMove(c: Config, s: System, m: Move, r: Req)
    requires ProtocolAlways.Basic(s.p) && Can(c, s, m) && ProtocolAlways.Abandoned(s.p, r)
    ensures ProtocolAlways.Abandoned(Do(c, s, m).p, r)
  {
    if m.Proto? {
      ProtocolAlways.AbandonedStep(c, s.p, m.action, r);
    }
  }

  lemma {:induction false} StillMapped(c: Config, states: seq<System>, moves: seq<Move>, i: nat, j: nat, r: Req)
    requires IsRun(c, states, moves) && i <= j <= |moves| && r in states[i].p.books.mapped
    ensures r in states[j].p.books.mapped || r in states[j].p.books.returned
    decreases j
  {
    if i < j {
      StillMapped(c, states, moves, i, j - 1, r);
      StillMappedAt(c, states, moves, j - 1, r);
    }
  }

  /** From the moment a request is mapped until its memory is returned, it holds the same
      allocations. */
  lemma {:induction false} LentUntilReturned(c: Config, states: seq<System>, moves: seq<Move>, i: nat, j: nat,
        r: Req, b: Block)
    requires IsRun(c, states, moves) && i <= j <= |moves|
    requires r in states[i].p.books.mapped && r in states[j].p.books.mapped
    ensures (Lent(r), b) in states[i].held <==> (Lent(r), b) in states[j].held
    decreases j
  {
    if i < j {
      StillMapped(c, states, moves, i, j - 1, r);
      StillMappedAt(c, states, moves, j - 1, r);
      Disjoint(c, states, moves, j);
      LentUntilReturned(c, states, moves, i, j - 1, r, b);
      KeepsLentAt(c, states, moves, j - 1, r, b);
    }
  }

  lemma {:induction false} StillAbandoned(c: Config, states: seq<System>, moves: seq<Move>, i: nat, j: nat, r: Req)
    requires IsRun(c, states, moves) && i <= j <= |moves| && ProtocolAlways.Abandoned(states[i].p, r)
    ensures ProtocolAlways.Abandoned(states[j].p, r)
    decreases j
  {
    if i < j {
      StillAbandoned(c, states, moves, i, j - 1, r);
      AbandonedAt(c, states, moves, j - 1, r);
    }
  }

  /** The memory of a request abandoned when resynchronisation failed is never free again,
      and no later allocation overlaps it. */
  lemma AbandonedNeverReused(c: Config, states: seq<System>, moves: seq<Move>, i: nat, j: nat, r: Req, b: Block)
    requires IsRun(c, states, moves) && i <= j <= |moves|
    requires ProtocolAlways.Abandoned(states[i].p, r) && (Lent(r), b) in states[i].held
    ensures Reserved(states[j].pool, b)
  {
    StillAbandoned(c, states, moves, i, j, r);
    LentUntilReturned(c, states, moves, i, j, r, b);
    RunValid(c, states, moves, j);
    LiveIsReserved(states[j].pool, b);
  }

  // ----- what follows when no request is left early -----

  /** In every run in which no request is left early, the blocks that a request was given when it was mapped
      are still reserved for it whenever the DSP uses the request. */
  lemma UsedMemoryReserved(c: Config, states: seq<System>, moves: seq<Move>, i: nat, j: nat, r: Req, b: Block)
    requires Kept(c) && IsRun(c, states, moves) && i <= j <= |moves|
    requires r in states[i].p.books.mapped && (Lent(r), b) in states[i].held
    requires Uses(states[j].p, r)
    ensures Reserved(states[j].pool, b) && (Lent(r), b) in states[j].held
  {
    RunInv(c, states, moves, j);
    InvGood(c, states[j].p);
    LentUntilReturned(c, states, moves, i, j, r, b);
    RunValid(c, states, moves, j);
    LiveIsReserved(states[j].pool, b);
  }

  /** In every run in which no request is left early, a block lent to a request is given back,
      whoever has it now, only if the DSP completed the request, never saw it, or was reset. */
  lemma GivenBackOnlyWhenDone(c: Config, states: seq<System>, moves: seq<Move>, i: nat, j: nat, r: Req, b: Block)
    requires Kept(c) && IsRun(c, states, moves) && i <= j <= |moves|
    requires r in states[i].p.books.mapped && (Lent(r), b) in states[i].held
    requires (Lent(r), b) !in states[j].held
    ensures var k := states[j].p.books; r !in k.accepted || r in k.completed || r in k.flushed
  {
    StillMapped(c, states, moves, i, j, r);
    if r in states[j].p.books.mapped {
      LentUntilReturned(c, states, moves, i, j, r, b);
      assert false;
    }
    RunInv(c, states, moves, j);
    InvGood(c, states[j].p);
  }
}
