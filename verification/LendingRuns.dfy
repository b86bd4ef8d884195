/** When the memory that the DSP uses is reserved: exactly when no request is left early. */
module LendingRuns {
  import opened Bits
  import opened FreeLists
  import opened Lending
  import opened Protocol
  import Pools
  import ProtocolRuns

  /** At `j` the DSP uses request `r`, which was given block `b` at `i`. */
  ghost predicate UsedLater(c: Config, states: seq<System>, moves: seq<Move>, i: nat, j: nat, r: Req, b: Block) {
    && Lending.IsRun(c, states, moves) && i <= j <= |moves|
    && r in states[i].p.books.mapped && (Lent(r), b) in states[i].held && Uses(states[j].p, r)
  }

  /** In every run, blocks that the DSP uses are reserved. */
  ghost predicate UsesReserved(c: Config) {
    forall states: seq<System>, moves: seq<Move>, i: nat, j: nat, r: Req, b: Block ::
      UsedLater(c, states, moves, i, j, r, b) ==> Reserved(states[j].pool, b)
  }

  /** At `j` request `r` no longer holds block `b`, which it was given at `i`. */
  ghost predicate GivenBack(c: Config, states: seq<System>, moves: seq<Move>, i: nat, j: nat, r: Req, b: Block) {
    && Lending.IsRun(c, states, moves) && i <= j <= |moves|
    && r in states[i].p.books.mapped && (Lent(r), b) in states[i].held && (Lent(r), b) !in states[j].held
  }

  /** The DSP completed the request, never saw it, or was reset. */
  predicate Done(k: Books, r: Req) { r !in k.accepted || r in k.completed || r in k.flushed }

  /** In every run, blocks are given back only when the DSP is done with the request. */
  ghost predicate GivesBackDone(c: Config) {
    forall states: seq<System>, moves: seq<Move>, i: nat, j: nat, r: Req, b: Block ::
      GivenBack(c, states, moves, i, j, r, b) ==> Done(states[j].p.books, r)
  }

  // ----- a run that frees a block in use -----

  const PAGE: Block := Block(4096, 4096)

  function OnePage(): Pools.Pool { Pools.Initial(4096, 4096) }

  function PageOut(): Pools.Pool { Pools.Pool(4096, 8192, [], {PAGE}, {}) }

  function ForRequest(): Move { Obtain(Lent(0), 4096, 0, 2) }

  lemma PageIsGiven(c: Config, p: State)
    requires Init(p)
    ensures Valid(System(p, OnePage(), {})) && Can(c, System(p, OnePage(), {}), ForRequest())
    ensures Do(c, System(p, OnePage(), {}), ForRequest()) == System(p, PageOut(), {(Lent(0), PAGE)})
  {
    Pools.InitialValid(4096, 4096);
    PageRequest();
    var pool := Pools.Step(OnePage(), Pools.Alloc(4096, 0, 2));
    assert pool == PageOut();
    assert pool.live - OnePage().live == {PAGE};
  }

  lemma PageRequest()
    ensures !Pools.BadRequest(4096, 0) && Pools.Representable(4096, 0) && Pools.Words([PAGE])
    ensures Pools.Request([PAGE], 4096, 0) == Cut(PAGE, [])
  {
    Pools.PagePower();
    Pools.AlignCheck(4096, 0);
    Pools.SizeCheck(4096);
    assert Normal([PAGE], 4096, 8192);
    Pools.RepresentableExact([PAGE], 4096, 0, 4096, 8192);
    assert RoundUp(4096, Pools.PAGE_SIZE) == 4096;
    assert Fits([PAGE][0], 4096, 4096);
  }

  ghost function Lift(ps: seq<State>): (r: seq<System>)
    ensures |r| == |ps| && forall k :: 0 <= k < |ps| ==> r[k] == System(ps[k], PageOut(), {(Lent(0), PAGE)})
  {
    seq(|ps|, k requires 0 <= k < |ps| => System(ps[k], PageOut(), {(Lent(0), PAGE)}))
  }

  ghost function LiftMoves(acts: seq<Action>): (r: seq<Move>)
    ensures |r| == |acts| && forall k :: 0 <= k < |acts| ==> r[k] == Proto(acts[k])
  {
    seq(|acts|, k requires 0 <= k < |acts| => Proto(acts[k]))
  }

  /** A run of the protocol, with a page given to request 0 before it starts. */
  lemma LiftedRun(c: Config, ps: seq<State>, acts: seq<Action>)
    requires Protocol.IsRun(c, ps, acts)
    ensures Lending.IsRun(c, [System(ps[0], OnePage(), {})] + Lift(ps), [ForRequest()] + LiftMoves(acts))
  {
    var states, moves := [System(ps[0], OnePage(), {})] + Lift(ps), [ForRequest()] + LiftMoves(acts);
    PageIsGiven(c, ps[0]);
    forall i | 0 <= i < |moves| ensures Can(c, states[i], moves[i]) && states[i + 1] == Do(c, states[i], moves[i]) {
      LiftedAt(c, ps, acts, states, moves, i);
    }
  }

  lemma LiftedAt(
      c: Config, ps: seq<State>, acts: seq<Action>, states: seq<System>, moves: seq<Move>, i: nat)
    requires Protocol.IsRun(c, ps, acts) && i < |moves|
    requires states == [System(ps[0], OnePage(), {})] + Lift(ps) && moves == [ForRequest()] + LiftMoves(acts)
    ensures Can(c, states[i], moves[i]) && states[i + 1] == Do(c, states[i], moves[i])
  {
    if i == 0 {
      PageIsGiven(c, ps[0]);
      assert states[1] == Lift(ps)[0];
    } else {
      assert moves[i] == LiftMoves(acts)[i - 1] && states[i] == Lift(ps)[i - 1] && states[i + 1] == Lift(ps)[i];
      LiftedStep(c, ps, acts, i - 1);
    }
  }

  lemma LiftedStep(c: Config, ps: seq<State>, acts: seq<Action>, i: nat)
    requires Protocol.IsRun(c, ps, acts) && i < |acts|
    ensures Can(c, Lift(ps)[i], LiftMoves(acts)[i]) && Lift(ps)[i + 1] == Do(c, Lift(ps)[i], LiftMoves(acts)[i])
  {
    assert Enabled(c, ps[i], acts[i]) && ps[i + 1] == Next(c, ps[i], acts[i]);
  }

  lemma ExtendRun(c: Config, states: seq<System>, moves: seq<Move>, m: Move)
    requires Lending.IsRun(c, states, moves) && Can(c, states[|moves|], m)
    ensures Lending.IsRun(c, states + [Do(c, states[|moves|], m)], moves + [m])
  {
    var ss, ms := states + [Do(c, states[|moves|], m)], moves + [m];
    forall i | 0 <= i < |ms| ensures Can(c, ss[i], ms[i]) && ss[i + 1] == Do(c, ss[i], ms[i]) {
      if i < |moves| {
        assert ss[i] == states[i] && ms[i] == moves[i] && ss[i + 1] == states[i + 1];
      }
    }
  }

  lemma PageComesBack(c: Config, s: System)
    requires s.pool == PageOut() && s.held == {(Lent(0), PAGE)} && 0 !in s.p.books.mapped
    ensures Can(c, s, Drop(Lent(0), PAGE)) && !Reserved(Do(c, s, Drop(Lent(0), PAGE)).pool, PAGE)
    ensures Do(c, s, Drop(Lent(0), PAGE)).p == s.p && Do(c, s, Drop(Lent(0), PAGE)).held == {}
  {
    assert LastHolder(s.held, Lent(0), PAGE);
  }

  /** When a request can be left early, a block that the DSP is using is freed in some run. */
  lemma UsedBlockFreed(c: Config)
    requires !Kept(c)
    ensures !UsesReserved(c) && !GivesBackDone(c)
  {
    var t := ProtocolRuns.LeftRunning(c);
    var states, moves := GivenRun(c, t);
    var i, back := |moves|, Proto(Return(0));
    ExtendRun(c, states, moves, back);
    var u := Do(c, states[i], back);
    PageComesBack(c, u);
    assert (states + [u])[|moves + [back]|] == u;
    ExtendRun(c, states + [u], moves + [back], Drop(Lent(0), PAGE));
    FreedInUse(c, states, moves, u, back);
  }

  /** A run to `t` in which request 0 holds the page. */
  lemma GivenRun(c: Config, t: State) returns (states: seq<System>, moves: seq<Move>)
    requires Reachable(c, t)
    ensures Lending.IsRun(c, states, moves) && states[|moves|] == System(t, PageOut(), {(Lent(0), PAGE)})
  {
    var ps, acts :| Protocol.IsRun(c, ps, acts) && ps[|acts|] == t;
    LiftedRun(c, ps, acts);
    states, moves := [System(ps[0], OnePage(), {})] + Lift(ps), [ForRequest()] + LiftMoves(acts);
    assert states[|moves|] == Lift(ps)[|acts|];
  }

  lemma FreedInUse(c: Config, states: seq<System>, moves: seq<Move>, u: System, back: Move)
    requires |states| == |moves| + 1 && 0 in states[|moves|].p.books.mapped && (Lent(0), PAGE) in states[|moves|].held
    requires Can(c, u, Drop(Lent(0), PAGE))
    requires var v := Do(c, u, Drop(Lent(0), PAGE));
      && Lending.IsRun(c, states + [u] + [v], moves + [back] + [Drop(Lent(0), PAGE)])
      && Uses(v.p, 0) && !Reserved(v.pool, PAGE) && (Lent(0), PAGE) !in v.held && !Done(v.p.books, 0)
    ensures !UsesReserved(c) && !GivesBackDone(c)
  {
    var v := Do(c, u, Drop(Lent(0), PAGE));
    var i := |moves|;
    var ss, ms := states + [u] + [v], moves + [back] + [Drop(Lent(0), PAGE)];
    assert ss[i] == states[i] && ss[i + 2] == v;
    assert UsedLater(c, ss, ms, i, i + 2, 0, PAGE);
    assert GivenBack(c, ss, ms, i, i + 2, 0, PAGE);
  }

  /** Memory that the DSP uses is reserved in every run if and only if no request is left
      early. */
  lemma UsesReservedIff(c: Config)
    ensures UsesReserved(c) <==> Kept(c)
  {
    if Kept(c) {
      forall states: seq<System>, moves: seq<Move>, i: nat, j: nat, r: Req, b: Block
        | UsedLater(c, states, moves, i, j, r, b)
        ensures Reserved(states[j].pool, b)
      {
        UsedMemoryReserved(c, states, moves, i, j, r, b);
      }
    } else {
      UsedBlockFreed(c);
    }
  }

  /** Lent blocks are given back only when the DSP is done with the request, in every run, if and
      only if no request is left early. */
  lemma GivesBackDoneIff(c: Config)
    ensures GivesBackDone(c) <==> Kept(c)
  {
    if Kept(c) {
      forall states: seq<System>, moves: seq<Move>, i: nat, j: nat, r: Req, b: Block
        | GivenBack(c, states, moves, i, j, r, b)
        ensures Done(states[j].p.books, r)
      {
        GivenBackOnlyWhenDone(c, states, moves, i, j, r, b);
      }
    } else {
      UsedBlockFreed(c);
    }
  }
}
