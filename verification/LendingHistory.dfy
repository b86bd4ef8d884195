/** Who holds a block, told by the moves of the run alone: the allocations, shares and drops. */
module LendingHistory {
  import opened FreeLists
  import opened Histories
  import opened Lending
  import opened Protocol

  /** Move `m` from `s` to `t` gives block `b` to holder `h`: by sharing it, or by an allocation
      that makes it live. */
  ghost predicate Gives(s: System, m: Move, t: System, h: Holder, b: Block) {
    m == Share(h, b) || (m.Obtain? && m.holder == h && b in t.pool.live && b !in s.pool.live)
  }

  /** No move from `k` on and before `j` drops the reference. */
  ghost predicate NotDropped(moves: seq<Move>, k: nat, j: nat, h: Holder, b: Block) {
    forall l {:trigger moves[l]} :: k <= l < j && l < |moves| ==> moves[l] != Drop(h, b)
  }

  lemma HeldStep(c: Config, s: System, m: Move, h: Holder, b: Block)
    requires Can(c, s, m)
    ensures (h, b) in Do(c, s, m).held <==>
      Gives(s, m, Do(c, s, m), h, b) || ((h, b) in s.held && m != Drop(h, b))
  {
  }

  /** Before `j` the reference was given and not dropped since. */
  ghost predicate GivenBefore(states: seq<System>, moves: seq<Move>, j: nat, h: Holder, b: Block)
    requires |states| == |moves| + 1
  {
    exists k: nat ::
      k < j && k < |moves| && Gives(states[k], moves[k], states[k + 1], h, b) && NotDropped(moves, k + 1, j, h, b)
  }

  ghost function HeldAt(states: seq<System>, h: Holder, b: Block): (r: seq<bool>)
    ensures |r| == |states| && forall k :: 0 <= k < |states| ==> r[k] == ((h, b) in states[k].held)
  {
    seq(|states|, k requires 0 <= k < |states| => (h, b) in states[k].held)
  }

  ghost function GivenAt(states: seq<System>, moves: seq<Move>, h: Holder, b: Block): (r: seq<bool>)
    requires |states| == |moves| + 1
    ensures |r| == |moves| && forall k :: 0 <= k < |moves| ==> r[k] == Gives(states[k], moves[k], states[k + 1], h, b)
  {
    seq(|moves|, k requires 0 <= k < |moves| => Gives(states[k], moves[k], states[k + 1], h, b))
  }

  ghost function DroppedAt(moves: seq<Move>, h: Holder, b: Block): (r: seq<bool>)
    ensures |r| == |moves| && forall k :: 0 <= k < |moves| ==> r[k] == (moves[k] == Drop(h, b))
  {
    seq(|moves|, k requires 0 <= k < |moves| => moves[k] == Drop(h, b))
  }

  lemma HeldSwitched(c: Config, states: seq<System>, moves: seq<Move>, h: Holder, b: Block)
    requires Lending.IsRun(c, states, moves)
    ensures Switched(HeldAt(states, h, b), GivenAt(states, moves, h, b), DroppedAt(moves, h, b))
  {
    var held, on, off := HeldAt(states, h, b), GivenAt(states, moves, h, b), DroppedAt(moves, h, b);
    forall i | 0 <= i < |moves| ensures held[i + 1] == (on[i] || (held[i] && !off[i])) {
      HeldStep(c, states[i], moves[i], h, b);
    }
  }

  lemma SameDrops(moves: seq<Move>, k: nat, j: nat, h: Holder, b: Block)
    ensures NotDropped(moves, k, j, h, b) <==> Undisturbed(DroppedAt(moves, h, b), k, j)
  {
  }

  lemma SameGiven(states: seq<System>, moves: seq<Move>, j: nat, h: Holder, b: Block)
    requires |states| == |moves| + 1
    ensures GivenBefore(states, moves, j, h, b) <==> Given(GivenAt(states, moves, h, b), DroppedAt(moves, h, b), j)
  {
    var on, off := GivenAt(states, moves, h, b), DroppedAt(moves, h, b);
    if GivenBefore(states, moves, j, h, b) {
      var k: nat :| k < j && k < |moves| && Gives(states[k], moves[k], states[k + 1], h, b)
        && NotDropped(moves, k + 1, j, h, b);
      SameDrops(moves, k + 1, j, h, b);
      assert OnSince(on, off, k, j);
    }
    if Given(on, off, j) {
      var k: nat :| OnSince(on, off, k, j);
      SameDrops(moves, k + 1, j, h, b);
    }
  }

  /** In every run a holder has a reference to a block exactly when it had it from the start or was
      given it, and has not dropped it since. */
  lemma HeldIff(c: Config, states: seq<System>, moves: seq<Move>, j: nat, h: Holder, b: Block)
    requires Lending.IsRun(c, states, moves) && j <= |moves|
    ensures (h, b) in states[j].held <==>
      ((h, b) in states[0].held && NotDropped(moves, 0, j, h, b)) || GivenBefore(states, moves, j, h, b)
  {
    HeldSwitched(c, states, moves, h, b);
    Since(HeldAt(states, h, b), GivenAt(states, moves, h, b), DroppedAt(moves, h, b), j);
    SameDrops(moves, 0, j, h, b);
    SameGiven(states, moves, j, h, b);
  }

  /** A block that was shared with, or allocated for, a holder stays reserved until the holder
      drops it, whatever the others do. */
  lemma GivenStaysReserved(c: Config, states: seq<System>, moves: seq<Move>, k: nat, j: nat, h: Holder, b: Block)
    requires Lending.IsRun(c, states, moves) && k < j <= |moves|
    requires Gives(states[k], moves[k], states[k + 1], h, b) && NotDropped(moves, k + 1, j, h, b)
    ensures (h, b) in states[j].held && Reserved(states[j].pool, b)
  {
    assert GivenBefore(states, moves, j, h, b);
    HeldIff(c, states, moves, j, h, b);
    RunValid(c, states, moves, j);
    LiveIsReserved(states[j].pool, b);
  }

  /** A block goes back to the pool exactly when its last reference ends. */
  lemma LiveIffHeld(c: Config, states: seq<System>, moves: seq<Move>, j: nat, b: Block)
    requires Lending.IsRun(c, states, moves) && j <= |moves|
    ensures b in states[j].pool.live <==> exists h :: (h, b) in states[j].held
  {
    RunValid(c, states, moves, j);
  }

  /** When no request is left early: a block given to a request before it was mapped, and not
      dropped before that, is reserved whenever the DSP uses the request. */
  lemma GivenBlockInUse(
      c: Config, states: seq<System>, moves: seq<Move>, k: nat, m: nat, j: nat, r: Req, ns: bool, b: Block)
    requires Kept(c) && Lending.IsRun(c, states, moves) && k < m < j <= |moves|
    requires Gives(states[k], moves[k], states[k + 1], Lent(r), b) && NotDropped(moves, k + 1, m, Lent(r), b)
    requires moves[m] == Proto(Map(r, ns)) && Uses(states[j].p, r)
    ensures (Lent(r), b) in states[j].held && Reserved(states[j].pool, b)
  {
    GivenStaysReserved(c, states, moves, k, m, Lent(r), b);
    assert states[m + 1] == Do(c, states[m], moves[m]);
    UsedMemoryReserved(c, states, moves, m + 1, j, r, b);
  }
}
