/** What holds since when, over finite histories. */
module Histories {

  /** `held` is switched on by the steps in `on` and off by the steps in `off`. */
  ghost predicate Switched(held: seq<bool>, on: seq<bool>, off: seq<bool>) {
    && |on| == |off| && |held| == |on| + 1
    && forall i {:trigger on[i]} {:trigger held[i + 1]} :: 0 <= i < |on| ==>
         held[i + 1] == (on[i] || (held[i] && !off[i]))
  }

  /** No step from `k` on and before `j` switches off. */
  ghost predicate Undisturbed(off: seq<bool>, k: nat, j: nat) {
    forall l :: k <= l < j && l < |off| ==> !off[l]
  }

  ghost predicate OnSince(on: seq<bool>, off: seq<bool>, k: nat, j: nat)
    requires |on| == |off|
  {
    k < j && k < |on| && on[k] && Undisturbed(off, k + 1, j)
  }

  ghost predicate Given(on: seq<bool>, off: seq<bool>, j: nat)
    requires |on| == |off|
  {
    exists k: nat :: OnSince(on, off, k, j)
  }

  /** It holds at `j` exactly when it held at the start, or was switched on by some step, and has
      not been switched off since. */
  lemma {:induction false} Since(held: seq<bool>, on: seq<bool>, off: seq<bool>, j: nat)
    requires Switched(held, on, off) && j < |held|
    ensures held[j] <==> (held[0] && Undisturbed(off, 0, j)) || Given(on, off, j)
    decreases j
  {
    if j > 0 {
      var i := j - 1;
      Since(held, on, off, i);
      assert held[i + 1] == (on[i] || (held[i] && !off[i]));
      LastStep(on, off, i);
    }
  }

  lemma LastStep(on: seq<bool>, off: seq<bool>, i: nat)
    requires |on| == |off| && i < |on|
    ensures Undisturbed(off, 0, i + 1) <==> Undisturbed(off, 0, i) && !off[i]
    ensures Given(on, off, i + 1) <==> on[i] || (Given(on, off, i) && !off[i])
  {
    if on[i] {
      assert OnSince(on, off, i, i + 1);
    } else if Given(on, off, i + 1) {
      var k: nat :| OnSince(on, off, k, i + 1);
      assert OnSince(on, off, k, i);
    }
    if Given(on, off, i) && !off[i] {
      var k: nat :| OnSince(on, off, k, i);
      assert OnSince(on, off, k, i + 1);
    }
  }

  /** Without steps that switch off: exactly when it held at the start or some step switched it
      on. */
  lemma Ever(held: seq<bool>, on: seq<bool>, j: nat)
    requires |held| == |on| + 1 && j < |held|
    requires forall i {:trigger on[i]} {:trigger held[i + 1]} :: 0 <= i < |on| ==> held[i + 1] == (on[i] || held[i])
    ensures held[j] <==> held[0] || exists k: nat :: k < j && on[k]
  {
    var off := seq(|on|, _ => false);
    Since(held, on, off, j);
    forall k: nat | k < j && on[k] ensures OnSince(on, off, k, j) {}
  }

  /** How many of the first `j` steps are in `on`. */
  ghost function CountOn(on: seq<bool>, j: nat): nat
    requires j <= |on|
  {
    if j == 0 then 0 else CountOn(on, j - 1) + if on[j - 1] then 1 else 0
  }

  /** A number that each step in `on` raises by one counts them. */
  lemma {:induction false} Counted(n: seq<nat>, on: seq<bool>, j: nat)
    requires |n| == |on| + 1 && j <= |on|
    requires forall i {:trigger on[i]} :: 0 <= i < |on| ==> n[i + 1] == n[i] + if on[i] then 1 else 0
    ensures n[j] == n[0] + CountOn(on, j)
    decreases j
  {
    if j > 0 {
      Counted(n, on, j - 1);
      assert n[(j - 1) + 1] == n[j - 1] + if on[j - 1] then 1 else 0;
    }
  }
}
