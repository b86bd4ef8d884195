/** The DSP's table of command namespaces: a growable array sorted by identifier, searched by
    bisection. */
module Namespaces {
  import opened Bits
  import Comm

  const ID_SIZE: nat := Comm.NAMESPACE_ID_SIZE

  type Id = s: seq<Byte> | |s| == ID_SIZE witness seq(ID_SIZE, _ => 0)

  /** A handler and its context, by reference. */
  type Handler = nat

  datatype Entry = Entry(id: Id, handler: Handler)

  // ----- memcmp -----

  /** `memcmp` from byte `i` on: the difference of the first pair of bytes that differ. */
  function CompareFrom(a: Id, b: Id, i: nat): int
    requires i <= ID_SIZE
    decreases ID_SIZE - i
  {
    if i == ID_SIZE then 0
    else if a[i] != b[i] then (a[i] as int) - (b[i] as int)
    else CompareFrom(a, b, i + 1)
  }

  function Compare(a: Id, b: Id): int {
    CompareFrom(a, b, 0)
  }

  predicate Below(a: Id, b: Id) { Compare(a, b) < 0 }

  /** The comparison finds the first difference, if there is one. */
  lemma {:induction false} FirstDifference(a: Id, b: Id, i: nat)
    requires i <= ID_SIZE
    ensures CompareFrom(a, b, i) == 0 <==> a[i..] == b[i..]
    ensures CompareFrom(a, b, i) != 0 ==>
      exists k :: i <= k < ID_SIZE && a[i..k] == b[i..k] && CompareFrom(a, b, i) == (a[k] as int) - (b[k] as int)
    decreases ID_SIZE - i
  {
    if i < ID_SIZE {
      FirstDifference(a, b, i + 1);
      if a[i] == b[i] {
        assert a[i..] == [a[i]] + a[i + 1..] && b[i..] == [b[i]] + b[i + 1..];
        if CompareFrom(a, b, i) != 0 {
          var k :| i + 1 <= k < ID_SIZE && a[i + 1..k] == b[i + 1..k] &&
            CompareFrom(a, b, i) == (a[k] as int) - (b[k] as int);
          assert a[i..k] == [a[i]] + a[i + 1..k] && b[i..k] == [b[i]] + b[i + 1..k];
        }
      } else {
        assert a[i..][0] != b[i..][0];
        assert a[i..i] == b[i..i];
      }
    }
  }

  lemma {:induction false} CompareFlips(a: Id, b: Id, i: nat)
    requires i <= ID_SIZE
    ensures CompareFrom(a, b, i) == -CompareFrom(b, a, i)
    decreases ID_SIZE - i
  {
    if i < ID_SIZE { CompareFlips(a, b, i + 1); }
  }

  lemma {:induction false} CompareChains(a: Id, b: Id, c: Id, i: nat)
    requires i <= ID_SIZE && CompareFrom(a, b, i) < 0 && CompareFrom(b, c, i) < 0
    ensures CompareFrom(a, c, i) < 0
    decreases ID_SIZE - i
  {
    if a[i] == b[i] && b[i] == c[i] { CompareChains(a, b, c, i + 1); }
  }

  /** `memcmp` orders identifiers totally. */
  lemma OrderPair(a: Id, b: Id)
    ensures Compare(a, b) == 0 <==> a == b
    ensures Compare(a, b) == -Compare(b, a)
  {
    FirstDifference(a, b, 0);
    assert a[0..] == a && b[0..] == b;
    CompareFlips(a, b, 0);
  }

  lemma OrderChain(a: Id, b: Id, c: Id)
    requires Below(a, b) && (Below(b, c) || b == c)
    ensures Below(a, c)
  {
    if Below(b, c) {
      CompareChains(a, b, c, 0);
    }
  }

  // ----- tables as values -----

  ghost predicate Sorted(s: seq<Entry>) {
    forall i, j :: 0 <= i < j < |s| ==> Below(s[i].id, s[j].id)
  }

  /** `s` lists the finite map `m`. */
  ghost predicate Lists(s: seq<Entry>, m: map<Id, Handler>) {
    && (forall i :: 0 <= i < |s| ==> s[i].id in m && m[s[i].id] == s[i].handler)
    && (forall id :: id in m ==> exists i :: 0 <= i < |s| && s[i].id == id)
  }

  /** `p` is where `id` is, or where it would have to be inserted. */
  ghost predicate IsPlace(s: seq<Entry>, id: Id, p: nat) {
    && p <= |s|
    && (forall i :: 0 <= i < p ==> Below(s[i].id, id))
    && (forall i :: p <= i < |s| ==> !Below(s[i].id, id))
  }

  /** The place holds `id` exactly when the map has it. */
  lemma PlaceDecides(s: seq<Entry>, m: map<Id, Handler>, id: Id, p: nat)
    requires Sorted(s) && Lists(s, m) && IsPlace(s, id, p)
    ensures id in m <==> p < |s| && s[p].id == id
    ensures id in m ==> m[id] == s[p].handler
  {
    OrderPair(id, id);
    if id in m {
      var i :| 0 <= i < |s| && s[i].id == id;
      OnlyAtThePlace(s, id, p, i);
    }
  }

  lemma OnlyAtThePlace(s: seq<Entry>, id: Id, p: nat, i: nat)
    requires Sorted(s) && IsPlace(s, id, p) && i < |s| && s[i].id == id
    ensures i == p
  {
    OrderPair(id, id);
    var there := if p < |s| then s[p].id else id;
    assert p < |s| ==> !Below(there, id);
  }

  lemma AboveThePlace(s: seq<Entry>, m: map<Id, Handler>, id: Id, p: nat)
    requires Lists(s, m) && IsPlace(s, id, p) && id !in m
    ensures forall i :: p <= i < |s| ==> Below(id, s[i].id)
  {
    forall i | p <= i < |s| ensures Below(id, s[i].id) {
      OrderPair(id, s[i].id);
    }
  }

  lemma InsertSorted(s: seq<Entry>, m: map<Id, Handler>, e: Entry, p: nat)
    requires Sorted(s) && Lists(s, m) && IsPlace(s, e.id, p) && e.id !in m
    ensures Sorted(s[..p] + [e] + s[p..]) && Lists(s[..p] + [e] + s[p..], m[e.id := e.handler])
  {
    AboveThePlace(s, m, e.id, p);
    InsertLists(s, m, e, p);
  }

  lemma InsertLists(s: seq<Entry>, m: map<Id, Handler>, e: Entry, p: nat)
    requires Lists(s, m) && p <= |s| && e.id !in m
    ensures Lists(s[..p] + [e] + s[p..], m[e.id := e.handler])
  {
    var t := s[..p] + [e] + s[p..];
    var m' := m[e.id := e.handler];
    forall id | id in m' ensures exists i :: 0 <= i < |t| && t[i].id == id {
      if id == e.id {
        assert t[p].id == id;
      } else {
        var i :| 0 <= i < |s| && s[i].id == id;
        assert t[if i < p then i else i + 1].id == id;
      }
    }
  }

  lemma RemoveSorted(s: seq<Entry>, m: map<Id, Handler>, p: nat)
    requires Sorted(s) && Lists(s, m) && p < |s|
    ensures Sorted(s[..p] + s[p + 1..]) && Lists(s[..p] + s[p + 1..], m - {s[p].id})
  {
    OrderPair(s[p].id, s[p].id);
    RemoveLists(s, m, p);
  }

  lemma RemoveLists(s: seq<Entry>, m: map<Id, Handler>, p: nat)
    requires Lists(s, m) && p < |s|
    requires forall i :: 0 <= i < |s| && i != p ==> s[i].id != s[p].id
    ensures Lists(s[..p] + s[p + 1..], m - {s[p].id})
  {
    var t := s[..p] + s[p + 1..];
    forall id | id in m - {s[p].id} ensures exists i :: 0 <= i < |t| && t[i].id == id {
      var i :| 0 <= i < |s| && s[i].id == id;
      assert t[if i < p then i else i - 1].id == id;
    }
  }

  /** A place from the two ends of the bisection. */
  lemma PlaceFromBounds(s: seq<Entry>, id: Id, a: nat, p: nat)
    requires Sorted(s) && a < |s| && !Below(id, s[a].id)
    requires p == if Compare(id, s[a].id) > 0 then a + 1 else a
    requires forall i :: a < i < |s| ==> Below(id, s[i].id)
    ensures IsPlace(s, id, p)
  {
    OrderPair(id, s[a].id);
    forall i | 0 <= i < p ensures Below(s[i].id, id) {
      if i < a { OrderChain(s[i].id, s[a].id, id); }
    }
    forall i | p <= i < |s| ensures !Below(s[i].id, id) {
      OrderPair(id, s[i].id);
    }
  }

  lemma LowestPlace(s: seq<Entry>, id: Id)
    requires forall i :: 0 <= i < |s| ==> Below(id, s[i].id)
    ensures IsPlace(s, id, 0)
  {
    forall i | 0 <= i < |s| ensures !Below(s[i].id, id) {
      OrderPair(id, s[i].id);
    }
  }

  /** Every entry from `c` on lies above `id` when entry `c` does. */
  lemma AboveFrom(s: seq<Entry>, id: Id, c: nat)
    requires Sorted(s) && c < |s| && Below(id, s[c].id)
    ensures forall i :: c <= i < |s| ==> Below(id, s[i].id)
  {
    forall i | c < i < |s| ensures Below(id, s[i].id) {
      OrderChain(id, s[c].id, s[i].id);
    }
  }

  // ----- the device -----

  /** What dispatch finds for an identifier. */
  datatype Found = Reject | Call(handler: Handler)

  class Device {
    var cmdNs: array<Entry>
    var n: nat
    ghost var table: map<Id, Handler>

    ghost predicate Valid()
      reads this, cmdNs
    {
      n <= cmdNs.Length && Sorted(cmdNs[..n]) && Lists(cmdNs[..n], table)
    }

    constructor ()
      ensures Valid() && table == map[] && n == 0 && fresh(cmdNs)
    {
      cmdNs := new Entry[0];
      n := 0;
      table := map[];
    }

    /** Bisection to the place of `id`. */
    method Find(id: Id) returns (p: nat)
      requires Valid()
      ensures IsPlace(cmdNs[..n], id, p)
    {
      ghost var s := cmdNs[..n];
      var a, b := 0, n;
      while b - a > 1
        invariant a <= b <= n && (n > 0 ==> a < b)
        invariant a > 0 ==> !Below(id, s[a].id)
        invariant forall i :: b <= i < n ==> Below(id, s[i].id)
        decreases b - a
      {
        var c := (a + b) / 2;
        if Compare(id, cmdNs[c].id) < 0 {
          AboveFrom(s, id, c);
          b := c;
        } else {
          a := c;
        }
      }
      p := a;
      if a < b && Compare(id, cmdNs[a].id) > 0 {
        p := p + 1;
      }
      if n > 0 {
        if a == 0 && Below(id, s[0].id) {
          AboveFrom(s, id, 0);
          LowestPlace(s, id);
        } else {
          PlaceFromBounds(s, id, a, p);
        }
      }
    }

    /** Registers a handler. `grows` says whether `realloc` succeeds. */
    method Register(id: Id, handler: Handler, grows: bool) returns (ok: bool)
      requires Valid()
      modifies this, cmdNs
      ensures Valid()
      ensures ok <==> id !in old(table) && (old(n) < old(cmdNs.Length) || grows)
      ensures table == if ok then old(table)[id := handler] else old(table)
      ensures n == old(n) + (if ok then 1 else 0)
      ensures cmdNs == old(cmdNs) || fresh(cmdNs)
    {
      var p := Find(id);
      PlaceDecides(cmdNs[..n], table, id, p);
      var present := Matches(id, p);
      if present {
        return false;
      }
      if n == cmdNs.Length && !grows {
        return false;
      }
      InsertSorted(cmdNs[..n], table, Entry(id, handler), p);
      assert cmdNs[..n][..p] == cmdNs[..p] && cmdNs[..n][p..] == cmdNs[p..n];
      Insert(p, Entry(id, handler));
      table := table[id := handler];
      ok := true;
    }

    /** `cmd_ns_present` and `cmd_ns_match`. */
    method Matches(id: Id, p: nat) returns (yes: bool)
      requires n <= cmdNs.Length
      ensures yes <==> p < n && cmdNs[p].id == id
    {
      if p < n {
        OrderPair(id, cmdNs[p].id);
        return Compare(id, cmdNs[p].id) == 0;
      }
      return false;
    }

    /** Makes room at `p`, growing the array when it is full, and stores the entry. */
    method Insert(p: nat, e: Entry)
      requires p <= n <= cmdNs.Length
      modifies this`cmdNs, this`n, cmdNs
      ensures n == old(n) + 1 <= cmdNs.Length
      ensures cmdNs[..n] == old(cmdNs[..p]) + [e] + old(cmdNs[p..n])
      ensures cmdNs == old(cmdNs) || fresh(cmdNs)
    {
      if n == cmdNs.Length {
        Grow();
      }
      forall i | p < i <= n {
        cmdNs[i] := cmdNs[i - 1];
      }
      n := n + 1;
      cmdNs[p] := e;
    }

    method Grow()
      requires n == cmdNs.Length
      modifies this`cmdNs
      ensures fresh(cmdNs) && cmdNs.Length == (n + 1) * 2 && cmdNs[..n] == old(cmdNs[..n])
    {
      var larger := new Entry[(n + 1) * 2];
      forall i | 0 <= i < n {
        larger[i] := cmdNs[i];
      }
      cmdNs := larger;
    }

    method Unregister(id: Id) returns (ok: bool)
      requires Valid()
      modifies this`n, this`table, cmdNs
      ensures Valid()
      ensures ok <==> id in old(table)
      ensures table == old(table) - {id}
      ensures ok ==> 0 < old(n) && n == old(n) - 1 && cmdNs[n] == old(cmdNs[n - 1])
    {
      var p := Find(id);
      PlaceDecides(cmdNs[..n], table, id, p);
      ok := Matches(id, p);
      if ok {
        RemoveSorted(cmdNs[..n], table, p);
        Remove(p);
        table := table - {id};
      }
    }

    method Remove(p: nat)
      requires p < n <= cmdNs.Length
      modifies this`n, cmdNs
      ensures n == old(n) - 1
      ensures cmdNs[..n] == old(cmdNs[..n][..p] + cmdNs[..n][p + 1..])
      ensures cmdNs[n] == old(cmdNs[n - 1])
    {
      forall i | p <= i < n - 1 {
        cmdNs[i] := cmdNs[i + 1];
      }
      n := n - 1;
    }

    /** The slot that dispatch compares when the search ends at `p`: it does not ask whether
        `p` is inside the live prefix. `beyond` is whatever lies behind the array. */
    function Slot(p: nat, beyond: Entry): Entry
      reads this, cmdNs
    {
      if p < cmdNs.Length then cmdNs[p] else beyond
    }

    /** Looks up the handler for a command. A registered identifier gets its handler. An
        unregistered one is refused, unless it lies above all registered ones and the slot
        behind them still shows it. */
    method Dispatch(id: Id, beyond: Entry) returns (r: Found)
      requires Valid()
      ensures id in table ==> r == Call(table[id])
      ensures id !in table ==>
        (r.Call? <==> cmdNs.Length > 0 && IsPlace(cmdNs[..n], id, n) && Slot(n, beyond).id == id)
      ensures id !in table && r.Call? ==> r.handler == Slot(n, beyond).handler
    {
      var p := Find(id);
      PlaceDecides(cmdNs[..n], table, id, p);
      PlaceUnique(cmdNs[..n], id, p, n);
      if cmdNs.Length == 0 {
        return Reject;
      }
      var slot := Slot(p, beyond);
      OrderPair(id, slot.id);
      if Compare(id, slot.id) == 0 {
        return Call(slot.handler);
      }
      return Reject;
    }
  }

  lemma PlaceUnique(s: seq<Entry>, id: Id, p: nat, q: nat)
    requires IsPlace(s, id, p)
    ensures IsPlace(s, id, q) ==> p == q
  {
    var low := if p < q then p else q;
    assert low < |s| ==> Below(s[low].id, id) == (low < p);
  }

  /** A handler is still called after its namespace was unregistered. */
  method StaleHandlerCalled(id: Id, handler: Handler, beyond: Entry) returns (unregistered: bool, r: Found)
    ensures unregistered && r == Call(handler)
  {
    var d := new Device();
    var ok := d.Register(id, handler, true);
    assert d.cmdNs[..d.n][0].id in d.table;
    assert d.cmdNs[0] == Entry(id, handler);
    unregistered := d.Unregister(id);
    assert d.n == 0 && d.cmdNs[0] == Entry(id, handler);
    assert IsPlace(d.cmdNs[..d.n], id, d.n);
    assert id !in d.table && d.Slot(d.n, beyond) == Entry(id, handler);
    r := d.Dispatch(id, beyond);
  }
}
