/** Translation of host physical addresses to DSP addresses through a sorted table. */
module AddressMap {
  import opened Bits

  /** The answer for an address that no entry covers. */
  const NO_TRANSLATION: u32 := M - 1

  /** Host addresses may be wider than 32 bits. */
  datatype Entry = Entry(src: nat, dst: u32, size: u32) {
    function End(): nat { src + size }
    predicate Has(addr: nat) { src <= addr < End() }
  }

  // ----- the two comparisons -----

  /** The comparison that the table is sorted by. */
  function CompareSort(a: Entry, b: Entry): int {
    if a.src < b.src && b.src - a.src >= a.size then -1
    else if a.src > b.src && a.src - b.src >= b.size then 1
    else 0
  }

  /** The comparison that the table is searched by. */
  function CompareAddress(addr: nat, e: Entry): int {
    if addr < e.src then -1
    else if addr - e.src < e.size then 0
    else 1
  }

  ghost predicate Disjoint(es: seq<Entry>) {
    && (forall i :: 0 <= i < |es| ==> es[i].size > 0)
    && (forall i, j :: 0 <= i < j < |es| ==> es[i].End() <= es[j].src || es[j].End() <= es[i].src)
  }

  ghost predicate SortedByCompare(es: seq<Entry>) {
    forall i, j :: 0 <= i < j < |es| ==> CompareSort(es[i], es[j]) <= 0
  }

  ghost predicate Ascending(es: seq<Entry>) {
    forall i, j :: 0 <= i < j < |es| ==> es[i].End() <= es[j].src
  }

  /** Some entry of the table covers `addr`. */
  ghost predicate Mapped(es: seq<Entry>, addr: nat) {
    exists e :: e in es && e.Has(addr)
  }

  /** On disjoint entries the sort comparison is the address order. */
  lemma SortedAscends(es: seq<Entry>)
    requires Disjoint(es)
    ensures SortedByCompare(es) <==> Ascending(es)
  {
    forall i, j | 0 <= i < j < |es| ensures CompareSort(es[i], es[j]) <= 0 <==> es[i].End() <= es[j].src {
      assert es[i].size > 0 && es[j].size > 0;
    }
  }

  /** Sorting keeps entries disjoint. */
  lemma {:induction false} PermutationDisjoint(es: seq<Entry>, fs: seq<Entry>)
    requires Disjoint(es) && multiset(es) == multiset(fs)
    ensures Disjoint(fs)
  {
    forall i | 0 <= i < |fs| ensures fs[i].size > 0 {
      assert fs[i] in multiset(es);
    }
    forall i, j | 0 <= i < j < |fs| ensures fs[i].End() <= fs[j].src || fs[j].End() <= fs[i].src {
      TwoOccurrences(es, fs, i, j);
    }
  }

  lemma TwoOccurrences(es: seq<Entry>, fs: seq<Entry>, i: nat, j: nat)
    requires Disjoint(es) && multiset(es) == multiset(fs) && i < j < |fs|
    ensures fs[i].End() <= fs[j].src || fs[j].End() <= fs[i].src
  {
    assert fs[i] in multiset(es) && fs[j] in multiset(es);
    var a :| 0 <= a < |es| && es[a] == fs[i];
    if fs[i] == fs[j] {
      Twice(fs, i, j);
      Once(es, a);
    } else {
      var b :| 0 <= b < |es| && es[b] == fs[j];
    }
  }

  lemma Twice(fs: seq<Entry>, i: nat, j: nat)
    requires i < j < |fs| && fs[i] == fs[j]
    ensures multiset(fs)[fs[i]] >= 2
  {
    assert fs == fs[..j] + [fs[j]] + fs[j + 1..];
    assert fs[..j][i] == fs[i];
    assert fs[i] in multiset(fs[..j]);
  }

  /** A non-empty entry occurs once among disjoint entries. */
  lemma Once(es: seq<Entry>, a: nat)
    requires Disjoint(es) && a < |es|
    ensures multiset(es)[es[a]] == 1
  {
    assert es == es[..a] + [es[a]] + es[a + 1..];
    assert forall i :: 0 <= i < |es| && i != a ==> es[i] != es[a];
    assert es[a] !in multiset(es[..a]) && es[a] !in multiset(es[a + 1..]);
  }

  lemma UniqueEntry(es: seq<Entry>, addr: nat, a: Entry, b: Entry)
    requires Disjoint(es) && a in es && b in es && a.Has(addr) && b.Has(addr)
    ensures a == b
  {
  }

  // ----- search -----

  datatype Lookup = Nothing | Found(entry: Entry)

  /** Bisection over the table. */
  method GetMapping(es: seq<Entry>, addr: nat) returns (r: Lookup)
    requires Ascending(es)
    ensures r.Nothing? <==> !Mapped(es, addr)
    ensures r.Found? ==> r.entry in es && r.entry.Has(addr)
  {
    var start, end := 0, |es|;
    while start < end
      invariant start <= end <= |es|
      invariant forall i :: 0 <= i < start ==> es[i].End() <= addr
      invariant forall i :: end <= i < |es| ==> addr < es[i].src
    {
      var mid := start + (end - start) / 2;
      var c := CompareAddress(addr, es[mid]);
      if c < 0 {
        end := mid;
      } else if c > 0 {
        start := mid + 1;
      } else {
        assert es[mid] in es;
        return Found(es[mid]);
      }
    }
    r := Nothing;
  }

  function Translated(e: Entry, addr: nat): u32 {
    (e.dst + addr - e.src) % M
  }

  /** The translation as a linear scan in table order would give it. */
  function Scan(es: seq<Entry>, addr: nat): u32 {
    if es == [] then NO_TRANSLATION
    else if es[0].Has(addr) then Translated(es[0], addr)
    else Scan(es[1..], addr)
  }

  lemma {:induction false} ScanFinds(es: seq<Entry>, addr: nat, e: Entry)
    requires Disjoint(es) && e in es && e.Has(addr)
    ensures Scan(es, addr) == Translated(e, addr)
    decreases |es|
  {
    if es[0].Has(addr) {
      UniqueEntry(es, addr, es[0], e);
    } else {
      assert e in es[1..];
      ScanFinds(es[1..], addr, e);
    }
  }

  lemma {:induction false} ScanMisses(es: seq<Entry>, addr: nat)
    requires !Mapped(es, addr)
    ensures Scan(es, addr) == NO_TRANSLATION
    decreases |es|
  {
    if es != [] {
      assert es[0] in es;
      assert forall e :: e in es[1..] ==> e in es;
      ScanMisses(es[1..], addr);
    }
  }

  /** Byte `k` of every entry goes to its DSP base plus `k`; the first byte to the base itself. */
  lemma EntryTranslates(es: seq<Entry>, e: Entry, k: nat)
    requires Disjoint(es) && e in es && k < e.size
    ensures Scan(es, e.src + k) == (e.dst + k) % M
    ensures Scan(es, e.src) == e.dst
    ensures e.dst + e.size <= M ==> Scan(es, e.src + k) == e.dst + k
  {
    ScanFinds(es, e.src + k, e);
    ScanFinds(es, e.src, e);
  }

  /** Translation through the sorted table agrees with a linear scan of the unsorted one: an
      address that is `k` bytes into an entry goes `k` bytes behind the entry's DSP base. */
  method TranslateToDsp(table: seq<Entry>, ghost unsorted: seq<Entry>, addr: nat) returns (a: u32)
    requires Disjoint(unsorted) && multiset(unsorted) == multiset(table) && SortedByCompare(table)
    ensures a == Scan(unsorted, addr)
    ensures forall e :: e in unsorted && e.Has(addr) ==> a == (e.dst + (addr - e.src)) % M
    ensures !Mapped(unsorted, addr) ==> a == NO_TRANSLATION
  {
    PermutationDisjoint(unsorted, table);
    SortedAscends(table);
    SameElements(unsorted, table);
    var r := GetMapping(table, addr);
    match r
    case Nothing =>
      ScanMisses(unsorted, addr);
      a := NO_TRANSLATION;
    case Found(e) =>
      ScanFinds(unsorted, addr, e);
      a := (e.dst + addr - e.src) % M;
      forall d | d in unsorted && d.Has(addr) ensures d == e {
        UniqueEntry(unsorted, addr, d, e);
      }
  }

  lemma SameElements(es: seq<Entry>, fs: seq<Entry>)
    requires multiset(es) == multiset(fs)
    ensures forall e :: e in es <==> e in fs
  {
    forall e ensures e in es <==> e in fs {
      assert e in es <==> e in multiset(es);
      assert e in fs <==> e in multiset(fs);
    }
  }

  // ----- regions and the sentinel -----

  /** When the first and the last byte of a region fall into one entry, every byte translates,
      and to consecutive DSP addresses. */
  lemma RegionTranslates(es: seq<Entry>, e: Entry, phys: nat, size: nat, k: nat)
    requires Disjoint(es) && e in es && size > 0 && k < size
    requires CompareAddress(phys, e) == 0 && CompareAddress(phys + size - 1, e) == 0
    ensures Scan(es, phys + k) == (Scan(es, phys) + k) % M
    ensures e.dst + e.size <= M ==> Scan(es, phys + k) == Scan(es, phys) + k
  {
    ScanFinds(es, phys, e);
    ScanFinds(es, phys + k, e);
    AddMod(e.dst + phys - e.src, k);
  }

  lemma AddMod(x: nat, k: nat)
    ensures (x + k) % M == (x % M + k) % M
  {
  }

  /** No entry reaches the DSP address that doubles as the sentinel. */
  ghost predicate BelowSentinel(es: seq<Entry>) {
    forall e :: e in es ==> e.dst + e.size < M
  }

  /** The sentinel answers exactly the unmapped addresses if and only if every entry ends
      below 2^32 on the DSP side. */
  lemma SentinelExact(es: seq<Entry>)
    requires Disjoint(es)
    ensures (forall addr: nat :: Scan(es, addr) == NO_TRANSLATION <==> !Mapped(es, addr)) <==> BelowSentinel(es)
  {
    if BelowSentinel(es) {
      forall addr: nat ensures Scan(es, addr) == NO_TRANSLATION <==> !Mapped(es, addr) {
        if Mapped(es, addr) {
          var e :| e in es && e.Has(addr);
          ScanFinds(es, addr, e);
          assert Translated(e, addr) == e.dst + addr - e.src;
        } else {
          ScanMisses(es, addr);
        }
      }
    } else {
      var e :| e in es && e.dst + e.size >= M;
      var addr := e.src + (M - 1 - e.dst);
      assert e.Has(addr);
      ScanFinds(es, addr, e);
      assert Mapped(es, addr) && Scan(es, addr) == NO_TRANSLATION;
    }
  }

  /** The table used without a `ranges` property: one entry of 2^32 - 1 bytes. */
  const DEFAULT_MAP: seq<Entry> := [Entry(0, 0, M - 1)]

  /** It is the identity, and the sentinel for the rest. */
  lemma DefaultIsIdentity(addr: nat)
    ensures Disjoint(DEFAULT_MAP) && BelowSentinel(DEFAULT_MAP)
    ensures Scan(DEFAULT_MAP, addr) == if addr < M - 1 then addr else NO_TRANSLATION
  {
    if addr < M - 1 {
      ScanFinds(DEFAULT_MAP, addr, DEFAULT_MAP[0]);
    } else {
      ScanMisses(DEFAULT_MAP, addr);
    }
  }
}
