/** Byte memory as a value. */
module Memory {
  import opened Bits

  /** `m` with `data` stored at `at`. */
  function Store(m: seq<Byte>, at: nat, data: seq<Byte>): (r: seq<Byte>)
    requires at + |data| <= |m|
    ensures |r| == |m|
  {
    m[..at] + data + m[at + |data|..]
  }

  lemma StoreAt(m: seq<Byte>, at: nat, data: seq<Byte>, k: nat)
    requires at + |data| <= |m| && k < |m|
    ensures Store(m, at, data)[k] == if at <= k < at + |data| then data[k - at] else m[k]
  {
  }

  lemma SameSlice(v: seq<Byte>, w: seq<Byte>, lo: nat, hi: nat)
    requires lo <= hi <= |v| == |w| && forall i :: lo <= i < hi ==> w[i] == v[i]
    ensures w[lo..hi] == v[lo..hi]
  {
  }

  lemma SliceOfSlice(m: seq<Byte>, at: nat, size: nat, offs: nat, n: nat)
    requires at + size <= |m| && offs + n <= size
    ensures m[at..at + size][offs..offs + n] == m[at + offs..at + offs + n]
  {
    var a, b := m[at..at + size][offs..offs + n], m[at + offs..at + offs + n];
    forall i | 0 <= i < n ensures a[i] == b[i] {}
  }
}
