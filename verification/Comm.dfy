/** The communication area: word-wise transfers, and the command structure that the host
    writes and the DSP reads. */
module Comm {
  import opened Bits

  const INLINE_DATA_SIZE: nat := 16
  const INLINE_BUFFER_COUNT: nat := 1
  const NAMESPACE_ID_SIZE: nat := 16
  /** `sizeof(struct xrp_dsp_buffer)`. */
  const BUFFER_SIZE: nat := 12
  /** `sizeof(struct xrp_dsp_cmd)`. */
  const CMD_SIZE: nat := 80

  // Offsets in `struct xrp_dsp_cmd`.
  const FLAGS: nat := 0
  const IN_DATA_SIZE: nat := 4
  const OUT_DATA_SIZE: nat := 8
  const BUFFERS_SIZE: nat := 12
  const IN_DATA: nat := 16
  const OUT_DATA: nat := 32
  const BUFFER_DATA: nat := 48
  const NSID: nat := 64

  // ----- transfers as values -----

  /** The bytes a word-wise write of `data` stores: the last word is filled up with zeros. */
  function Padded(data: seq<Byte>): (r: seq<Byte>)
    ensures |r| % 4 == 0 && |data| <= |r| < |data| + 4 && data <= r
  {
    data + seq((4 - |data| % 4) % 4, _ => 0)
  }

  lemma PaddedFits(data: seq<Byte>)
    requires |data| <= 16
    ensures |Padded(data)| <= 16
  {
  }

  function Put(area: seq<Byte>, off: nat, data: seq<Byte>): (r: seq<Byte>)
    requires off + |Padded(data)| <= |area|
    ensures |r| == |area|
  {
    area[..off] + Padded(data) + area[off + |Padded(data)|..]
  }

  /** Byte by byte: the data, zeros up to the end of its last word, and the rest as it was. */
  lemma PutAt(area: seq<Byte>, off: nat, data: seq<Byte>, k: nat)
    requires off + |Padded(data)| <= |area| && k < |area|
    ensures Put(area, off, data)[k] ==
      if off <= k < off + |data| then data[k - off]
      else if off + |data| <= k < off + (|data| + 3) / 4 * 4 then 0
      else area[k]
  {
    var p := Padded(data);
    assert |p| == (|data| + 3) / 4 * 4;
    assert off <= k < off + |p| ==> Put(area, off, data)[k] == p[k - off];
  }

  function Get(area: seq<Byte>, off: nat, n: nat): seq<Byte>
    requires off + n <= |area|
  {
    area[off..off + n]
  }

  lemma GetPut(area: seq<Byte>, off: nat, data: seq<Byte>)
    requires off + |Padded(data)| <= |area|
    ensures Get(Put(area, off, data), off, |data|) == data
  {
  }

  lemma GetPutOther(area: seq<Byte>, off: nat, data: seq<Byte>, at: nat, n: nat)
    requires off + |Padded(data)| <= |area| && at + n <= |area|
    requires at + n <= off || off + |Padded(data)| <= at
    ensures Get(Put(area, off, data), at, n) == Get(area, at, n)
  {
  }

  // ----- the transfer loops -----

  /** Writes `data` at `off` one 32-bit word at a time, the rest of the last word as zeros. */
  method Write(area: array<Byte>, off: nat, data: seq<Byte>)
    requires off + |Padded(data)| <= area.Length
    modifies area
    ensures area[..] == Put(old(area[..]), off, data)
  {
    ghost var was := area[..];
    var words, rest := |data| / 4, |data| % 4;
    WriteWords(area, off, data, words);
    if rest != 0 {
      WriteRest(area, off + 4 * words, data[4 * words..]);
    }
    forall k | 0 <= k < area.Length ensures area[k] == Put(was, off, data)[k] {
      PutAt(was, off, data, k);
    }
  }

  /** The bytes of the last, incomplete word, and zeros. */
  method WriteRest(area: array<Byte>, off: nat, data: seq<Byte>)
    requires 0 < |data| < 4 && off + 4 <= area.Length
    modifies area
    ensures forall k :: off <= k < off + 4 ==> area[k] == if k - off < |data| then data[k - off] else 0
    ensures forall k :: 0 <= k < area.Length && !(off <= k < off + 4) ==> area[k] == old(area[k])
  {
    var v := data + seq(4 - |data|, _ => 0);
    WriteWord(area, off, v);
    forall k | off <= k < off + 4 ensures area[k] == if k - off < |data| then data[k - off] else 0 {
      assert area[off + (k - off)] == v[k - off];
    }
  }

  /** The whole words of `data`. */
  method WriteWords(area: array<Byte>, off: nat, data: seq<Byte>, words: nat)
    requires 4 * words <= |data| && off + 4 * words <= area.Length
    modifies area
    ensures forall k :: 0 <= k < 4 * words ==> area[off + k] == data[k]
    ensures forall k :: 0 <= k < area.Length && !(off <= k < off + 4 * words) ==> area[k] == old(area[k])
  {
    var w := 0;
    while w < words
      invariant w <= words
      invariant forall k :: 0 <= k < 4 * w ==> area[off + k] == data[k]
      invariant forall k :: 0 <= k < area.Length && !(off <= k < off + 4 * w) ==> area[k] == old(area[k])
    {
      var v := data[4 * w..4 * w + 4];
      WriteWord(area, off + 4 * w, v);
      forall k | 4 * w <= k < 4 * w + 4 ensures area[off + k] == data[k] {
        assert area[off + 4 * w + (k - 4 * w)] == v[k - 4 * w];
      }
      w := w + 1;
    }
  }

  /** One 32-bit store. */
  method WriteWord(area: array<Byte>, off: nat, v: seq<Byte>)
    requires |v| == 4 && off + 4 <= area.Length
    modifies area
    ensures forall k :: 0 <= k < 4 ==> area[off + k] == v[k]
    ensures forall k :: 0 <= k < area.Length && !(off <= k < off + 4) ==> area[k] == old(area[k])
  {
    area[off], area[off + 1], area[off + 2], area[off + 3] := v[0], v[1], v[2], v[3];
  }

  /** Reads `n` bytes at `off` one 32-bit word at a time. */
  method Read(area: array<Byte>, off: nat, n: nat) returns (data: seq<Byte>)
    requires off + (n + 3) / 4 * 4 <= area.Length
    ensures data == Get(area[..], off, n)
  {
    var words, rest := n / 4, n % 4;
    data := [];
    var w := 0;
    while w < words
      invariant w <= words && |data| == 4 * w
      invariant forall k :: 0 <= k < |data| ==> data[k] == area[off + k]
    {
      data := data + area[off + 4 * w..off + 4 * w + 4];
      w := w + 1;
    }
    if rest != 0 {
      data := data + area[off + 4 * words..off + 4 * words + 4][..rest];
    }
    forall k | 0 <= k < n ensures data[k] == area[..][off + k] {}
  }

  // ----- words -----

  /** The memory image of a 32-bit value; both sides use the same byte order. */
  function Word(v: u32): (r: seq<Byte>)
    ensures |r| == 4
  {
    var q1 := v / 0x100;
    var q2 := q1 / 0x100;
    [v % 0x100, q1 % 0x100, q2 % 0x100, q2 / 0x100]
  }

  function Value(b: seq<Byte>): u32
    requires |b| == 4
  {
    (b[0] as int) + 0x100 * (b[1] as int) + 0x1_0000 * (b[2] as int) + 0x100_0000 * (b[3] as int)
  }

  lemma ValueWord(v: u32)
    ensures Value(Word(v)) == v
  {
  }
}
