/** A request on its way through the communication area: what the DSP decodes is what the host
    encoded, inline or by address. */
module HwRequest {
  import opened Bits
  import opened Comm
  import opened Options
  import opened Memory
  import AddressMap
  import Protocol
  import ProtocolWords

  datatype Descriptor = Descriptor(flags: u32, size: u32, addr: u32)

  /** `inData` and `buffers` are what the host holds itself; the physical addresses are used
      when they do not fit inline. */
  datatype Request = Request(
    inSize: u32, outSize: u32, inData: seq<Byte>, inPhys: nat, outPhys: nat,
    buffers: seq<Descriptor>, buffersPhys: nat, nsid: Option<seq<Byte>>)
  {
    predicate Valid() {
      && (inSize <= INLINE_DATA_SIZE ==> |inData| == inSize)
      && |buffers| < 0x1000_0000
      && (nsid.Some? ==> |nsid.value| == NAMESPACE_ID_SIZE)
    }

    /** The flags of the request, as checked on submission. */
    function Flags(): u32 { if nsid.Some? then ProtocolWords.REQUEST_NSID else 0 }
  }

  // ----- memory on both sides -----

  /** Physical memory as the host sees it, and the DSP's address space. */
  type HostMemory = nat -> Byte
  type DspMemory = u32 -> Byte

  ghost function HostBytes(m: HostMemory, p: nat, n: nat): (r: seq<Byte>)
    ensures |r| == n && forall i :: 0 <= i < n ==> r[i] == m(p + i)
  {
    seq(n, i requires 0 <= i => m(p + i))
  }

  ghost function DspBytes(m: DspMemory, a: u32, n: nat): (r: seq<Byte>)
    ensures |r| == n && forall i :: 0 <= i < n ==> r[i] == m((a + i) % M)
  {
    seq(n, i requires 0 <= i => m((a + i) % M))
  }

  /** An entry maps its host range to its DSP range, byte by byte. */
  ghost predicate Coherent(es: seq<AddressMap.Entry>, host: HostMemory, dsp: DspMemory) {
    forall e, p: nat :: e in es && e.Has(p) ==> dsp((e.dst + (p - e.src)) % M) == host(p)
  }

  /** The first and last byte of a region fall into one entry. */
  ghost predicate InOneEntry(es: seq<AddressMap.Entry>, p: nat, n: nat) {
    n > 0 ==> exists e :: e in es && e.Has(p) && e.Has(p + n - 1)
  }

  /** The DSP sees a shared region byte for byte at its translated address. */
  lemma DspSees(es: seq<AddressMap.Entry>, host: HostMemory, dsp: DspMemory, p: nat, n: nat)
    requires AddressMap.Disjoint(es) && Coherent(es, host, dsp) && InOneEntry(es, p, n)
    ensures DspBytes(dsp, AddressMap.Scan(es, p), n) == HostBytes(host, p, n)
  {
    if n > 0 {
      var e :| e in es && e.Has(p) && e.Has(p + n - 1);
      var here, there := HostBytes(host, p, n), DspBytes(dsp, AddressMap.Scan(es, p), n);
      forall i | 0 <= i < n ensures there[i] == here[i] {
        DspSeesByte(es, host, dsp, e, p, n, i, AddressMap.Scan(es, p));
      }
      assert there == here;
    }
  }

  lemma CoherentAt(es: seq<AddressMap.Entry>, host: HostMemory, dsp: DspMemory, e: AddressMap.Entry, p: nat)
    requires AddressMap.Disjoint(es) && Coherent(es, host, dsp) && e in es && e.Has(p)
    ensures dsp(AddressMap.Scan(es, p)) == host(p)
  {
    AddressMap.EntryTranslates(es, e, p - e.src);
  }

  lemma DspSeesByte(es: seq<AddressMap.Entry>, host: HostMemory, dsp: DspMemory, e: AddressMap.Entry, p: nat, n: nat,
        i: nat, a: u32)
    requires AddressMap.Disjoint(es) && Coherent(es, host, dsp) && e in es && i < n
    requires e.Has(p) && e.Has(p + n - 1) && a == AddressMap.Scan(es, p)
    ensures DspBytes(dsp, a, n)[i] == HostBytes(host, p, n)[i]
  {
    assert (a + i) % M == AddressMap.Scan(es, p + i) by {
      AddressMap.RegionTranslates(es, e, p, n, i);
    }
    CoherentAt(es, host, dsp, e, p + i);
  }

  // ----- descriptors -----

  function Image(d: Descriptor): (r: seq<Byte>)
    ensures |r| == BUFFER_SIZE
  {
    Word(d.flags) + Word(d.size) + Word(d.addr)
  }

  function Parse(b: seq<Byte>): Descriptor
    requires |b| == BUFFER_SIZE
  {
    Descriptor(Value(b[..4]), Value(b[4..8]), Value(b[8..]))
  }

  lemma ParseImage(d: Descriptor)
    ensures Parse(Image(d)) == d
  {
    ValueWord(d.flags);
    ValueWord(d.size);
    ValueWord(d.addr);
    var b := Image(d);
    assert b[..4] == Word(d.flags) && b[4..8] == Word(d.size) && b[8..] == Word(d.addr);
  }

  function Images(ds: seq<Descriptor>): (r: seq<Byte>)
    ensures |r| == BUFFER_SIZE * |ds|
  {
    if ds == [] then [] else Image(ds[0]) + Images(ds[1..])
  }

  function ParseAll(b: seq<Byte>, n: nat): (r: seq<Descriptor>)
    requires |b| == BUFFER_SIZE * n
    ensures |r| == n
  {
    if n == 0 then [] else [Parse(b[..BUFFER_SIZE])] + ParseAll(b[BUFFER_SIZE..], n - 1)
  }

  lemma {:induction false} ParseImages(ds: seq<Descriptor>)
    ensures ParseAll(Images(ds), |ds|) == ds
  {
    if ds != [] {
      var b := Images(ds);
      assert b[..BUFFER_SIZE] == Image(ds[0]) && b[BUFFER_SIZE..] == Images(ds[1..]);
      ParseImage(ds[0]);
      ParseImages(ds[1..]);
    }
  }

  // ----- encoding -----

  /** Input bytes, or the DSP address of the input. */
  function InField(rq: Request, es: seq<AddressMap.Entry>): (r: seq<Byte>)
    requires rq.Valid()
    ensures |r| <= 16
  {
    if rq.inSize > INLINE_DATA_SIZE then Word(AddressMap.Scan(es, rq.inPhys)) else rq.inData
  }

  function OutField(rq: Request, es: seq<AddressMap.Entry>): (r: seq<Byte>)
    ensures |r| <= 16
  {
    if rq.outSize > INLINE_DATA_SIZE then Word(AddressMap.Scan(es, rq.outPhys)) else []
  }

  function BufferField(rq: Request, es: seq<AddressMap.Entry>): (r: seq<Byte>)
    ensures |r| <= 16
  {
    if |rq.buffers| > INLINE_BUFFER_COUNT then Word(AddressMap.Scan(es, rq.buffersPhys)) else Images(rq.buffers)
  }

  function NsidField(rq: Request): (r: seq<Byte>)
    requires rq.Valid()
    ensures |r| <= 16
  {
    if rq.nsid.Some? then rq.nsid.value else []
  }

  /** The three size words. */
  function Sized(area: seq<Byte>, rq: Request): (r: seq<Byte>)
    requires |area| == CMD_SIZE && rq.Valid()
    ensures |r| == CMD_SIZE
  {
    Put(Put(Put(area, IN_DATA_SIZE, Word(rq.inSize)), OUT_DATA_SIZE, Word(rq.outSize)),
        BUFFERS_SIZE, Word(|rq.buffers| * BUFFER_SIZE))
  }

  /** The four variable fields. */
  function Fielded(area: seq<Byte>, rq: Request, es: seq<AddressMap.Entry>): (r: seq<Byte>)
    requires |area| == CMD_SIZE && rq.Valid()
    ensures |r| == CMD_SIZE
  {
    Put(Put(Put(Put(area, IN_DATA, InField(rq, es)), OUT_DATA, OutField(rq, es)),
            BUFFER_DATA, BufferField(rq, es)), NSID, NsidField(rq))
  }

  function Filled(area: seq<Byte>, rq: Request, es: seq<AddressMap.Entry>): (r: seq<Byte>)
    requires |area| == CMD_SIZE && rq.Valid()
    ensures |r| == CMD_SIZE
  {
    Put(Fielded(Sized(area, rq), rq, es), FLAGS, Word(Protocol.CommandWord(rq.nsid.Some?)))
  }

  ghost predicate Searchable(table: seq<AddressMap.Entry>, es: seq<AddressMap.Entry>) {
    AddressMap.Disjoint(es) && multiset(es) == multiset(table) && AddressMap.SortedByCompare(table)
  }

  /** Writes a request into the communication area, the shared word last. Addresses are looked
      up in the sorted table; `es` are its entries as they were given. */
  method Fill(area: array<Byte>, rq: Request, table: seq<AddressMap.Entry>, ghost es: seq<AddressMap.Entry>)
    requires area.Length == CMD_SIZE && rq.Valid() && Searchable(table, es)
    modifies area
    ensures area[..] == Filled(old(area[..]), rq, es)
  {
    Write(area, IN_DATA_SIZE, Word(rq.inSize));
    Write(area, OUT_DATA_SIZE, Word(rq.outSize));
    Write(area, BUFFERS_SIZE, Word(|rq.buffers| * BUFFER_SIZE));
    FillFields(area, rq, table, es);
    ProtocolWords.NsidFlags(rq.nsid.Some?);
    ProtocolWords.PublishedWord(rq.Flags());
    Write(area, FLAGS, Word(Or(And(rq.Flags(), ProtocolWords.Not(ProtocolWords.RESPONSE_VALID)),
      ProtocolWords.REQUEST_VALID)));
  }

  method FillFields(area: array<Byte>, rq: Request, table: seq<AddressMap.Entry>, ghost es: seq<AddressMap.Entry>)
    requires area.Length == CMD_SIZE && rq.Valid() && Searchable(table, es)
    modifies area
    ensures area[..] == Fielded(old(area[..]), rq, es)
  {
    var input, output, buffers := rq.inData, [], [];
    if rq.inSize > INLINE_DATA_SIZE {
      input := TranslatedWord(table, es, rq.inPhys);
    }
    if rq.outSize > INLINE_DATA_SIZE {
      output := TranslatedWord(table, es, rq.outPhys);
    }
    if |rq.buffers| > INLINE_BUFFER_COUNT {
      buffers := TranslatedWord(table, es, rq.buffersPhys);
    } else {
      buffers := Images(rq.buffers);
    }
    WriteFields(area, input, output, buffers, NsidField(rq));
  }

  method TranslatedWord(table: seq<AddressMap.Entry>, ghost es: seq<AddressMap.Entry>, addr: nat) returns (w: seq<Byte>)
    requires Searchable(table, es)
    ensures w == Word(AddressMap.Scan(es, addr))
  {
    var a := AddressMap.TranslateToDsp(table, es, addr);
    w := Word(a);
  }

  method WriteFields(area: array<Byte>, input: seq<Byte>, output: seq<Byte>, buffers: seq<Byte>, nsid: seq<Byte>)
    requires area.Length == CMD_SIZE && |input| <= 16 && |output| <= 16 && |buffers| <= 16 && |nsid| <= 16
    modifies area
    ensures area[..] == Put(Put(Put(Put(old(area[..]), IN_DATA, input), OUT_DATA, output), BUFFER_DATA, buffers),
      NSID, nsid)
  {
    PaddedFits(input);
    PaddedFits(output);
    PaddedFits(buffers);
    PaddedFits(nsid);
    Write(area, IN_DATA, input);
    Write(area, OUT_DATA, output);
    Write(area, BUFFER_DATA, buffers);
    Write(area, NSID, nsid);
  }

  // ----- decoding -----

  datatype Output = Inline | Elsewhere(addr: u32)

  /** What a command handler on the DSP gets. */
  datatype Decoded = Decoded(
    nsid: Option<seq<Byte>>, input: seq<Byte>, outSize: u32, output: Output, buffers: seq<Descriptor>)

  ghost function Decode(area: seq<Byte>, dsp: DspMemory): Decoded
    requires |area| == CMD_SIZE
  {
    var flags := Value(Get(area, FLAGS, 4));
    var inSize := Value(Get(area, IN_DATA_SIZE, 4));
    var outSize := Value(Get(area, OUT_DATA_SIZE, 4));
    var n := Value(Get(area, BUFFERS_SIZE, 4)) / BUFFER_SIZE;
    Decoded(
      if And(flags, ProtocolWords.REQUEST_NSID) != 0 then Some(Get(area, NSID, NAMESPACE_ID_SIZE)) else None,
      if inSize > INLINE_DATA_SIZE then DspBytes(dsp, Value(Get(area, IN_DATA, 4)), inSize)
        else Get(area, IN_DATA, inSize),
      outSize,
      if outSize > INLINE_DATA_SIZE then Elsewhere(Value(Get(area, OUT_DATA, 4))) else Inline,
      if n > INLINE_BUFFER_COUNT then ParseAll(DspBytes(dsp, Value(Get(area, BUFFER_DATA, 4)), BUFFER_SIZE * n), n)
      else ParseAll(Get(area, BUFFER_DATA, BUFFER_SIZE * n), n))
  }

  /** What the host means by a request. */
  ghost function Meaning(rq: Request, es: seq<AddressMap.Entry>, host: HostMemory): Decoded
    requires rq.Valid()
  {
    Decoded(
      rq.nsid,
      if rq.inSize > INLINE_DATA_SIZE then HostBytes(host, rq.inPhys, rq.inSize) else rq.inData,
      rq.outSize,
      if rq.outSize > INLINE_DATA_SIZE then Elsewhere(AddressMap.Scan(es, rq.outPhys)) else Inline,
      rq.buffers)
  }

  /** Indirect parts are in memory that the DSP can reach, and the descriptors are there. */
  ghost predicate Shared(rq: Request, es: seq<AddressMap.Entry>, host: HostMemory) {
    && (rq.inSize > INLINE_DATA_SIZE ==> InOneEntry(es, rq.inPhys, rq.inSize))
    && (|rq.buffers| > INLINE_BUFFER_COUNT ==>
          && InOneEntry(es, rq.buffersPhys, BUFFER_SIZE * |rq.buffers|)
          && HostBytes(host, rq.buffersPhys, BUFFER_SIZE * |rq.buffers|) == Images(rq.buffers))
  }

  /** The variable fields leave the words in front of them alone. */
  lemma FieldedKeeps(area: seq<Byte>, rq: Request, es: seq<AddressMap.Entry>, at: nat, n: nat)
    requires |area| == CMD_SIZE && rq.Valid() && at + n <= IN_DATA
    ensures Get(Fielded(area, rq, es), at, n) == Get(area, at, n)
  {
    var a1 := Put(area, IN_DATA, InField(rq, es));
    var a2 := Put(a1, OUT_DATA, OutField(rq, es));
    var a3 := Put(a2, BUFFER_DATA, BufferField(rq, es));
    GetPutOther(area, IN_DATA, InField(rq, es), at, n);
    GetPutOther(a1, OUT_DATA, OutField(rq, es), at, n);
    GetPutOther(a2, BUFFER_DATA, BufferField(rq, es), at, n);
    GetPutOther(a3, NSID, NsidField(rq), at, n);
  }

  lemma SizedWords(area: seq<Byte>, rq: Request)
    requires |area| == CMD_SIZE && rq.Valid()
    ensures var f := Sized(area, rq);
      && Get(f, IN_DATA_SIZE, 4) == Word(rq.inSize)
      && Get(f, OUT_DATA_SIZE, 4) == Word(rq.outSize)
      && Get(f, BUFFERS_SIZE, 4) == Word(|rq.buffers| * BUFFER_SIZE)
  {
    var w1, w2, w3 := Word(rq.inSize), Word(rq.outSize), Word(|rq.buffers| * BUFFER_SIZE);
    var a1 := Put(area, IN_DATA_SIZE, w1);
    var a2 := Put(a1, OUT_DATA_SIZE, w2);
    GetPut(area, IN_DATA_SIZE, w1);
    GetPutOther(a1, OUT_DATA_SIZE, w2, IN_DATA_SIZE, 4);
    GetPutOther(a2, BUFFERS_SIZE, w3, IN_DATA_SIZE, 4);
    GetPut(a1, OUT_DATA_SIZE, w2);
    GetPutOther(a2, BUFFERS_SIZE, w3, OUT_DATA_SIZE, 4);
    GetPut(a2, BUFFERS_SIZE, w3);
  }

  lemma FilledWords(area: seq<Byte>, rq: Request, es: seq<AddressMap.Entry>)
    requires |area| == CMD_SIZE && rq.Valid()
    ensures var f := Filled(area, rq, es);
      && Get(f, FLAGS, 4) == Word(Protocol.CommandWord(rq.nsid.Some?))
      && Get(f, IN_DATA_SIZE, 4) == Word(rq.inSize)
      && Get(f, OUT_DATA_SIZE, 4) == Word(rq.outSize)
      && Get(f, BUFFERS_SIZE, 4) == Word(|rq.buffers| * BUFFER_SIZE)
  {
    var s := Sized(area, rq);
    var g := Fielded(s, rq, es);
    var w := Word(Protocol.CommandWord(rq.nsid.Some?));
    SizedWords(area, rq);
    FieldedKeeps(s, rq, es, IN_DATA_SIZE, 4);
    FieldedKeeps(s, rq, es, OUT_DATA_SIZE, 4);
    FieldedKeeps(s, rq, es, BUFFERS_SIZE, 4);
    GetPut(g, FLAGS, w);
    GetPutOther(g, FLAGS, w, IN_DATA_SIZE, 4);
    GetPutOther(g, FLAGS, w, OUT_DATA_SIZE, 4);
    GetPutOther(g, FLAGS, w, BUFFERS_SIZE, 4);
  }

  lemma FieldedFields(area: seq<Byte>, i: seq<Byte>, o: seq<Byte>, b: seq<Byte>, n: seq<Byte>)
    requires |area| == CMD_SIZE && |i| <= 16 && |o| <= 16 && |b| <= 16 && |n| <= 16
    ensures var f := Put(Put(Put(Put(area, IN_DATA, i), OUT_DATA, o), BUFFER_DATA, b), NSID, n);
      && Get(f, IN_DATA, |i|) == i && Get(f, OUT_DATA, |o|) == o
      && Get(f, BUFFER_DATA, |b|) == b && Get(f, NSID, |n|) == n
  {
    var a1 := Put(area, IN_DATA, i);
    var a2 := Put(a1, OUT_DATA, o);
    var a3 := Put(a2, BUFFER_DATA, b);
    GetPut(area, IN_DATA, i);
    GetPutOther(a1, OUT_DATA, o, IN_DATA, |i|);
    GetPutOther(a2, BUFFER_DATA, b, IN_DATA, |i|);
    GetPutOther(a3, NSID, n, IN_DATA, |i|);
    GetPut(a1, OUT_DATA, o);
    GetPutOther(a2, BUFFER_DATA, b, OUT_DATA, |o|);
    GetPutOther(a3, NSID, n, OUT_DATA, |o|);
    GetPut(a2, BUFFER_DATA, b);
    GetPutOther(a3, NSID, n, BUFFER_DATA, |b|);
    GetPut(a3, NSID, n);
  }

  lemma FilledFields(area: seq<Byte>, rq: Request, es: seq<AddressMap.Entry>)
    requires |area| == CMD_SIZE && rq.Valid()
    ensures var f := Filled(area, rq, es);
      && Get(f, IN_DATA, |InField(rq, es)|) == InField(rq, es)
      && Get(f, OUT_DATA, |OutField(rq, es)|) == OutField(rq, es)
      && Get(f, BUFFER_DATA, |BufferField(rq, es)|) == BufferField(rq, es)
      && Get(f, NSID, |NsidField(rq)|) == NsidField(rq)
  {
    var s := Sized(area, rq);
    var g := Fielded(s, rq, es);
    var w := Word(Protocol.CommandWord(rq.nsid.Some?));
    FieldedFields(s, InField(rq, es), OutField(rq, es), BufferField(rq, es), NsidField(rq));
    GetPutOther(g, FLAGS, w, IN_DATA, |InField(rq, es)|);
    GetPutOther(g, FLAGS, w, OUT_DATA, |OutField(rq, es)|);
    GetPutOther(g, FLAGS, w, BUFFER_DATA, |BufferField(rq, es)|);
    GetPutOther(g, FLAGS, w, NSID, |NsidField(rq)|);
  }

  lemma InputDecodes(f: seq<Byte>, rq: Request, es: seq<AddressMap.Entry>, host: HostMemory, dsp: DspMemory)
    requires |f| == CMD_SIZE && rq.Valid() && AddressMap.Disjoint(es) && Coherent(es, host, dsp) && Shared(rq, es, host)
    requires Get(f, IN_DATA, |InField(rq, es)|) == InField(rq, es)
    ensures (if rq.inSize > INLINE_DATA_SIZE then DspBytes(dsp, Value(Get(f, IN_DATA, 4)), rq.inSize)
             else Get(f, IN_DATA, rq.inSize)) == Meaning(rq, es, host).input
  {
    if rq.inSize > INLINE_DATA_SIZE {
      ValueWord(AddressMap.Scan(es, rq.inPhys));
      DspSees(es, host, dsp, rq.inPhys, rq.inSize);
    }
  }

  lemma BuffersDecode(f: seq<Byte>, rq: Request, es: seq<AddressMap.Entry>, host: HostMemory, dsp: DspMemory)
    requires |f| == CMD_SIZE && rq.Valid() && AddressMap.Disjoint(es) && Coherent(es, host, dsp) && Shared(rq, es, host)
    requires Get(f, BUFFER_DATA, |BufferField(rq, es)|) == BufferField(rq, es)
    ensures var n := |rq.buffers|;
      (if n > INLINE_BUFFER_COUNT then ParseAll(DspBytes(dsp, Value(Get(f, BUFFER_DATA, 4)), BUFFER_SIZE * n), n)
       else ParseAll(Get(f, BUFFER_DATA, BUFFER_SIZE * n), n)) == rq.buffers
  {
    ParseImages(rq.buffers);
    if |rq.buffers| > INLINE_BUFFER_COUNT {
      ValueWord(AddressMap.Scan(es, rq.buffersPhys));
      DspSees(es, host, dsp, rq.buffersPhys, BUFFER_SIZE * |rq.buffers|);
    }
  }

  /** The four words of a filled area, as values. */
  ghost predicate Headed(f: seq<Byte>, rq: Request)
    requires |f| == CMD_SIZE
  {
    && Value(Get(f, FLAGS, 4)) == Protocol.CommandWord(rq.nsid.Some?)
    && Value(Get(f, IN_DATA_SIZE, 4)) == rq.inSize
    && Value(Get(f, OUT_DATA_SIZE, 4)) == rq.outSize
    && Value(Get(f, BUFFERS_SIZE, 4)) == |rq.buffers| * BUFFER_SIZE
  }

  lemma FilledHeaded(area: seq<Byte>, rq: Request, es: seq<AddressMap.Entry>)
    requires |area| == CMD_SIZE && rq.Valid()
    ensures Headed(Filled(area, rq, es), rq)
  {
    FilledWords(area, rq, es);
    ValueWord(Protocol.CommandWord(rq.nsid.Some?));
    ValueWord(rq.inSize);
    ValueWord(rq.outSize);
    ValueWord(|rq.buffers| * BUFFER_SIZE);
  }

  lemma OutputDecodes(f: seq<Byte>, rq: Request, es: seq<AddressMap.Entry>, host: HostMemory)
    requires |f| == CMD_SIZE && rq.Valid()
    requires Get(f, OUT_DATA, |OutField(rq, es)|) == OutField(rq, es)
    ensures (if rq.outSize > INLINE_DATA_SIZE then Elsewhere(Value(Get(f, OUT_DATA, 4))) else Inline) ==
      Meaning(rq, es, host).output
  {
    if rq.outSize > INLINE_DATA_SIZE {
      ValueWord(AddressMap.Scan(es, rq.outPhys));
    }
  }

  lemma NsidDecodes(f: seq<Byte>, rq: Request)
    requires |f| == CMD_SIZE && rq.Valid() && Headed(f, rq) && Get(f, NSID, |NsidField(rq)|) == NsidField(rq)
    ensures (if And(Value(Get(f, FLAGS, 4)), ProtocolWords.REQUEST_NSID) != 0
      then Some(Get(f, NSID, NAMESPACE_ID_SIZE)) else None) == rq.nsid
  {
    ProtocolWords.NsidFlags(rq.nsid.Some?);
  }

  /** For every request size and buffer count, the DSP decodes from the communication area
      what the host encoded into it. */
  lemma DecodeFilled(area: seq<Byte>, rq: Request, es: seq<AddressMap.Entry>, host: HostMemory, dsp: DspMemory)
    requires |area| == CMD_SIZE && rq.Valid() && AddressMap.Disjoint(es) && Coherent(es, host, dsp) &&
      Shared(rq, es, host)
    ensures Decode(Filled(area, rq, es), dsp) == Meaning(rq, es, host)
  {
    FilledHeaded(area, rq, es);
    FilledFields(area, rq, es);
    DecodeParts(Filled(area, rq, es), rq, es, host, dsp);
  }

  lemma DecodeParts(f: seq<Byte>, rq: Request, es: seq<AddressMap.Entry>, host: HostMemory, dsp: DspMemory)
    requires |f| == CMD_SIZE && rq.Valid() && AddressMap.Disjoint(es) && Coherent(es, host, dsp) && Shared(rq, es, host)
    requires Headed(f, rq)
    requires Get(f, IN_DATA, |InField(rq, es)|) == InField(rq, es) &&
      Get(f, OUT_DATA, |OutField(rq, es)|) == OutField(rq, es)
    requires Get(f, BUFFER_DATA, |BufferField(rq, es)|) == BufferField(rq, es) &&
      Get(f, NSID, |NsidField(rq)|) == NsidField(rq)
    ensures Decode(f, dsp) == Meaning(rq, es, host)
  {
    NsidDecodes(f, rq);
    InputDecodes(f, rq, es, host, dsp);
    OutputDecodes(f, rq, es, host);
    BuffersDecode(f, rq, es, host, dsp);
    assert |rq.buffers| * BUFFER_SIZE / BUFFER_SIZE == |rq.buffers|;
  }

  // ----- the way back -----

  /** What the DSP answers: whether a handler ran, the inline output it left, the access it
      made of each buffer, and the failure bit. */
  datatype Answer = Answer(ran: bool, output: seq<Byte>, reported: seq<u32>, fail: bool) {
    predicate For(rq: Request) {
      |reported| == |rq.buffers| && (rq.outSize <= INLINE_DATA_SIZE ==> |output| == rq.outSize)
    }
  }

  /** Descriptors with the reported access in place of the submitted flags. */
  function Flagged(ds: seq<Descriptor>, reported: seq<u32>): (r: seq<Descriptor>)
    requires |reported| == |ds|
    ensures |r| == |ds|
  {
    seq(|ds|, i requires 0 <= i < |ds| => ds[i].(flags := reported[i]))
  }

  function DescriptorsAfter(rq: Request, an: Answer): (r: seq<Descriptor>)
    requires an.For(rq)
    ensures |r| == |rq.buffers|
  {
    if an.ran then Flagged(rq.buffers, an.reported) else rq.buffers
  }

  /** The communication area with inline output and inline access in it. */
  function Resulted(area: seq<Byte>, rq: Request, an: Answer): (r: seq<Byte>)
    requires |area| == CMD_SIZE && an.For(rq)
    ensures |r| == CMD_SIZE
  {
    var g := if rq.outSize <= INLINE_DATA_SIZE then Store(area, OUT_DATA, an.output) else area;
    if |rq.buffers| <= INLINE_BUFFER_COUNT then Store(g, BUFFER_DATA, Images(Flagged(rq.buffers, an.reported))) else g
  }

  /** The communication area after the answer to a request: output, inline descriptors, and
      the shared word. */
  function Answered(area: seq<Byte>, rq: Request, an: Answer): (r: seq<Byte>)
    requires |area| == CMD_SIZE && an.For(rq)
    ensures |r| == CMD_SIZE
  {
    var k := if an.ran then Resulted(area, rq, an) else area;
    Store(k, FLAGS, Word(Protocol.AnswerWord(Protocol.CommandWord(rq.nsid.Some?), an.fail)))
  }

  /** Replacing the flags of one descriptor replaces one word of the images. */
  lemma {:induction false} ImagesUpdate(ds: seq<Descriptor>, i: nat, flags: u32)
    requires i < |ds|
    ensures Images(ds[i := ds[i].(flags := flags)]) == Store(Images(ds), BUFFER_SIZE * i, Word(flags))
  {
    var es := ds[i := ds[i].(flags := flags)];
    if i == 0 {
      assert es[1..] == ds[1..];
    } else {
      assert es[1..] == ds[1..][i - 1 := ds[i].(flags := flags)];
      ImagesUpdate(ds[1..], i - 1, flags);
    }
  }

  /** `m` with the memory image of `ds` at `off`. */
  ghost predicate Holds(m: seq<Byte>, off: nat, ds: seq<Descriptor>) {
    off + BUFFER_SIZE * |ds| <= |m| && m[off..off + BUFFER_SIZE * |ds|] == Images(ds)
  }

  lemma UpdateInside(m: seq<Byte>, off: nat, ds: seq<Descriptor>, i: nat, flags: u32)
    requires Holds(m, off, ds) && i < |ds|
    ensures Store(m, off + BUFFER_SIZE * i, Word(flags)) == Store(m, off, Images(ds[i := ds[i].(flags := flags)]))
  {
    ImagesUpdate(ds, i, flags);
    var inner := Images(ds);
    assert m == m[..off] + inner + m[off + |inner|..];
  }

  /** The first `i` descriptors carry the reported access. */
  ghost function FlaggedFirst(ds: seq<Descriptor>, reported: seq<u32>, i: nat): (r: seq<Descriptor>)
    requires |reported| == |ds| && i <= |ds|
    ensures |r| == |ds|
  {
    seq(|ds|, j requires 0 <= j < |ds| => if j < i then ds[j].(flags := reported[j]) else ds[j])
  }

  /** The descriptor in memory at `off` is that of buffer `d` with access `flags`. */
  ghost predicate Describes(m: seq<Byte>, off: nat, d: Descriptor, flags: u32) {
    off + BUFFER_SIZE <= |m| && Parse(m[off..off + BUFFER_SIZE]) == Descriptor(flags, d.size, d.addr)
  }

  /** Each descriptor of the images is found at its place. */
  lemma {:induction false} ImageAt(ds: seq<Descriptor>, i: nat)
    requires i < |ds|
    ensures Images(ds)[BUFFER_SIZE * i..BUFFER_SIZE * i + BUFFER_SIZE] == Image(ds[i])
    decreases |ds|
  {
    var rest := Images(ds[1..]);
    if i > 0 {
      ImageAt(ds[1..], i - 1);
      var at := BUFFER_SIZE * (i - 1);
      assert Images(ds)[at + BUFFER_SIZE..at + 2 * BUFFER_SIZE] == rest[at..at + BUFFER_SIZE];
    }
  }

  lemma HeldDescribes(m: seq<Byte>, off: nat, ds: seq<Descriptor>, reported: seq<u32>, i: nat)
    requires |reported| == |ds| && i < |ds| && Holds(m, off, Flagged(ds, reported))
    ensures Describes(m, off + BUFFER_SIZE * i, ds[i], reported[i])
  {
    var fs := Flagged(ds, reported);
    ImageAt(fs, i);
    ParseImage(fs[i]);
    var at, all := BUFFER_SIZE * i, m[off..off + BUFFER_SIZE * |ds|];
    SliceOfSlice(m, off, BUFFER_SIZE * |ds|, at, BUFFER_SIZE);
    assert m[off + at..off + at + BUFFER_SIZE] == all[at..at + BUFFER_SIZE];
  }

  lemma AllDescribe(m: seq<Byte>, off: nat, ds: seq<Descriptor>, reported: seq<u32>)
    requires |reported| == |ds| && Holds(m, off, Flagged(ds, reported))
    ensures forall i :: 0 <= i < |ds| ==> Describes(m, off + BUFFER_SIZE * i, ds[i], reported[i])
  {
    forall i | 0 <= i < |ds| ensures Describes(m, off + BUFFER_SIZE * i, ds[i], reported[i]) {
      HeldDescribes(m, off, ds, reported, i);
    }
  }

  /** Writes the access of every buffer over the flags of its descriptor, one word each. */
  method ReportAccess(mem: array<Byte>, off: nat, reported: seq<u32>, ghost ds: seq<Descriptor>)
    requires |reported| == |ds| && Holds(mem[..], off, ds)
    modifies mem
    ensures mem[..] == Store(old(mem[..]), off, Images(Flagged(ds, reported)))
    ensures forall i :: 0 <= i < |ds| ==> Describes(mem[..], off + BUFFER_SIZE * i, ds[i], reported[i])
  {
    ghost var was := mem[..];
    assert FlaggedFirst(ds, reported, 0) == ds;
    StoreHeld(was, off, ds);
    var i := 0;
    while i < |reported|
      invariant i <= |reported|
      invariant mem[..] == Store(was, off, Images(FlaggedFirst(ds, reported, i)))
    {
      ReportOne(was, off, ds, reported, i);
      PutWord(mem, off + BUFFER_SIZE * i, reported[i]);
      i := i + 1;
    }
    assert FlaggedFirst(ds, reported, |ds|) == Flagged(ds, reported);
    HoldsStored(was, off, Flagged(ds, reported));
    AllDescribe(mem[..], off, ds, reported);
  }

  lemma ReportOne(was: seq<Byte>, off: nat, ds: seq<Descriptor>, reported: seq<u32>, i: nat)
    requires |reported| == |ds| && i < |ds| && off + BUFFER_SIZE * |ds| <= |was|
    ensures Store(Store(was, off, Images(FlaggedFirst(ds, reported, i))), off + BUFFER_SIZE * i, Word(reported[i]))
         == Store(was, off, Images(FlaggedFirst(ds, reported, i + 1)))
  {
    var now, after := FlaggedFirst(ds, reported, i), FlaggedFirst(ds, reported, i + 1);
    HoldsStored(was, off, now);
    UpdateInside(Store(was, off, Images(now)), off, now, i, reported[i]);
    assert now[i := now[i].(flags := reported[i])] == after;
    StoreAgain(was, off, Images(now), Images(after));
  }

  lemma HoldsStored(m: seq<Byte>, off: nat, ds: seq<Descriptor>)
    requires off + BUFFER_SIZE * |ds| <= |m|
    ensures Holds(Store(m, off, Images(ds)), off, ds)
  {
  }

  lemma StoreHeld(m: seq<Byte>, off: nat, ds: seq<Descriptor>)
    requires Holds(m, off, ds)
    ensures Store(m, off, Images(ds)) == m
  {
  }

  lemma StoreAgain(m: seq<Byte>, off: nat, a: seq<Byte>, b: seq<Byte>)
    requires |a| == |b| && off + |a| <= |m|
    ensures Store(Store(m, off, a), off, b) == Store(m, off, b)
  {
  }

  method PutWord(mem: array<Byte>, off: nat, v: u32)
    requires off + 4 <= mem.Length
    modifies mem
    ensures mem[..] == Store(old(mem[..]), off, Word(v))
  {
    WriteWord(mem, off, Word(v));
  }

  method PutBytes(mem: array<Byte>, off: nat, data: seq<Byte>)
    requires off + |data| <= mem.Length
    modifies mem
    ensures mem[..] == Store(old(mem[..]), off, data)
  {
    forall k | 0 <= k < |data| {
      mem[off + k] := data[k];
    }
  }

  /** Output and access after a handler ran. */
  method WriteResult(area: array<Byte>, far: array<Byte>, an: Answer, outSize: u32, n: nat, ghost rq: Request)
    requires area != far && area.Length == CMD_SIZE && an.For(rq) && outSize == rq.outSize && n == |rq.buffers|
    requires n <= INLINE_BUFFER_COUNT ==> Holds(area[..], BUFFER_DATA, rq.buffers)
    requires far[..] == Images(rq.buffers)
    modifies area, far
    ensures area[..] == Resulted(old(area[..]), rq, an)
    ensures n > INLINE_BUFFER_COUNT ==> far[..] == Images(Flagged(rq.buffers, an.reported))
  {
    if outSize <= INLINE_DATA_SIZE {
      GetStore(area[..], OUT_DATA, an.output, BUFFER_DATA, BUFFER_SIZE);
      SliceKept(area[..], Store(area[..], OUT_DATA, an.output), rq.buffers);
      PutBytes(area, OUT_DATA, an.output);
    }
    if n > INLINE_BUFFER_COUNT {
      ReportAccess(far, 0, an.reported, rq.buffers);
      StoreWhole(Images(rq.buffers), Images(Flagged(rq.buffers, an.reported)));
    } else {
      ReportAccess(area, BUFFER_DATA, an.reported, rq.buffers);
    }
  }

  lemma SliceKept(m: seq<Byte>, m': seq<Byte>, ds: seq<Descriptor>)
    requires |m| == |m'| == CMD_SIZE && Get(m', BUFFER_DATA, BUFFER_SIZE) == Get(m, BUFFER_DATA, BUFFER_SIZE)
    ensures |ds| <= INLINE_BUFFER_COUNT && Holds(m, BUFFER_DATA, ds) ==> Holds(m', BUFFER_DATA, ds)
  {
    if |ds| == 0 { assert m[BUFFER_DATA..BUFFER_DATA] == m'[BUFFER_DATA..BUFFER_DATA]; }
  }

  /** The DSP answers a request that the host filled in: output and access inline, or the
      access in the table of descriptors, and the shared word last. `far` is that table. */
  method Respond(area: array<Byte>, far: array<Byte>, an: Answer, ghost before: seq<Byte>, ghost rq: Request,
        ghost es: seq<AddressMap.Entry>)
    requires area != far && area.Length == CMD_SIZE == |before| && rq.Valid() && an.For(rq)
    requires area[..] == Filled(before, rq, es) && far[..] == Images(rq.buffers)
    modifies area, far
    ensures area[..] == Answered(old(area[..]), rq, an)
    ensures |rq.buffers| > INLINE_BUFFER_COUNT ==> far[..] == Images(DescriptorsAfter(rq, an))
    ensures an.ran && |rq.buffers| <= INLINE_BUFFER_COUNT ==> forall i :: 0 <= i < |rq.buffers| ==>
      Describes(area[..], BUFFER_DATA + BUFFER_SIZE * i, rq.buffers[i], an.reported[i])
    ensures an.ran && |rq.buffers| > INLINE_BUFFER_COUNT ==> forall i :: 0 <= i < |rq.buffers| ==>
      Describes(far[..], BUFFER_SIZE * i, rq.buffers[i], an.reported[i])
  {
    FilledHeaded(before, rq, es);
    FilledFields(before, rq, es);
    var flags := WordAt(area, FLAGS);
    var outSize := WordAt(area, OUT_DATA_SIZE);
    var size := WordAt(area, BUFFERS_SIZE);
    var n := size / BUFFER_SIZE;
    assert n == |rq.buffers|;
    if an.ran {
      WriteResult(area, far, an, outSize, n, rq);
    }
    ProtocolWords.AnsweredWord(rq.nsid.Some?, an.fail);
    PutWord(area, FLAGS,
      Or(Or(flags, if an.fail then ProtocolWords.RESPONSE_DELIVERY_FAIL else 0), ProtocolWords.RESPONSE_VALID));
    if an.ran {
      AnsweredDescribes(old(area[..]), far[..], rq, an);
    }
  }

  lemma AnsweredDescribes(f: seq<Byte>, far: seq<Byte>, rq: Request, an: Answer)
    requires |f| == CMD_SIZE && rq.Valid() && an.For(rq) && an.ran
    requires |rq.buffers| <= INLINE_BUFFER_COUNT ==>
      Get(f, BUFFER_DATA, BUFFER_SIZE * |rq.buffers|) == Images(rq.buffers)
    requires |rq.buffers| > INLINE_BUFFER_COUNT ==> far == Images(DescriptorsAfter(rq, an))
    ensures |rq.buffers| <= INLINE_BUFFER_COUNT ==> forall i :: 0 <= i < |rq.buffers| ==>
      Describes(Answered(f, rq, an), BUFFER_DATA + BUFFER_SIZE * i, rq.buffers[i], an.reported[i])
    ensures |rq.buffers| > INLINE_BUFFER_COUNT ==> forall i :: 0 <= i < |rq.buffers| ==>
      Describes(far, BUFFER_SIZE * i, rq.buffers[i], an.reported[i])
  {
    if |rq.buffers| <= INLINE_BUFFER_COUNT {
      AnsweredParts(f, rq, an);
      AllDescribe(Answered(f, rq, an), BUFFER_DATA, rq.buffers, an.reported);
    } else {
      assert far[0..BUFFER_SIZE * |rq.buffers|] == far;
      AllDescribe(far, 0, rq.buffers, an.reported);
    }
  }

  lemma StoreWhole(m: seq<Byte>, data: seq<Byte>)
    requires |data| == |m|
    ensures Store(m, 0, data) == data
  {
  }

  method WordAt(area: array<Byte>, off: nat) returns (v: u32)
    requires off + 4 <= area.Length
    ensures v == Value(Get(area[..], off, 4))
  {
    var b := Read(area, off, 4);
    v := Value(b);
  }

  lemma GetStore(m: seq<Byte>, off: nat, data: seq<Byte>, at: nat, n: nat)
    requires off + |data| <= |m| && at + n <= |m|
    ensures at == off && n == |data| ==> Get(Store(m, off, data), at, n) == data
    ensures at + n <= off || off + |data| <= at ==> Get(Store(m, off, data), at, n) == Get(m, at, n)
  {
  }

  lemma AnsweredParts(f: seq<Byte>, rq: Request, an: Answer)
    requires |f| == CMD_SIZE && rq.Valid() && an.For(rq)
    requires |rq.buffers| <= INLINE_BUFFER_COUNT ==>
      Get(f, BUFFER_DATA, BUFFER_SIZE * |rq.buffers|) == Images(rq.buffers)
    ensures var a := Answered(f, rq, an);
      && Get(a, FLAGS, 4) == Word(Protocol.AnswerWord(Protocol.CommandWord(rq.nsid.Some?), an.fail))
      && (rq.outSize <= INLINE_DATA_SIZE ==>
            Get(a, OUT_DATA, rq.outSize) == if an.ran then an.output else Get(f, OUT_DATA, rq.outSize))
      && (|rq.buffers| <= INLINE_BUFFER_COUNT ==>
            Get(a, BUFFER_DATA, BUFFER_SIZE * |rq.buffers|) == Images(DescriptorsAfter(rq, an)))
  {
    var word := Word(Protocol.AnswerWord(Protocol.CommandWord(rq.nsid.Some?), an.fail));
    var images := Images(DescriptorsAfter(rq, an));
    var g := if an.ran && rq.outSize <= INLINE_DATA_SIZE then Store(f, OUT_DATA, an.output) else f;
    var k := if an.ran && |rq.buffers| <= INLINE_BUFFER_COUNT then Store(g, BUFFER_DATA, images) else g;
    GetStore(k, FLAGS, word, FLAGS, 4);
    if rq.outSize <= INLINE_DATA_SIZE {
      GetStore(k, FLAGS, word, OUT_DATA, rq.outSize);
      GetStore(f, OUT_DATA, an.output, OUT_DATA, rq.outSize);
      if |rq.buffers| <= INLINE_BUFFER_COUNT { GetStore(g, BUFFER_DATA, images, OUT_DATA, rq.outSize); }
    }
    if |rq.buffers| <= INLINE_BUFFER_COUNT {
      var n := BUFFER_SIZE * |rq.buffers|;
      GetStore(k, FLAGS, word, BUFFER_DATA, n);
      GetStore(g, BUFFER_DATA, images, BUFFER_DATA, n);
      if rq.outSize <= INLINE_DATA_SIZE { GetStore(f, OUT_DATA, an.output, BUFFER_DATA, n); }
    }
  }

  method Failed(area: array<Byte>, ghost nsid: bool, ghost fail: bool) returns (failed: bool)
    requires area.Length == CMD_SIZE
    requires Get(area[..], FLAGS, 4) == Word(Protocol.AnswerWord(Protocol.CommandWord(nsid), fail))
    ensures failed <==> fail
  {
    var flags := WordAt(area, FLAGS);
    ValueWord(Protocol.AnswerWord(Protocol.CommandWord(nsid), fail));
    ProtocolWords.AnsweredWord(nsid, fail);
    failed := And(flags, ProtocolWords.RESPONSE_DELIVERY_FAIL) != 0;
  }

  method ReadDescriptors(area: array<Byte>, n: nat, ghost ds: seq<Descriptor>) returns (r: seq<Descriptor>)
    requires area.Length == CMD_SIZE && n <= INLINE_BUFFER_COUNT && |ds| == n
    requires Get(area[..], BUFFER_DATA, BUFFER_SIZE * n) == Images(ds)
    ensures r == ds
  {
    var bytes := Read(area, BUFFER_DATA, BUFFER_SIZE * n);
    r := ParseAll(bytes, n);
    ParseImages(ds);
  }

  /** The host takes exactly the answer from the communication area: the failure bit, the
      inline output, and the inline descriptors with the access in them. */
  method Complete(area: array<Byte>, rq: Request, ghost before: seq<Byte>, ghost es: seq<AddressMap.Entry>,
        ghost an: Answer)
    returns (output: seq<Byte>, descriptors: seq<Descriptor>, failed: bool)
    requires area.Length == CMD_SIZE == |before| && rq.Valid() && an.For(rq)
    requires area[..] == Answered(Filled(before, rq, es), rq, an)
    ensures failed <==> an.fail
    ensures rq.outSize <= INLINE_DATA_SIZE && an.ran ==> output == an.output
    ensures |descriptors| == if |rq.buffers| <= INLINE_BUFFER_COUNT then |rq.buffers| else 0
    ensures forall i :: 0 <= i < |descriptors| ==>
      && descriptors[i].flags == (if an.ran then an.reported[i] else rq.buffers[i].flags)
      && descriptors[i].size == rq.buffers[i].size && descriptors[i].addr == rq.buffers[i].addr
  {
    FilledFields(before, rq, es);
    AnsweredParts(Filled(before, rq, es), rq, an);
    output, descriptors := [], [];
    failed := Failed(area, rq.nsid.Some?, an.fail);
    if rq.outSize <= INLINE_DATA_SIZE {
      output := Read(area, OUT_DATA, rq.outSize);
    }
    if |rq.buffers| <= INLINE_BUFFER_COUNT {
      descriptors := ReadDescriptors(area, |rq.buffers|, DescriptorsAfter(rq, an));
    }
  }
}
