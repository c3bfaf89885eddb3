/**
 * From the sender's buffer through packet, payload and receiving file: what arrives of an object over a channel
 * that loses, duplicates and reorders its packets.
 */
module EndToEnd {
  import opened Arithmetic
  import opened Bytes
  import opened Flute
  import opened Partitioning
  import opened EncodingSymbols
  import opened AlcPackets
  import opened Files
  import opened Completion

  // ---------------------------------------------------------------------------------------------
  // One packet
  // ---------------------------------------------------------------------------------------------

  /**
   * The symbols of the payload behind a parsed header (src/Receiver.cpp:79-83).  A payload too short for its
   * FEC payload ID, or a symbol length of 0, is undefined in the source.
   */
  function PayloadSymbols(data: seq<Byte>, len: nat, alc: Alc, oti: FecOti): Result<seq<EncodingSymbol>>
    requires alc.HeaderLength() <= |data|
  {
    if alc.contentEncoding != NONE && alc.contentEncoding != GZIP then
      Err("Only unencoded or gzipped content is supported")
    else if oti.encodingId != COMPACT_NO_CODE then Err("Only compact no-code FEC is supported")
    else if len < alc.HeaderLength() + 4 || |data| < alc.HeaderLength() + 4 || oti.encodingSymbolLength == 0 then
      Err("undefined")
    else Ok(ParsedSymbols(data[alc.HeaderLength()..], len - alc.HeaderLength(), oti.encodingSymbolLength))
  }

  /** A packet of `len` bytes in the receive buffer reaches a file; a complete file takes nothing any more. */
  function Arrive(md5: Md5, f: FileState, data: seq<Byte>, len: nat): Outcome<FileState>
    requires |data| >= MAX_HEADER_BYTES
  {
    var parsed := ParsePacket(data, len);
    if !parsed.Parsed? then Threw(f, "not a packet")
    else if f.complete then Returned(f)
    else
      ParseEndsAtHeaderLength(data, len);
      var symbols := PayloadSymbols(data, len, parsed.alc, f.meta.fecOti);
      if symbols.Err? then Threw(f, symbols.what) else PutAll(md5, f, symbols.value)
  }

  /** Symbol (k, j) of an object, as its sender cuts it. */
  function ObjectSymbol(oti: FecOti, data: seq<Byte>, k: nat, j: nat): EncodingSymbol
    requires oti.encodingSymbolLength > 0 && oti.maxSourceBlockLength > 0
  {
    EncodingSymbol(j, k, BytesOf(data, LayoutSymbol(oti, PartitionFor(oti), k, j)))
  }

  /** The packet that carries symbol (k, j): as constructed, the payload size is the symbol length. */
  function ObjectPacket(tsi: U16, toi: U16, oti: FecOti, data: seq<Byte>, k: nat, j: nat, fdtInstanceId: U32): seq<Byte>
    requires oti.encodingSymbolLength > 0 && oti.maxSourceBlockLength > 0
  {
    PacketBytes(tsi, toi, oti, [ObjectSymbol(oti, data, k, j)], oti.encodingSymbolLength, fdtInstanceId)
  }

  ghost predicate HasSymbol(oti: FecOti, k: nat, j: nat)
    requires oti.encodingSymbolLength > 0 && oti.maxSourceBlockLength > 0
  {
    PartitionFor(oti).Has(k, j)
  }

  /** Sender and receiver cut alike. */
  ghost predicate SameCut(oti: FecOti, other: FecOti) {
    && oti.transferLength == other.transferLength
    && oti.encodingSymbolLength == other.encodingSymbolLength
    && oti.maxSourceBlockLength == other.maxSourceBlockLength
  }

  /** What a sending file hands out next is such a symbol. */
  lemma NextSymbolIsObjectSymbol(f: FileState, k: nat, j: nat)
    requires Shaped(f) && f.Has(k, j)
    ensures HasSymbol(f.meta.fecOti, k, j)
    ensures SymbolToSend(f, k, j) == ObjectSymbol(f.meta.fecOti, f.buffer, k, j)
  {
    assert Layout(f.meta.fecOti)[k].symbols[j] == LayoutSymbol(f.meta.fecOti, PartitionFor(f.meta.fecOti), k, j);
  }

  lemma GenuineIsObjectSymbol(f: FileState, oti: FecOti, data: seq<Byte>, k: nat, j: nat)
    requires Shaped(f) && SameCut(oti, f.meta.fecOti) && HasSymbol(oti, k, j) && |data| == |f.buffer|
    ensures f.Has(k, j) && Genuine(f, data, k, j) == ObjectSymbol(oti, data, k, j)
    ensures IsRun([ObjectSymbol(oti, data, k, j)], oti.encodingSymbolLength)
  {
    var p := PartitionFor(f.meta.fecOti);
    assert p == PartitionFor(oti);
    assert Layout(f.meta.fecOti)[k].symbols[j] == LayoutSymbol(oti, p, k, j);
    PlaceOf(f, k, j);
    PartitionMeetsRfc5052(oti.transferLength, oti.encodingSymbolLength, oti.maxSourceBlockLength);
  }

  /** A file has the symbols its FEC values say. */
  lemma FileHasSymbol(f: FileState, k: nat, j: nat)
    requires Shaped(f)
    ensures f.Has(k, j) <==> HasSymbol(f.meta.fecOti, k, j)
  {
    if f.Has(k, j) {
      NextSymbolIsObjectSymbol(f, k, j);
    }
    if HasSymbol(f.meta.fecOti, k, j) {
      GenuineIsObjectSymbol(f, f.meta.fecOti, f.buffer, k, j);
    }
  }

  /** An object no longer than a symbol has one. */
  lemma OneSymbol(oti: FecOti, k: nat, j: nat)
    requires oti.encodingSymbolLength > 0 && oti.maxSourceBlockLength > 0
    requires 0 < oti.transferLength <= oti.encodingSymbolLength
    ensures HasSymbol(oti, k, j) <==> k == 0 && j == 0
  {
    CeilDivUnique(oti.transferLength, oti.encodingSymbolLength, 1);
    CeilDivUnique(1, oti.maxSourceBlockLength, 1);
    CeilDivUnique(1, 1, 1);
  }

  lemma ObjectSymbolIsRun(oti: FecOti, data: seq<Byte>, k: nat, j: nat)
    requires Supported(oti) && HasSymbol(oti, k, j) && |data| == oti.transferLength > 0
    ensures IsRun([ObjectSymbol(oti, data, k, j)], oti.encodingSymbolLength)
  {
    hide PartitionFor;
    var f := NewFile(FileEntry(0, "", 0, "", "", 0, oti, false, None, "", ""), data);
    NewFileShaped(f.meta, data);
    GenuineIsObjectSymbol(f, oti, data, k, j);
  }

  /** A packet parses to its symbol for any file with its symbol length, whatever else is in the receive buffer. */
  lemma PacketCarriesSymbol(
    tsi: U16, toi: U16, oti: FecOti, data: seq<Byte>, k: nat, j: nat, fdtInstanceId: U32, stale: seq<Byte>,
    other: FecOti)
    requires Supported(oti) && HasSymbol(oti, k, j) && |data| == oti.transferLength > 0
    requires other.encodingSymbolLength == oti.encodingSymbolLength && other.encodingId == COMPACT_NO_CODE
    requires |ObjectPacket(tsi, toi, oti, data, k, j, fdtInstanceId) + stale| >= MAX_HEADER_BYTES
    ensures var packet := ObjectPacket(tsi, toi, oti, data, k, j, fdtInstanceId);
      var alc := ReceivedHeader(tsi, toi, oti, fdtInstanceId);
      && ParsePacket(packet + stale, |packet|) == Parsed(alc, alc.HeaderLength())
      && alc.HeaderLength() <= |packet + stale|
      && PayloadSymbols(packet + stale, |packet|, alc, other) == Ok([ObjectSymbol(oti, data, k, j)])
  {
    var e, symbol := oti.encodingSymbolLength, ObjectSymbol(oti, data, k, j);
    ObjectSymbolIsRun(oti, data, k, j);
    PacketRoundTrip(tsi, toi, oti, [symbol], e, fdtInstanceId, stale);
    PayloadRoundTrip([symbol], e, e, stale);
  }

  /** A packet of the object, whatever else is in the receive buffer, puts exactly its symbol. */
  lemma PacketPutsItsSymbol(
    md5: Md5, f: FileState, tsi: U16, toi: U16, oti: FecOti, data: seq<Byte>, k: nat, j: nat, fdtInstanceId: U32,
    stale: seq<Byte>)
    requires Partial(md5, f, data) && SameCut(oti, f.meta.fecOti) && HasSymbol(oti, k, j)
    requires f.meta.fecOti.encodingId == COMPACT_NO_CODE
    requires |ObjectPacket(tsi, toi, oti, data, k, j, fdtInstanceId) + stale| >= MAX_HEADER_BYTES
    ensures f.Has(k, j)
    ensures var packet := ObjectPacket(tsi, toi, oti, data, k, j, fdtInstanceId);
      var alc := ReceivedHeader(tsi, toi, oti, fdtInstanceId);
      && ParsePacket(packet + stale, |packet|) == Parsed(alc, alc.HeaderLength())
      && alc.HeaderLength() <= |packet + stale|
      && PayloadSymbols(packet + stale, |packet|, alc, f.meta.fecOti) == Ok([Genuine(f, data, k, j)])
  {
    GenuineIsObjectSymbol(f, oti, data, k, j);
    PacketCarriesSymbol(tsi, toi, oti, data, k, j, fdtInstanceId, stale, f.meta.fecOti);
  }

  lemma ArriveIsPut(
    md5: Md5, f: FileState, tsi: U16, toi: U16, oti: FecOti, data: seq<Byte>, k: nat, j: nat, fdtInstanceId: U32,
    stale: seq<Byte>)
    requires Partial(md5, f, data) && SameCut(oti, f.meta.fecOti) && HasSymbol(oti, k, j)
    requires f.meta.fecOti.encodingId == COMPACT_NO_CODE
    requires |ObjectPacket(tsi, toi, oti, data, k, j, fdtInstanceId) + stale| >= MAX_HEADER_BYTES
    ensures f.Has(k, j)
    ensures var packet := ObjectPacket(tsi, toi, oti, data, k, j, fdtInstanceId);
      Arrive(md5, f, packet + stale, |packet|) == PutSymbol(md5, f, Genuine(f, data, k, j))
  {
    PacketPutsItsSymbol(md5, f, tsi, toi, oti, data, k, j, fdtInstanceId, stale);
    CompleteMeansAllSymbols(md5, f);
    PutGenuine(md5, f, data, k, j);
    PutAllOne(md5, f, Genuine(f, data, k, j));
  }

  lemma PutAllOne(md5: Md5, f: FileState, s: EncodingSymbol)
    ensures PutAll(md5, f, [s]) == PutSymbol(md5, f, s)
  {
    assert [s][1..] == [];
  }

  // ---------------------------------------------------------------------------------------------
  // A whole run
  // ---------------------------------------------------------------------------------------------

  /** One arrival: which symbol's packet, and what the receive buffer holds behind it. */
  datatype Arrival = Arrival(k: nat, j: nat, stale: seq<Byte>)

  /** The session's packets of one object. */
  datatype Stream = Stream(tsi: U16, toi: U16, oti: FecOti, data: seq<Byte>, fdtInstanceId: U32) {
    ghost predicate Valid() {
      Supported(oti) && |data| == oti.transferLength > 0
    }

    function Packet(k: nat, j: nat): seq<Byte>
      requires oti.encodingSymbolLength > 0 && oti.maxSourceBlockLength > 0
    {
      ObjectPacket(tsi, toi, oti, data, k, j, fdtInstanceId)
    }

    /** The receive buffer holds the packet, and is larger than any header. */
    predicate Fits(a: Arrival)
      requires oti.encodingSymbolLength > 0 && oti.maxSourceBlockLength > 0
    {
      |Packet(a.k, a.j) + a.stale| >= MAX_HEADER_BYTES
    }

    ghost predicate Carries(arrivals: seq<Arrival>)
      requires oti.encodingSymbolLength > 0 && oti.maxSourceBlockLength > 0
    {
      forall i :: 0 <= i < |arrivals| ==> Fits(arrivals[i]) && HasSymbol(oti, arrivals[i].k, arrivals[i].j)
    }
  }

  function ArriveOne(md5: Md5, f: FileState, s: Stream, a: Arrival): Outcome<FileState>
    requires s.oti.encodingSymbolLength > 0 && s.oti.maxSourceBlockLength > 0 && s.Fits(a)
  {
    var packet := s.Packet(a.k, a.j);
    Arrive(md5, f, packet + a.stale, |packet|)
  }

  /** Any finite sequence of arrivals: losing, repeating and reordering packets gives such a sequence. */
  function ArriveAll(md5: Md5, f: FileState, s: Stream, arrivals: seq<Arrival>): Outcome<FileState>
    requires s.oti.encodingSymbolLength > 0 && s.oti.maxSourceBlockLength > 0
    requires forall i :: 0 <= i < |arrivals| ==> s.Fits(arrivals[i])
    decreases |arrivals|
  {
    if arrivals == [] then Returned(f)
    else
      var first := ArriveOne(md5, f, s, arrivals[0]);
      if first.Threw? then first else ArriveAll(md5, first.state, s, arrivals[1..])
  }

  ghost predicate Arrived(arrivals: seq<Arrival>, k: nat, j: nat) {
    exists i :: 0 <= i < |arrivals| && arrivals[i].k == k && arrivals[i].j == j
  }

  /** Place (k, j) of `g`: complete if it was or its packet arrived, and untouched otherwise. */
  ghost predicate PlaceAfter(f: FileState, g: FileState, arrivals: seq<Arrival>, k: nat, j: nat) {
    && (g.Has(k, j) <==> f.Has(k, j))
    && (f.Has(k, j) ==>
          && g.At(k, j) == f.At(k, j).(complete := f.At(k, j).complete || Arrived(arrivals, k, j))
          && (!g.At(k, j).complete ==> BytesOf(g.buffer, f.At(k, j)) == BytesOf(f.buffer, f.At(k, j))))
  }

  lemma {:induction false} ArriveAllFrom(md5: Md5, f: FileState, s: Stream, arrivals: seq<Arrival>)
    requires s.Valid() && Partial(md5, f, s.data) && SameCut(s.oti, f.meta.fecOti)
    requires f.meta.fecOti.encodingId == COMPACT_NO_CODE
    requires s.Carries(arrivals)
    ensures var r := ArriveAll(md5, f, s, arrivals);
      && r.Returned? && Partial(md5, r.state, s.data)
      && r.state.meta == f.meta && r.state.fdtInstanceId == f.fdtInstanceId
      && forall k: nat, j: nat :: PlaceAfter(f, r.state, arrivals, k, j)
    decreases |arrivals|
  {
    if arrivals != [] {
      var a := arrivals[0];
      ArriveIsPut(md5, f, s.tsi, s.toi, s.oti, s.data, a.k, a.j, s.fdtInstanceId, a.stale);
      PutGenuine(md5, f, s.data, a.k, a.j);
      var g := PutSymbol(md5, f, Genuine(f, s.data, a.k, a.j)).state;
      ArriveAllFrom(md5, g, s, arrivals[1..]);
      var h := ArriveAll(md5, g, s, arrivals[1..]).state;
      forall k: nat, j: nat
        ensures PlaceAfter(f, h, arrivals, k, j)
      {
        assert DeliversAt(f, g, a.k, a.j, k, j);
        assert PlaceAfter(g, h, arrivals[1..], k, j);
        ArrivedNext(arrivals, k, j);
      }
    }
  }

  lemma ArrivedNext(arrivals: seq<Arrival>, k: nat, j: nat)
    requires arrivals != []
    ensures Arrived(arrivals, k, j) <==> (arrivals[0].k == k && arrivals[0].j == j) || Arrived(arrivals[1..], k, j)
  {
    if i :| 0 <= i < |arrivals| && arrivals[i].k == k && arrivals[i].j == j {
      assert i > 0 ==> arrivals[1..][i - 1] == arrivals[i];
    }
    if i :| 0 <= i < |arrivals[1..]| && arrivals[1..][i].k == k && arrivals[1..][i].j == j {
      assert arrivals[i + 1] == arrivals[1..][i];
    }
  }

  /**
   * The end-to-end law.  A receiving file cut like the sender's, over any buffer contents, after any sequence of
   * the object's packets: nothing is thrown, each complete symbol holds the sender's bytes, a symbol is
   * complete exactly when its packet arrived, and the file is complete exactly when every packet arrived at
   * least once, with the buffer then equal to the object.
   */
  lemma EveryObjectArrives(md5: Md5, meta: FileEntry, buffer: seq<Byte>, s: Stream, arrivals: seq<Arrival>)
    requires s.Valid() && SameCut(s.oti, meta.fecOti) && meta.fecOti.encodingId == COMPACT_NO_CODE
    requires |buffer| == |s.data| && GenuineDigest(md5, meta, s.data)
    requires s.Carries(arrivals)
    ensures Supported(meta.fecOti)
    ensures var r := ArriveAll(md5, NewFile(meta, buffer), s, arrivals);
      && r.Returned?
      && (forall k: nat, j: nat :: r.state.Has(k, j) <==> HasSymbol(s.oti, k, j))
      && (forall k: nat, j: nat :: r.state.Has(k, j) ==> (r.state.At(k, j).complete <==> Arrived(arrivals, k, j)))
      && (forall k: nat, j: nat :: r.state.Has(k, j) && r.state.At(k, j).complete ==>
            BytesOf(r.state.buffer, r.state.At(k, j)) == BytesOf(s.data, r.state.At(k, j)))
      && (r.state.complete <==> forall k: nat, j: nat :: HasSymbol(s.oti, k, j) ==> Arrived(arrivals, k, j))
      && (r.state.complete ==> r.state.buffer == s.data)
  {
    SupportedAlike(s.oti, meta.fecOti);
    var f := NewFile(meta, buffer);
    NewFilePartial(md5, meta, buffer, s.data);
    ArriveAllFrom(md5, f, s, arrivals);
    var g := ArriveAll(md5, f, s, arrivals).state;
    forall k: nat, j: nat
      ensures g.Has(k, j) <==> HasSymbol(s.oti, k, j)
      ensures g.Has(k, j) ==> (g.At(k, j).complete <==> Arrived(arrivals, k, j))
    {
      assert PlaceAfter(f, g, arrivals, k, j);
      SameHas(f, s.oti, k, j);
    }
    CompleteMeansAllSymbols(md5, g);
    if g.complete {
      CompleteFileIsData(md5, g, s.data);
    }
  }

  lemma SupportedAlike(oti: FecOti, other: FecOti)
    requires Supported(oti) && SameCut(oti, other)
    ensures Supported(other)
  {
  }

  lemma SameHas(f: FileState, oti: FecOti, k: nat, j: nat)
    requires Shaped(f) && SameCut(oti, f.meta.fecOti)
    ensures f.Has(k, j) <==> HasSymbol(oti, k, j)
  {
    var p := PartitionFor(f.meta.fecOti);
    assert p == PartitionFor(oti);
    if k < p.blocks {
      assert |Layout(f.meta.fecOti)[k].symbols| == p.BlockLength(k);
    }
  }

  /** Order and repetition do not matter: the same set of packets gives the same file, down to its buffer. */
  lemma OnlyTheSetMatters(md5: Md5, f: FileState, s: Stream, one: seq<Arrival>, two: seq<Arrival>)
    requires s.Valid() && Partial(md5, f, s.data) && SameCut(s.oti, f.meta.fecOti)
    requires f.meta.fecOti.encodingId == COMPACT_NO_CODE
    requires s.Carries(one)
    requires s.Carries(two)
    requires forall k: nat, j: nat :: Arrived(one, k, j) <==> Arrived(two, k, j)
    ensures ArriveAll(md5, f, s, one) == ArriveAll(md5, f, s, two)
  {
    ArriveAllFrom(md5, f, s, one);
    ArriveAllFrom(md5, f, s, two);
    var g, h := ArriveAll(md5, f, s, one).state, ArriveAll(md5, f, s, two).state;
    forall k: nat, j: nat
      ensures g.Has(k, j) <==> h.Has(k, j)
      ensures g.Has(k, j) ==> g.At(k, j) == h.At(k, j) && BytesOf(g.buffer, g.At(k, j)) == BytesOf(h.buffer, g.At(k, j))
    {
      assert PlaceAfter(f, g, one, k, j) && PlaceAfter(f, h, two, k, j);
    }
    AllSlicesGiveData(g, h.buffer);
    SamePlacesSameBlocks(md5, g, h);
  }

  lemma SamePlacesSameBlocks(md5: Md5, g: FileState, h: FileState)
    requires Shaped(g) && Shaped(h) && Coherent(md5, g) && Coherent(md5, h) && g.meta == h.meta
    requires forall k: nat, j: nat :: g.Has(k, j) ==> h.Has(k, j) && g.At(k, j) == h.At(k, j)
    ensures g.blocks == h.blocks && g.complete == h.complete
  {
    forall k | 0 <= k < |g.blocks|
      ensures g.blocks[k] == h.blocks[k]
    {
      forall j | 0 <= j < |g.blocks[k].symbols|
        ensures g.blocks[k].symbols[j] == h.blocks[k].symbols[j]
      {
        assert g.Has(k, j);
      }
      assert g.blocks[k].symbols == h.blocks[k].symbols;
    }
  }
}
