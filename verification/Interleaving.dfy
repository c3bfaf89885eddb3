/**
 * FDT packets of different texts (src/Receiver.cpp:71-88): the receiver puts them into one file.  When every text is
 * one symbol nothing can go wrong; with two symbols a text nobody sent can be installed.
 */
module Interleaving {
  import opened Bytes
  import opened Arithmetic
  import opened Flute
  import opened Partitioning
  import opened EncodingSymbols
  import opened AlcPackets
  import opened Files
  import opened Completion
  import opened EndToEnd
  import opened FdtXml
  import opened Receivers
  import opened ReceiverSafety
  import opened ReceiverStalls

  // ---------------------------------------------------------------------------------------------
  // How many symbols a text has
  // ---------------------------------------------------------------------------------------------

  lemma TwoSymbols(oti: FecOti, k: nat, j: nat)
    requires oti.encodingSymbolLength > 0 && oti.maxSourceBlockLength >= 2
    requires oti.encodingSymbolLength < oti.transferLength <= oti.encodingSymbolLength as int + oti.encodingSymbolLength
    ensures HasSymbol(oti, k, j) <==> k == 0 && j < 2
    ensures LayoutSymbol(oti, PartitionFor(oti), 0, 0) == HalfPlace(oti, 0)
    ensures LayoutSymbol(oti, PartitionFor(oti), 0, 1) == HalfPlace(oti, 1)
  {
    hide PartitionFor, LayoutSymbol;
    TwoSymbolPartition(oti);
    TwoPlaces(oti, PartitionFor(oti));
  }

  lemma TwoSymbolPartition(oti: FecOti)
    requires oti.encodingSymbolLength > 0 && oti.maxSourceBlockLength >= 2
    requires oti.encodingSymbolLength < oti.transferLength <= oti.encodingSymbolLength as int + oti.encodingSymbolLength
    ensures PartitionFor(oti) == Partition(2, 1, 2, 2, 0)
  {
    hide CeilDiv;
    var e: nat := oti.encodingSymbolLength;
    assert e * 2 == e + e && e * (2 - 1) == e;
    CeilDivUnique(oti.transferLength, e, 2);
    CeilDivUnique(2, oti.maxSourceBlockLength, 1);
    CeilDivUnique(2, 1, 2);
  }

  lemma TwoPlaces(oti: FecOti, p: Partition)
    requires p == Partition(2, 1, 2, 2, 0) && oti.encodingSymbolLength < oti.transferLength
    requires oti.transferLength <= oti.encodingSymbolLength as int + oti.encodingSymbolLength
    ensures LayoutSymbol(oti, p, 0, 0) == HalfPlace(oti, 0)
    ensures LayoutSymbol(oti, p, 0, 1) == HalfPlace(oti, 1)
  {
    hide Offset, SymbolLength, Partition.Index;
    IndexInFirstBlock(p, 0);
    IndexInFirstBlock(p, 1);
    FirstPlace(oti.encodingSymbolLength, oti.transferLength);
    SecondPlace(oti.encodingSymbolLength, oti.transferLength);
  }

  lemma IndexInFirstBlock(p: Partition, j: nat)
    ensures p.Index(0, j) == j
  {
    NothingBeforeFirstBlock(p);
    hide Partition.BlockStart;
  }

  lemma NothingBeforeFirstBlock(p: Partition)
    ensures p.BlockStart(0) == 0
  {
  }

  lemma FirstPlace(e: nat, l: nat)
    requires e < l
    ensures Offset(e, 0) == 0 && SymbolLength(l, e, 0) == e
  {
  }

  lemma SecondPlace(e: nat, l: nat)
    requires e < l <= e + e
    ensures Offset(e, 1) == e && SymbolLength(l, e, 1) == l - e
  {
  }

  /** The place of the first or second half. */
  function HalfPlace(oti: FecOti, j: nat): Symbol {
    var e, l: int := oti.encodingSymbolLength, oti.transferLength;
    if j == 0 then Symbol(0, e, false, false) else Symbol(e, l - e, false, false)
  }

  // ---------------------------------------------------------------------------------------------
  // Tables of one symbol
  // ---------------------------------------------------------------------------------------------

  ghost predicate SingleSymbolTables(ss: Session) {
    forall n :: 0 <= n < |ss.tables| ==> |ss.Document(n)| <= ss.fdtOti.encodingSymbolLength
  }

  /** A text of one symbol is complete with its only packet. */
  lemma OnlySymbolCompletes(c: RxConfig, o: Object, f: FileState)
    requires Receiving(c, o, f) && f.Has(0, 0) && |o.data| <= o.oti.encodingSymbolLength
    ensures PutAll(c.md5, f, [Genuine(f, o.data, 0, 0)]).state.complete
  {
    hide PutSymbol;
    PutAllOne(c.md5, f, Genuine(f, o.data, 0, 0));
    PutGenuine(c.md5, f, o.data, 0, 0);
    var g := PutSymbol(c.md5, f, Genuine(f, o.data, 0, 0)).state;
    forall k: nat, j: nat | g.Has(k, j)
      ensures g.At(k, j).complete
    {
      assert DeliversAt(f, g, 0, 0, k, j);
      OneSymbol(f.meta.fecOti, k, j);
      NextSymbolIsObjectSymbol(f, k, j);
    }
    CompleteMeansAllSymbols(c.md5, g);
  }

  /** After a packet of such a table no FDT is left half received. */
  lemma PacketLeavesNoFdt(c: RxConfig, ss: Session, s: Reception, p: Packet)
    requires SessionGood(c, ss) && Safe(c, ss, s) && IsGenuine(c, ss, p) && p.FdtPacketOf? && SingleSymbolTables(ss)
    requires 0 !in s.rx.files
    ensures 0 !in AfterPacket(c, ss, s, p).rx.files
  {
    hide ToXml, TableGood, Receiving, LogGood, TrackedObject, HasSymbol, PutsRight, FdtSymbol, PutAll;
    FdtPacketHandled(c, ss, s, p);
    var alc := HeaderOf(c, ss, p);
    var r := Opened(c, s.rx, alc);
    if 0 in r.files {
      var n, g := FdtPacketProgress(c, ss, s, p);
      var o, f := ss.Announcement(n), r.files[0];
      FdtHeaderCutsAlike(c, ss, n);
      AnnouncementIsGood(c, ss, n);
      OneSymbol(o.oti, p.k, p.j);
      ReceivingIsPlain(c, o, f);
      OnlySymbolCompletes(c, o, f);
      hide Opened, HeaderOf, Completed, IsGenuine, SafeApartFromFdt;
      InstallIsSafe(c, ss, r, g, n, alc);
    }
  }

  lemma StepLeavesNoFdt(c: RxConfig, ss: Session, s: Reception, step: Step)
    requires SessionGood(c, ss) && Safe(c, ss, s) && StepGenuine(c, ss, step) && SingleSymbolTables(ss) && c.hasCallback
    requires 0 !in s.rx.files
    ensures Safe(c, ss, After(c, ss, s, step)) && 0 !in After(c, ss, s, step).rx.files
  {
    hide SessionGood, Safe, IsGenuine, Receive, AfterPacket, SingleSymbolTables;
    StepIsSafe(c, ss, s, step);
    if step.Arrives? {
      if step.packet.FdtPacketOf? {
        PacketLeavesNoFdt(c, ss, s, step.packet);
      } else {
        ObjectPacketIsSafe(c, ss, s, step.packet);
      }
    }
  }

  lemma {:induction false} SingleSymbolsNeverInterleave(c: RxConfig, ss: Session, s: Reception, steps: seq<Step>)
    requires SessionGood(c, ss) && Safe(c, ss, s) && SingleSymbolTables(ss) && c.hasCallback && RunGenuine(c, ss, steps)
    requires 0 !in s.rx.files
    ensures RunNotInterleaved(c, ss, s, steps)
    decreases |steps|
  {
    hide SessionGood, Safe, StepGenuine, After, SingleSymbolTables;
    if steps != [] {
      assert StepGenuine(c, ss, steps[0]);
      StepLeavesNoFdt(c, ss, s, steps[0]);
      SingleSymbolsNeverInterleave(c, ss, After(c, ss, s, steps[0]), steps[1..]);
    }
  }

  /** Safety without any condition on the order of packets, when every announced text fits one symbol. */
  lemma SingleSymbolTablesAreSafe(c: RxConfig, ss: Session, steps: seq<Step>)
    requires SessionGood(c, ss) && c.hasCallback && RunGenuine(c, ss, steps) && SingleSymbolTables(ss)
    ensures RunReturns(c, ss, Fresh(ss), steps)
    ensures DeliveriesRight(ss, AfterAll(c, ss, Fresh(ss), steps).rx.log)
  {
    hide SessionGood, RunGenuine, SingleSymbolTables, RunNotInterleaved, RunFitsText, RunReturns, DeliveriesRight;
    SingleSymbolsNeverInterleave(c, ss, Fresh(ss), steps);
    UninterleavedRunFits(c, ss, Fresh(ss), steps);
    CallbacksAreSafe(c, ss, steps);
  }

  // ---------------------------------------------------------------------------------------------
  // Tables of two symbols
  // ---------------------------------------------------------------------------------------------

  /** While an FDT is being received, a packet goes into it whatever instance its header names. */
  lemma InstancesAreNotSeparated(c: RxConfig, r: Rx, data: seq<Byte>, len: nat, alc: Alc, other: U32)
    requires alc.toi == 0 && 0 in r.files && alc.HeaderLength() <= |data|
    requires var symbols := PayloadSymbols(data, len, alc, r.files[0].meta.fecOti);
      symbols.Ok? ==> !PutAll(c.md5, r.files[0], symbols.value).state.complete
    ensures Handle(c, r, data, len, alc.(fdtInstanceId := other)) == Handle(c, r, data, len, alc)
  {
    hide PutAll, ParsedSymbols;
  }

  /**
   * While an FDT is being received, a packet of TOI 0, of whatever text, puts its symbol into that file; the file stays
   * on its way to its text, if and only if the packet fits.
   */
  lemma FitsTextIsExact(c: RxConfig, ss: Session, s: Reception, p: Packet)
    requires Safe(c, ss, s) && IsGenuine(c, ss, p) && p.FdtPacketOf? && 0 in s.rx.files
    ensures s.current.Some? && s.current.value < |ss.tables|
    ensures var put := PutSymbol(c.md5, s.rx.files[0], FdtSymbol(ss, p));
      && Received(c, ss, s.rx, p) == Fed(c, s.rx, HeaderOf(c, ss, p), [FdtSymbol(ss, p)])
      && (put.Returned? && Partial(c.md5, put.state, ss.Document(s.current.value)) <==> FitsText(ss, s, p))
  {
    hide ToXml, TableGood, Partial, PutsRight, FdtSymbol, PutSymbol, PutAll, LogGood, TrackedObject, Fed, ParsePacket,
         PayloadSymbols, PacketOf;
    var f, n := s.rx.files[0], s.current.value;
    GenuineIsSendable(c, ss, p);
    FdtPacketParses(c, ss, p, f, n);
    PutsRightIsExact(c.md5, f, ss.Document(n), FdtSymbol(ss, p));
  }

  /** One of two symbols completes its place, and the file only if the other is complete. */
  lemma PartOfTwo(c: RxConfig, o: Object, f: FileState, j: nat)
    requires Receiving(c, o, f) && j < 2 && f.Has(0, 0) && f.Has(0, 1)
    requires forall k: nat, i: nat :: f.Has(k, i) <==> k == 0 && i < 2
    ensures var g := PutAll(c.md5, f, [Genuine(f, o.data, 0, j)]).state;
      && g.Has(0, 0) && g.Has(0, 1) && g.At(0, j).complete && (g.complete <==> f.At(0, 1 - j).complete)
      && (!g.complete ==> Receiving(c, o, g)) && (g.complete ==> g.buffer == o.data) && g.meta == f.meta
      && g.At(0, 1 - j) == f.At(0, 1 - j) && forall k: nat, i: nat :: g.Has(k, i) <==> k == 0 && i < 2
  {
    hide PutSymbol, Supported, Genuine, PutAll;
    var symbol := Genuine(f, o.data, 0, j);
    PutAllOne(c.md5, f, symbol);
    PutGenuine(c.md5, f, o.data, 0, j);
    PutIsReceiving(c, o, f, 0, j);
    var g := PutSymbol(c.md5, f, symbol).state;
    assert DeliversAt(f, g, 0, j, 0, 0) && DeliversAt(f, g, 0, j, 0, 1);
    CompleteMeansAllSymbols(c.md5, g);
    forall k: nat, i: nat
      ensures g.Has(k, i) <==> k == 0 && i < 2
    {
      assert DeliversAt(f, g, 0, j, k, i);
    }
  }

  // ---------------------------------------------------------------------------------------------
  // Two texts in one file
  // ---------------------------------------------------------------------------------------------

  /** An FDT as it is sent. */
  datatype Text = Text(oti: FecOti, data: seq<Byte>, id: U16)

  ghost predicate TextGood(t: Text) {
    ObjectGood(Object(t.oti, t.data)) && |t.data| < 0x1_0000 && t.oti.encodingSymbolLength < 0x1_0000
  }

  /** A packet of a text in a receive buffer. */
  ghost function TextDatagram(tsi: U16, t: Text, k: nat, j: nat, stale: seq<Byte>): Datagram
    requires CanCut(t.oti)
  {
    var packet := ObjectPacket(tsi, 0, t.oti, t.data, k, j, t.id);
    Datagram(packet + stale, |packet|)
  }

  lemma TextHeader(tsi: U16, t: Text)
    requires TextGood(t)
    ensures var alc := ReceivedHeader(tsi, 0, t.oti, t.id);
      && alc.tsi == tsi && alc.toi == 0 && alc.fdtInstanceId == t.id
      && SameCut(t.oti, alc.fecOti) && alc.fecOti.encodingId == COMPACT_NO_CODE && CanCut(alc.fecOti)
  {
  }

  /** A packet of TOI 0 goes to the file that is there, or that it opens. */
  lemma TextPacketFed(c: RxConfig, r: Rx, tsi: U16, t: Text, k: nat, j: nat, stale: seq<Byte>)
    requires TextGood(t) && HasSymbol(t.oti, k, j) && |stale| >= MAX_HEADER_BYTES && r.tsi == tsi
    requires var alc := ReceivedHeader(tsi, 0, t.oti, t.id);
      && (OpensFdt(r, alc) ==> CanCut(alc.fecOti))
      && var files := Opened(c, r, alc).files;
      && 0 in files && !files[0].complete && files[0].meta.fecOti.encodingId == COMPACT_NO_CODE
      && files[0].meta.fecOti.encodingSymbolLength == t.oti.encodingSymbolLength
    ensures var d, alc := TextDatagram(tsi, t, k, j, stale), ReceivedHeader(tsi, 0, t.oti, t.id);
      Receive(c, r, d.data, d.len) == Fed(c, Opened(c, r, alc), alc, [ObjectSymbol(t.oti, t.data, k, j)])
  {
    hide ParsePacket, PayloadSymbols, ObjectPacket, Fed, Supported, ReceivedHeader, Opened, OpensFdt;
    TextHeader(tsi, t);
    var alc := ReceivedHeader(tsi, 0, t.oti, t.id);
    PacketCarriesSymbol(tsi, 0, t.oti, t.data, k, j, t.id, stale, Opened(c, r, alc).files[0].meta.fecOti);
  }

  /** The text has two symbols. */
  ghost predicate TwoSymbolText(t: Text) {
    && TextGood(t) && t.oti.maxSourceBlockLength >= 2
    && var e: int := t.oti.encodingSymbolLength;
    e < |t.data| <= e + e
  }

  /** Another text, cut alike, has at least two. */
  ghost predicate LongerText(t: Text, u: Text) {
    && TextGood(u) && u.oti.encodingSymbolLength == t.oti.encodingSymbolLength < |u.data|
    && u.oti.maxSourceBlockLength >= 2
  }

  lemma SecondSymbol(oti: FecOti)
    requires oti.encodingSymbolLength > 0 && oti.maxSourceBlockLength >= 2
    requires oti.transferLength > oti.encodingSymbolLength
    ensures HasSymbol(oti, 0, 0) && HasSymbol(oti, 0, 1)
  {
    hide CeilDiv, PartitionOf;
    var t, b: nat := CeilDiv(oti.transferLength, oti.encodingSymbolLength), oti.maxSourceBlockLength;
    var p := PartitionFor(oti);
    PartitionMeetsRfc5052(oti.transferLength, oti.encodingSymbolLength, b);
    CeilDivBounds(oti.transferLength, oti.encodingSymbolLength);
    assert t >= 2;
    if p.large < 2 {
      OneSymbolBlocks(p, t);
      MulMonotone(p.blocks - 1, 2, b);
      assert false;
    }
  }

  lemma LongerHasTwo(t: Text, u: Text)
    requires LongerText(t, u)
    ensures HasSymbol(u.oti, 0, 0) && HasSymbol(u.oti, 0, 1)
  {
    hide HasSymbol, PartitionOf;
    SecondSymbol(u.oti);
  }

  lemma OneSymbolBlocks(p: Partition, t: nat)
    requires p.nLarge < p.blocks && p.small == p.large == 1
    requires p.nLarge * p.large + (p.blocks - p.nLarge) * p.small == t
    ensures t == p.blocks
  {
  }

  /** The memory of the file with the first symbol of the text in it. */
  ghost function HalfFilled(c: RxConfig, t: Text): (half: seq<Byte>)
    requires CanCut(t.oti)
    ensures |half| == |t.data|
  {
    Decoded(Fill(|t.data|, c.memory(0)), HalfPlace(t.oti, 0), ObjectSymbol(t.oti, t.data, 0, 0).data)
  }

  /**
   * What the file at TOI 0 holds in the end: the first symbol of the text that opened it, and in the second place the
   * second symbol of the other text, if it is not too long, over what the memory held.
   */
  ghost function Mixed(c: RxConfig, t: Text, u: Text): (mixed: seq<Byte>)
    requires TwoSymbolText(t) && LongerText(t, u)
    ensures |mixed| == |t.data|
  {
    Decoded(HalfFilled(c, t), HalfPlace(t.oti, 1), ObjectSymbol(u.oti, u.data, 0, 1).data)
  }

  /** Of two texts of equal length, the first half of the one and the second half of the other. */
  lemma MixedHalves(c: RxConfig, t: Text, u: Text)
    requires TwoSymbolText(t) && LongerText(t, u)
    ensures var e := t.oti.encodingSymbolLength;
      && Mixed(c, t, u)[..e] == t.data[..e]
      && (|u.data| == |t.data| ==> Mixed(c, t, u)[e..] == u.data[e..])
  {
    TwoSymbols(t.oti, 0, 0);
    if |u.data| == |t.data| {
      TwoSymbols(u.oti, 0, 0);
    }
  }

  /** The second symbol leaves the first place alone. */
  lemma MixedKeepsFirst(c: RxConfig, t: Text, u: Text)
    requires TwoSymbolText(t) && LongerText(t, u)
    ensures BytesOf(Mixed(c, t, u), HalfPlace(t.oti, 0)) == BytesOf(HalfFilled(c, t), HalfPlace(t.oti, 0))
  {
    hide HalfFilled, ObjectSymbol, Decoded, BytesOf;
    DecodedElsewhere(
      HalfFilled(c, t), HalfPlace(t.oti, 1), ObjectSymbol(u.oti, u.data, 0, 1).data, HalfPlace(t.oti, 0));
  }

  /** The first symbol of the one text puts its place right for the mixed text, ... */
  lemma FirstPutsRight(c: RxConfig, t: Text, u: Text, f: FileState)
    requires TwoSymbolText(t) && LongerText(t, u)
    requires f.Has(0, 0) && f.At(0, 0) == HalfPlace(t.oti, 0) && f.buffer == Fill(|t.data|, c.memory(0))
    ensures PutsRight(f, Mixed(c, t, u), ObjectSymbol(t.oti, t.data, 0, 0))
  {
    hide Decoded, BytesOf, HalfPlace, LayoutSymbol, PartitionOf, ObjectGood, Mixed, Fill;
    MixedKeepsFirst(c, t, u);
  }

  /** ... and so does the second symbol of the other. */
  lemma SecondPutsRight(c: RxConfig, t: Text, u: Text, f: FileState)
    requires TwoSymbolText(t) && LongerText(t, u)
    requires f.Has(0, 1) && f.At(0, 1) == HalfPlace(t.oti, 1) && f.buffer == HalfFilled(c, t)
    ensures PutsRight(f, Mixed(c, t, u), ObjectSymbol(u.oti, u.data, 0, 1))
  {
    hide Decoded, BytesOf, HalfPlace, HalfFilled, LayoutSymbol, PartitionOf, ObjectGood;
  }

  /** The file after the first packet: its second half is still what the memory held. */
  ghost predicate HalfFile(c: RxConfig, t: Text, o: Object, f: FileState)
    requires CanCut(t.oti)
  {
    && Receiving(c, o, f) && !Gated(f.meta) && f.buffer == HalfFilled(c, t)
    && (forall k: nat, i: nat :: f.Has(k, i) <==> k == 0 && i < 2)
    && f.At(0, 0).complete && f.At(0, 1) == HalfPlace(t.oti, 1)
  }

  ghost predicate HalfReceived(c: RxConfig, t: Text, o: Object, r: Rx)
    requires CanCut(t.oti)
  {
    && r.fdt.None? && r.log == [] && 0 in r.files && (forall u :: u in r.files ==> u == 0)
    && HalfFile(c, t, o, r.files[0])
  }

  /** A file just opened for the text. */
  ghost predicate OpenedFile(c: RxConfig, t: Text, o: Object, f: FileState)
    requires CanCut(t.oti)
  {
    && Receiving(c, o, f) && !Gated(f.meta) && f.buffer == Fill(|t.data|, c.memory(0))
    && (forall k: nat, i: nat :: f.Has(k, i) <==> k == 0 && i < 2)
    && f.At(0, 0) == HalfPlace(t.oti, 0) && f.At(0, 1) == HalfPlace(t.oti, 1)
  }

  ghost function MixedObject(c: RxConfig, t: Text, u: Text): Object
    requires TwoSymbolText(t) && LongerText(t, u)
  {
    Object(t.oti, Mixed(c, t, u))
  }

  lemma PlaceInLayout(f: FileState, oti: FecOti, j: nat)
    requires CanCut(oti) && f.blocks == Layout(oti) && f.Has(0, j)
    ensures f.At(0, j) == LayoutSymbol(oti, PartitionFor(oti), 0, j)
  {
    hide PartitionOf, LayoutSymbol;
  }

  /** The file a packet of the first text opens. */
  lemma OpenedForText(c: RxConfig, t: Text, o: Object, alc: Alc)
    requires TwoSymbolText(t) && ObjectGood(o) && o.oti == t.oti
    requires SameCut(t.oti, alc.fecOti) && alc.fecOti.encodingId == COMPACT_NO_CODE
    ensures CanCut(alc.fecOti)
    ensures var f := ReceivingFile(c, 0, FdtEntry(alc));
      OpenedFile(c, t, o, f) && f.meta.fecOti == alc.fecOti
  {
    hide Supported, PartitionOf;
    assert o.oti.transferLength == |t.data|;
    NewFileIsReceiving(c, 0, o, FdtEntry(alc));
    var f := ReceivingFile(c, 0, FdtEntry(alc));
    forall k: nat, i: nat
      ensures f.Has(k, i) <==> k == 0 && i < 2
    {
      FileHasSymbol(f, k, i);
      TwoSymbols(alc.fecOti, k, i);
    }
    TwoSymbols(alc.fecOti, 0, 0);
    assert f.Has(0, 0) && f.Has(0, 1);
    PlaceInLayout(f, alc.fecOti, 0);
    PlaceInLayout(f, alc.fecOti, 1);
  }

  /** The first symbol of the one text goes into the file. */
  lemma FirstPut(c: RxConfig, t: Text, u: Text, f: FileState)
    requires TwoSymbolText(t) && LongerText(t, u) && OpenedFile(c, t, MixedObject(c, t, u), f)
    ensures var put := PutAll(c.md5, f, [ObjectSymbol(t.oti, t.data, 0, 0)]);
      put.Returned? && !put.state.complete && HalfFile(c, t, MixedObject(c, t, u), put.state)
  {
    hide LayoutSymbol, PartitionOf, BytesOf, PutAll, PutSymbol, Receiving, ObjectGood, PutsRight, Mixed, HalfFilled,
         Fill;
    var o, s := MixedObject(c, t, u), ObjectSymbol(t.oti, t.data, 0, 0);
    FirstPutsRight(c, t, u, f);
    ReceivingIsPartial(c, o, f);
    RightIsGenuine(c.md5, f, o.data, s);
    PutAllOne(c.md5, f, s);
    PutAllOne(c.md5, f, Genuine(f, o.data, 0, 0));
    PartOfTwo(c, o, f, 0);
    PutIsReceiving(c, o, f, 0, 0);
    FirstBuffer(c, t, f);
  }

  lemma FirstHalf(c: RxConfig, tsi: U16, t: Text, u: Text, stale: seq<Byte>)
    requires TwoSymbolText(t) && LongerText(t, u) && |stale| >= MAX_HEADER_BYTES
    ensures var d := TextDatagram(tsi, t, 0, 0, stale);
      var o := Receive(c, NewReceiver(tsi), d.data, d.len);
      o.Returned? && o.state.tsi == tsi && HalfReceived(c, t, MixedObject(c, t, u), o.state)
  {
    hide ObjectSymbol, PutAll, Receiving, Supported, Receive, Mixed, HalfFile, ReceivedHeader, HasSymbol,
         ReceivingFile, LayoutSymbol, PartitionOf, HalfPlace, Fill;
    var o, r, alc := MixedObject(c, t, u), NewReceiver(tsi), ReceivedHeader(tsi, 0, t.oti, t.id);
    MixedIsGood(c, t, u);
    TextHeader(tsi, t);
    OpenedForText(c, t, o, alc);
    var f := ReceivingFile(c, 0, FdtEntry(alc));
    TwoSymbols(t.oti, 0, 0);
    ReceivingIsPlain(c, o, f);
    TextPacketFed(c, r, tsi, t, 0, 0, stale);
    FirstPut(c, t, u, f);
  }

  lemma MixedIsGood(c: RxConfig, t: Text, u: Text)
    requires TwoSymbolText(t) && LongerText(t, u)
    ensures ObjectGood(MixedObject(c, t, u))
  {
    hide Supported;
  }

  lemma ReceivingIsPartial(c: RxConfig, o: Object, f: FileState)
    requires Receiving(c, o, f)
    ensures Partial(c.md5, f, o.data)
  {
  }

  lemma FirstBuffer(c: RxConfig, t: Text, f: FileState)
    requires TwoSymbolText(t) && f.Has(0, 0) && f.At(0, 0) == HalfPlace(t.oti, 0)
    requires f.buffer == Fill(|t.data|, c.memory(0))
    ensures PutSymbol(c.md5, f, ObjectSymbol(t.oti, t.data, 0, 0)).state.buffer == HalfFilled(c, t)
  {
    PutMarks(c.md5, f, ObjectSymbol(t.oti, t.data, 0, 0));
  }

  lemma TakenPlaceIgnores(md5: Md5, f: FileState, s: EncodingSymbol)
    requires f.Has(s.sourceBlockNumber, s.id) && f.At(s.sourceBlockNumber, s.id).complete
    ensures PutAll(md5, f, [s]) == Returned(f)
  {
    PutAllOne(md5, f, s);
  }

  /** The first symbol of another text finds its place taken. */
  lemma FirstSymbolIgnored(c: RxConfig, tsi: U16, t: Text, u: Text, o: Object, r: Rx, stale: seq<Byte>)
    requires TwoSymbolText(t) && LongerText(t, u) && HalfReceived(c, t, o, r) && o.oti == t.oti && r.tsi == tsi
    requires |stale| >= MAX_HEADER_BYTES
    ensures var d := TextDatagram(tsi, u, 0, 0, stale); Receive(c, r, d.data, d.len) == Returned(r)
  {
    hide ObjectGood, Receive, Partial, HalfFilled, ReceivedHeader, LayoutSymbol, BytesOf, PutAll, HasSymbol;
    LongerHasTwo(t, u);
    TextHeader(tsi, u);
    ReceivingIsPlain(c, o, r.files[0]);
    TextPacketFed(c, r, tsi, u, 0, 0, stale);
    TakenPlaceIgnores(c.md5, r.files[0], ObjectSymbol(u.oti, u.data, 0, 0));
    assert r.files[0 := r.files[0]] == r.files;
  }

  /** The second one completes the file, which is read under the instance ID of the other text. */
  lemma SecondSymbolCompletes(c: RxConfig, tsi: U16, t: Text, u: Text, r: Rx, stale: seq<Byte>)
    requires TwoSymbolText(t) && LongerText(t, u) && HalfReceived(c, t, MixedObject(c, t, u), r) && r.tsi == tsi
    requires |stale| >= MAX_HEADER_BYTES
    ensures var d := TextDatagram(tsi, u, 0, 1, stale);
      ReadsAs(c, Receive(c, r, d.data, d.len).state, u.id, Mixed(c, t, u))
  {
    hide LayoutSymbol, PartitionOf, BytesOf, PutAll, PutSymbol, ObjectGood, Supported, Receive, PutsRight, Mixed,
         HalfFilled, Partial, ReceivedHeader, HasSymbol, Completed, ReadsAs;
    LongerHasTwo(t, u);
    TextHeader(tsi, u);
    TextPacketFed(c, r, tsi, u, 0, 1, stale);
    var o, f, s := MixedObject(c, t, u), r.files[0], ObjectSymbol(u.oti, u.data, 0, 1);
    ReceivingIsPlain(c, o, f);
    ReceivingIsPartial(c, o, f);
    SecondPutsRight(c, t, u, f);
    RightIsGenuine(c.md5, f, o.data, s);
    PutAllOne(c.md5, f, s);
    PutAllOne(c.md5, f, Genuine(f, o.data, 0, 1));
    PartOfTwo(c, o, f, 1);
    PutIsReceiving(c, o, f, 0, 1);
    var alc, g := ReceivedHeader(tsi, 0, u.oti, u.id), PutAll(c.md5, f, [s]).state;
    ReadWhenComplete(c, r.(files := r.files[0 := g]), alc);
  }

  /** What becomes of the first FDT of a receiver: it is installed as it is read, or the receiver is stalled. */
  ghost predicate ReadsAs(c: RxConfig, r: Rx, id: U32, text: seq<Byte>) {
    if Unreadable(c, id, text) then r.fdt.None? && r.log == [] && Stalled(r)
    else
      var table := ReadTable(id, c.tokenise(text).value).value;
      r.fdt == Some(table) && r.log == [Installed(table)]
  }

  lemma ReadWhenComplete(c: RxConfig, r: Rx, alc: Alc)
    requires alc.toi == 0 && 0 in r.files && (forall u :: u in r.files ==> u == 0) && r.log == [] && r.fdt.None?
    requires r.files[0].complete && r.files[0].meta.contentEncoding == ""
    ensures ReadsAs(c, Completed(c, r, alc).state, alc.fdtInstanceId, r.files[0].buffer)
  {
    hide ReadTable, StartAll;
    UnreadableFdtStalls(c, r, alc);
  }

  /** The packets of two texts, the second overtaking the first. */
  ghost function Overtaking(tsi: U16, t: Text, u: Text, stale: seq<Byte>): seq<Datagram>
    requires CanCut(t.oti) && CanCut(u.oti)
  {
    [TextDatagram(tsi, t, 0, 0, stale), TextDatagram(tsi, u, 0, 0, stale), TextDatagram(tsi, u, 0, 1, stale)]
  }

  /**
   * A receiver that has the first of two packets of one text and then gets another text takes its second symbol from
   * the other one, and reads the result under the instance ID of the other one.
   */
  lemma MixedTextIsParsed(c: RxConfig, tsi: U16, t: Text, u: Text, stale: seq<Byte>)
    requires TwoSymbolText(t) && LongerText(t, u) && |stale| >= MAX_HEADER_BYTES
    ensures Receivable(Overtaking(tsi, t, u, stale))
    ensures ReadsAs(c, Heard(c, NewReceiver(tsi), Overtaking(tsi, t, u, stale)).state, u.id, Mixed(c, t, u))
  {
    hide HalfReceived, ReadsAs, Receive, TextDatagram, Mixed;
    var all := Overtaking(tsi, t, u, stale);
    DatagramIsLong(tsi, t, 0, 0, stale);
    DatagramIsLong(tsi, u, 0, 0, stale);
    DatagramIsLong(tsi, u, 0, 1, stale);
    FirstHalf(c, tsi, t, u, stale);
    var r := Receive(c, NewReceiver(tsi), all[0].data, all[0].len).state;
    FirstSymbolIgnored(c, tsi, t, u, MixedObject(c, t, u), r, stale);
    SecondSymbolCompletes(c, tsi, t, u, r, stale);
    HeardThree(c, NewReceiver(tsi), all);
  }

  /** A run of three packets the first two of which return. */
  lemma HeardThree(c: RxConfig, r: Rx, ds: seq<Datagram>)
    requires Receivable(ds) && |ds| == 3
    requires Receive(c, r, ds[0].data, ds[0].len).Returned?
    requires Receive(c, Receive(c, r, ds[0].data, ds[0].len).state, ds[1].data, ds[1].len).Returned?
    ensures var q := Receive(c, Receive(c, r, ds[0].data, ds[0].len).state, ds[1].data, ds[1].len).state;
      Heard(c, r, ds).state == Receive(c, q, ds[2].data, ds[2].len).state
  {
    hide Receive;
    assert ds[1..][0] == ds[1] && ds[1..][1..] == ds[2..] && ds[2..][0] == ds[2] && ds[2..][1..] == [];
    var q := Receive(c, Receive(c, r, ds[0].data, ds[0].len).state, ds[1].data, ds[1].len).state;
    assert Heard(c, r, ds) == Heard(c, q, ds[2..]);
  }

  lemma DatagramIsLong(tsi: U16, t: Text, k: nat, j: nat, stale: seq<Byte>)
    requires CanCut(t.oti) && |stale| >= MAX_HEADER_BYTES
    ensures |TextDatagram(tsi, t, k, j, stale).data| >= MAX_HEADER_BYTES
  {
    hide ObjectPacket;
  }
}
