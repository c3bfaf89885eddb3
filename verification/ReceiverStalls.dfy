/**
 * Receivers that install no table any more: a complete FDT that cannot be read stays at TOI 0, since parsing throws
 * before the file is erased (src/Receiver.cpp:113-117), and an FDT that lacks a symbol waits for it, since no other
 * text gets a file of its own (src/Receiver.cpp:71-76).
 */
module ReceiverStalls {
  import opened Bytes
  import opened Flute
  import opened EncodingSymbols
  import opened AlcPackets
  import opened Files
  import opened Completion
  import opened EndToEnd
  import opened FdtXml
  import FdtObject
  import opened Receivers
  import opened ReceiverSafety

  // ---------------------------------------------------------------------------------------------
  // What a packet leaves alone
  // ---------------------------------------------------------------------------------------------

  lemma {:induction false} PutAllKeepsMeta(md5: Md5, f: FileState, symbols: seq<EncodingSymbol>)
    ensures PutAll(md5, f, symbols).state.meta == f.meta
    decreases |symbols|
  {
    hide PutSymbol;
    if symbols != [] {
      PutKeepsMeta(md5, f, symbols[0]);
      PutAllKeepsMeta(md5, PutSymbol(md5, f, symbols[0]).state, symbols[1..]);
    }
  }

  lemma PutKeepsMeta(md5: Md5, f: FileState, s: EncodingSymbol)
    ensures PutSymbol(md5, f, s).state.meta == f.meta
  {
  }

  /** There is a file at TOI 0, and no other file has its content location. */
  ghost predicate Alone(r: Rx) {
    && 0 in r.files
    && forall t :: t in r.files && t != 0 ==> r.files[t].meta.contentLocation != r.files[0].meta.contentLocation
  }

  /** Nothing was installed since. */
  ghost predicate OnlyDelivered(before: seq<Observed>, after: seq<Observed>) {
    before <= after && forall i :: |before| <= i < |after| ==> after[i].Delivered?
  }

  /** The file at TOI 0 was left alone, and nothing was installed. */
  ghost predicate NothingInstalled(r: Rx, q: Rx)
    requires 0 in r.files
  {
    && Alone(q) && q.tsi == r.tsi && q.fdt == r.fdt && q.files[0].meta == r.files[0].meta && OnlyDelivered(r.log, q.log)
  }

  lemma NothingInstalledYet(r: Rx)
    requires Alone(r)
    ensures 0 in r.files && NothingInstalled(r, r)
  {
  }

  lemma NothingInstalledStill(r: Rx, q: Rx, u: Rx)
    requires Alone(r) && NothingInstalled(r, q) && NothingInstalled(q, u)
    ensures NothingInstalled(r, u)
  {
    forall i | |r.log| <= i < |u.log|
      ensures u.log[i].Delivered?
    {
      assert i < |q.log| ==> u.log[i] == q.log[i];
    }
  }

  /** Symbols for another object than the FDT. */
  lemma OtherFedLeavesFdt(c: RxConfig, r: Rx, alc: Alc, symbols: seq<EncodingSymbol>)
    requires Alone(r) && alc.toi in r.files && alc.toi != 0
    ensures NothingInstalled(r, Fed(c, r, alc, symbols).state) && Fed(c, r, alc, symbols).state.files[0] == r.files[0]
  {
    hide PutAll, Install;
    PutAllKeepsMeta(c.md5, r.files[alc.toi], symbols);
  }

  /** A packet for another session or object, or of no use. */
  lemma OtherPacketLeavesFdt(c: RxConfig, r: Rx, d: Datagram)
    requires Alone(r) && |d.data| >= MAX_HEADER_BYTES && !ForFdt(r.tsi, d)
    ensures var q := Receive(c, r, d.data, d.len).state; NothingInstalled(r, q) && q.files[0] == r.files[0]
  {
    hide ParsePacket, Fed, PayloadSymbols;
    var parsed := ParsePacket(d.data, d.len);
    if parsed.Parsed? && parsed.alc.tsi == r.tsi {
      ParseEndsAtHeaderLength(d.data, d.len);
      var alc := parsed.alc;
      if alc.toi in r.files {
        var symbols := PayloadSymbols(d.data, d.len, alc, r.files[alc.toi].meta.fecOti);
        if symbols.Ok? {
          OtherFedLeavesFdt(c, r, alc, symbols.value);
        }
      }
    }
  }

  /** A packet of the session for TOI 0. */
  ghost predicate ForFdt(tsi: U64, d: Datagram) {
    && |d.data| >= MAX_HEADER_BYTES
    && var parsed := ParsePacket(d.data, d.len);
    parsed.Parsed? && parsed.alc.tsi == tsi && parsed.alc.toi == 0
  }

  // ---------------------------------------------------------------------------------------------
  // Unreadable tables
  // ---------------------------------------------------------------------------------------------

  /** A complete file sits at TOI 0. */
  ghost predicate Stalled(r: Rx) {
    Alone(r) && r.files[0].complete
  }

  ghost predicate Unreadable(c: RxConfig, instanceId: U32, doc: seq<Byte>) {
    c.tokenise(doc).None? || ReadTable(instanceId, c.tokenise(doc).value).Err?
  }

  /** Reading the text fails with an exception, which the receiver survives. */
  ghost predicate FailsSoftly(c: RxConfig, instanceId: U32, doc: seq<Byte>) {
    && c.tokenise(doc).Some?
    && var table := ReadTable(instanceId, c.tokenise(doc).value);
    table.Err? && IsException(table.what)
  }

  lemma {:induction false} StartedIsIncomplete(c: RxConfig, files: map<U64, FileState>, entries: seq<FileEntry>)
    requires 0 !in files
    ensures var started := StartAll(c, files, entries).state; 0 in started ==> !started[0].complete
    ensures StartAll(c, files, entries).Threw? ==> !IsException(StartAll(c, files, entries).what)
    decreases |entries|
  {
    hide Layout;
    if entries != [] && entries[0].toi == 0 && CanCut(entries[0].fecOti) {
      StartAllKeepsFile(c, files[0 := ReceivingFile(c, 0, entries[0])], entries[1..]);
    } else if entries != [] && entries[0].toi in files {
      StartedIsIncomplete(c, files, entries[1..]);
    } else if entries != [] && CanCut(entries[0].fecOti) {
      StartedIsIncomplete(c, files[entries[0].toi := ReceivingFile(c, entries[0].toi, entries[0])], entries[1..]);
    }
  }

  lemma {:induction false} StartAllKeepsFile(c: RxConfig, files: map<U64, FileState>, entries: seq<FileEntry>)
    requires 0 in files
    ensures var started := StartAll(c, files, entries); 0 in started.state && started.state[0] == files[0]
    ensures StartAll(c, files, entries).Threw? ==> !IsException(StartAll(c, files, entries).what)
    decreases |entries|
  {
    hide ReceivingFile;
    if entries != [] && entries[0].toi in files {
      StartAllKeepsFile(c, files, entries[1..]);
    } else if entries != [] && CanCut(entries[0].fecOti) {
      StartAllKeepsFile(c, files[entries[0].toi := ReceivingFile(c, entries[0].toi, entries[0])], entries[1..]);
    }
  }

  /**
   * The packet that completes an FDT leaves the receiver stalled, if and only if the text cannot be read; it throws
   * then, and the receiver listens on if and only if what is thrown is an exception.
   */
  lemma UnreadableFdtStalls(c: RxConfig, r: Rx, alc: Alc)
    requires alc.toi == 0 && 0 in r.files && r.files[0].complete && r.files[0].meta.contentEncoding == ""
    ensures var o, doc := Completed(c, r, alc), r.files[0].buffer;
      && (Stalled(o.state) <==> Unreadable(c, alc.fdtInstanceId, doc))
      && (Stalled(o.state) ==> o.Threw? && o.state.fdt == r.fdt && o.state.log == r.log)
      && (Stalled(o.state) && ListensOn(o) <==> FailsSoftly(c, alc.fdtInstanceId, doc))
  {
    hide ReadTable, StartAll;
    var root := c.tokenise(r.files[0].buffer);
    if root.Some? && ReadTable(alc.fdtInstanceId, root.value).Ok? {
      var kept := Replaced(r.files, 0);
      assert kept[0 := kept[0]] == kept;
      StartedIsIncomplete(c, kept - {0}, ReadTable(alc.fdtInstanceId, root.value).value.entries);
    }
  }

  lemma PacketStaysStalled(c: RxConfig, r: Rx, d: Datagram)
    requires Stalled(r) && |d.data| >= MAX_HEADER_BYTES
    ensures var q := Receive(c, r, d.data, d.len).state;
      NothingInstalled(r, q) && Stalled(q) && q.files[0] == r.files[0]
  {
    if ForFdt(r.tsi, d) {
      hide ParsePacket, Fed, PayloadSymbols;
      ParseEndsAtHeaderLength(d.data, d.len);
    } else {
      hide ForFdt, Receive;
      OtherPacketLeavesFdt(c, r, d);
    }
  }

  /** From then on no table is installed any more, over every run of packets, genuine or not. */
  lemma {:induction false} StalledForEver(c: RxConfig, r: Rx, datagrams: seq<Datagram>)
    requires Stalled(r) && Receivable(datagrams)
    ensures var q := Heard(c, r, datagrams).state; Stalled(q) && NothingInstalled(r, q)
    decreases |datagrams|
  {
    hide Receive, Alone;
    if datagrams != [] {
      var o := Receive(c, r, datagrams[0].data, datagrams[0].len);
      PacketStaysStalled(c, r, datagrams[0]);
      if ListensOn(o) {
        StalledForEver(c, o.state, datagrams[1..]);
        NothingInstalledStill(r, o.state, Heard(c, o.state, datagrams[1..]).state);
      }
    }
  }

  // ---------------------------------------------------------------------------------------------
  // Missing symbols
  // ---------------------------------------------------------------------------------------------

  /** Symbol (k, j) of the file is missing. */
  ghost predicate Missing(f: FileState, k: nat, j: nat) {
    f.Has(k, j) && !f.At(k, j).complete && !f.blocks[k].complete && !f.complete
  }

  ghost predicate WaitsFor(r: Rx, k: nat, j: nat) {
    Alone(r) && Missing(r.files[0], k, j)
  }

  predicate IsAt(s: EncodingSymbol, k: nat, j: nat) {
    s.sourceBlockNumber == k && s.id == j
  }

  lemma PutKeepsMissing(md5: Md5, f: FileState, s: EncodingSymbol, k: nat, j: nat)
    requires Missing(f, k, j) && !IsAt(s, k, j)
    ensures Missing(PutSymbol(md5, f, s).state, k, j)
  {
    var placed := Placed(f, s);
    assert Missing(placed.state, k, j);
    if placed.Returned? && !placed.state.At(s.sourceBlockNumber, s.id).complete {
      var place := placed.state.At(s.sourceBlockNumber, s.id);
      var g := placed.state.(buffer := Decoded(placed.state.buffer, place, s.data));
      UpdatedKeepsMissing(md5, g, s.sourceBlockNumber, s.id, place.(complete := true), k, j);
    }
  }

  lemma UpdatedKeepsMissing(md5: Md5, f: FileState, a: nat, b: nat, s: Symbol, k: nat, j: nat)
    requires Missing(f, k, j) && f.Has(a, b) && (a, b) != (k, j)
    ensures Missing(CheckFile(md5, Updated(f, a, b, s)).state, k, j)
  {
    UpdatedAt(f, a, b, s, k, j);
    var g := Updated(f, a, b, s);
    assert !g.blocks[k].symbols[j].complete;
    assert a == k ==> !SymbolsComplete(g.blocks[k]);
    assert !g.blocks[k].complete && !BlocksComplete(g.blocks);
  }

  lemma {:induction false} PutAllKeepsMissing(md5: Md5, f: FileState, symbols: seq<EncodingSymbol>, k: nat, j: nat)
    requires Missing(f, k, j) && forall i :: 0 <= i < |symbols| ==> !IsAt(symbols[i], k, j)
    ensures Missing(PutAll(md5, f, symbols).state, k, j)
    decreases |symbols|
  {
    hide PutSymbol, Missing;
    if symbols != [] {
      PutKeepsMissing(md5, f, symbols[0], k, j);
      assert forall i :: 0 <= i < |symbols[1..]| ==> symbols[1..][i] == symbols[i + 1];
      PutAllKeepsMissing(md5, PutSymbol(md5, f, symbols[0]).state, symbols[1..], k, j);
    }
  }

  /** The packet carries symbol (k, j) to an FDT file of these FEC values. */
  ghost predicate Brings(tsi: U64, oti: FecOti, d: Datagram, k: nat, j: nat) {
    && ForFdt(tsi, d)
    && var alc := ParsePacket(d.data, d.len).alc;
    && alc.HeaderLength() <= |d.data|
    && var symbols := PayloadSymbols(d.data, d.len, alc, oti);
    symbols.Ok? && exists i :: 0 <= i < |symbols.value| && IsAt(symbols.value[i], k, j)
  }

  lemma FedLeavesMissing(c: RxConfig, r: Rx, alc: Alc, symbols: seq<EncodingSymbol>, k: nat, j: nat)
    requires WaitsFor(r, k, j) && alc.toi == 0 && forall i :: 0 <= i < |symbols| ==> !IsAt(symbols[i], k, j)
    ensures var q := Fed(c, r, alc, symbols).state; NothingInstalled(r, q) && WaitsFor(q, k, j)
  {
    hide PutAll, Completed;
    PutAllKeepsMissing(c.md5, r.files[0], symbols, k, j);
    PutAllKeepsMeta(c.md5, r.files[0], symbols);
  }

  /** Without its missing symbol the FDT is not complete, and no table is installed. */
  lemma PacketLeavesMissing(c: RxConfig, r: Rx, d: Datagram, k: nat, j: nat)
    requires WaitsFor(r, k, j) && |d.data| >= MAX_HEADER_BYTES && !Brings(r.tsi, r.files[0].meta.fecOti, d, k, j)
    ensures var q := Receive(c, r, d.data, d.len).state; NothingInstalled(r, q) && WaitsFor(q, k, j)
  {
    if ForFdt(r.tsi, d) {
      hide ParsePacket, Fed, PayloadSymbols, Alone, NothingInstalled;
      NothingInstalledYet(r);
      ParseEndsAtHeaderLength(d.data, d.len);
      var alc := ParsePacket(d.data, d.len).alc;
      var symbols := PayloadSymbols(d.data, d.len, alc, r.files[0].meta.fecOti);
      if symbols.Ok? {
        FedLeavesMissing(c, r, alc, symbols.value, k, j);
      }
    } else {
      hide ForFdt, Receive;
      OtherPacketLeavesFdt(c, r, d);
    }
  }

  /**
   * A receiver whose FDT lacks a symbol installs no table, over every run of packets without that symbol, whatever
   * texts and instances they are of.
   */
  lemma {:induction false} MissingForEver(c: RxConfig, r: Rx, datagrams: seq<Datagram>, k: nat, j: nat)
    requires WaitsFor(r, k, j) && Receivable(datagrams)
    requires forall i :: 0 <= i < |datagrams| ==> !Brings(r.tsi, r.files[0].meta.fecOti, datagrams[i], k, j)
    ensures var q := Heard(c, r, datagrams).state; NothingInstalled(r, q) && WaitsFor(q, k, j)
    decreases |datagrams|
  {
    hide Receive, Brings, Missing;
    if datagrams != [] {
      var o := Receive(c, r, datagrams[0].data, datagrams[0].len);
      PacketLeavesMissing(c, r, datagrams[0], k, j);
      if ListensOn(o) {
        MissingForEver(c, o.state, datagrams[1..], k, j);
        NothingInstalledStill(r, o.state, Heard(c, o.state, datagrams[1..]).state);
      }
    }
  }

  ghost function DatagramOf(ss: Session, p: Packet): Datagram
    requires Sendable(ss, p)
  {
    Datagram(PacketOf(ss, p) + p.stale, |PacketOf(ss, p)|)
  }

  ghost function Datagrams(ss: Session, packets: seq<Packet>): seq<Datagram>
    requires forall i :: 0 <= i < |packets| ==> Sendable(ss, packets[i])
  {
    seq(|packets|, i requires 0 <= i < |packets| => DatagramOf(ss, packets[i]))
  }

  /** A packet of a session that is of an object, or of a text without this symbol. */
  ghost predicate LacksSymbol(ss: Session, p: Packet, k: nat, j: nat)
    requires Sendable(ss, p)
  {
    p.FdtPacketOf? ==> !HasSymbol(ss.Announcement(p.n).oti, k, j)
  }

  lemma LackingPacketBringsNothing(c: RxConfig, ss: Session, p: Packet, oti: FecOti, k: nat, j: nat)
    requires IsGenuine(c, ss, p) && Sendable(ss, p) && LacksSymbol(ss, p, k, j)
    requires oti.encodingSymbolLength == ss.fdtOti.encodingSymbolLength && oti.encodingId == COMPACT_NO_CODE
    ensures !Brings(ss.tsi, oti, DatagramOf(ss, p), k, j)
  {
    hide ToXml, Supported, ParsePacket, EntryGood, PayloadSymbols;
    match p
    case ObjectPacketOf(toi, a, b, stale) =>
      var o := ss.objects[toi];
      PacketRoundTrip(ss.tsi, toi, o.oti, [ObjectSymbol(o.oti, o.data, a, b)], o.oti.encodingSymbolLength, 0, stale);
    case FdtPacketOf(n, a, b, stale) =>
      var o := ss.Announcement(n);
      PacketCarriesSymbol(ss.tsi, 0, o.oti, o.data, a, b, FdtObject.WireId(ss.tables[n]), stale, oti);
  }

  /**
   * One packet of an FDT is lost, and every later text is without that symbol: however often the later texts are
   * repeated, none is installed.
   */
  lemma ShorterTextsStall(c: RxConfig, ss: Session, s: Reception, packets: seq<Packet>, k: nat, j: nat)
    requires Safe(c, ss, s) && WaitsFor(s.rx, k, j)
    requires forall i :: 0 <= i < |packets| ==>
               IsGenuine(c, ss, packets[i]) && Sendable(ss, packets[i]) && LacksSymbol(ss, packets[i], k, j)
    ensures Receivable(Datagrams(ss, packets))
    ensures var q := Heard(c, s.rx, Datagrams(ss, packets)).state; NothingInstalled(s.rx, q) && WaitsFor(q, k, j)
  {
    hide IsGenuine, Brings, DatagramOf, Heard, LacksSymbol;
    var datagrams := Datagrams(ss, packets);
    forall i | 0 <= i < |datagrams|
      ensures |datagrams[i].data| >= MAX_HEADER_BYTES
      ensures !Brings(s.rx.tsi, s.rx.files[0].meta.fecOti, datagrams[i], k, j)
    {
      GenuineIsReceivable(c, ss, packets[i]);
      FdtFileHasFdtSize(c, ss, s);
      LackingPacketBringsNothing(c, ss, packets[i], s.rx.files[0].meta.fecOti, k, j);
    }
    MissingForEver(c, s.rx, datagrams, k, j);
  }

  lemma GenuineIsReceivable(c: RxConfig, ss: Session, p: Packet)
    requires IsGenuine(c, ss, p) && Sendable(ss, p)
    ensures |DatagramOf(ss, p).data| >= MAX_HEADER_BYTES
  {
    hide ToXml, EntryGood, ObjectPacket;
  }

  lemma FdtFileHasFdtSize(c: RxConfig, ss: Session, s: Reception)
    requires Safe(c, ss, s) && 0 in s.rx.files
    ensures s.rx.tsi == ss.tsi && s.rx.files[0].meta.fecOti.encodingSymbolLength == ss.fdtOti.encodingSymbolLength
    ensures s.rx.files[0].meta.fecOti.encodingId == COMPACT_NO_CODE
  {
    hide ToXml, EntryGood, Supported, LogGood;
  }
}
