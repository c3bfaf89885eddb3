/** What a receiver hands to its callback, over every run of a session's packets (src/Receiver.cpp:65-133). */
module ReceiverSafety {
  import opened Bytes
  import opened Flute
  import opened EncodingSymbols
  import opened AlcPackets
  import opened Files
  import opened Completion
  import opened EndToEnd
  import opened Xml
  import opened FdtXml
  import opened FdtObject
  import opened FdtRoundTrip
  import opened Receivers

  // ---------------------------------------------------------------------------------------------
  // Sessions
  // ---------------------------------------------------------------------------------------------

  datatype Object = Object(oti: FecOti, data: seq<Byte>)

  /**
   * What a sender sends: objects by TOI, tables in the order they were announced, and how tables are printed.  Two
   * announcements may have the same instance ID and differ in their text, as every repetition does.
   */
  datatype Session = Session(
    tsi: U16, objects: map<U16, Object>, fdtOti: FecOti, tables: seq<Table>, render: Element -> seq<Byte>)
  {
    function Document(n: nat): seq<Byte>
      requires n < |tables|
    {
      render(ToXml(tables[n]))
    }

    /** A table is sent as an object of its own. */
    function Announcement(n: nat): Object
      requires n < |tables|
    {
      Object(Sized(fdtOti, Document(n)), Document(n))
    }
  }

  ghost predicate ObjectGood(o: Object) {
    Supported(o.oti) && |o.data| == o.oti.transferLength > 0
  }

  /** An entry describes its object: cut alike, not encoded, with its digest if any. */
  ghost predicate EntryGood(c: RxConfig, ss: Session, e: FileEntry) {
    && e.toi != 0 && e.toi in ss.objects
    && SameCut(ss.objects[e.toi].oti, e.fecOti) && e.fecOti.encodingId == COMPACT_NO_CODE
    && e.contentEncoding == "" && GenuineDigest(c.md5, e, ss.objects[e.toi].data)
  }

  /** A table fits its packets, survives printing, and its entries, as read, describe the session's objects. */
  ghost predicate TableGood(c: RxConfig, ss: Session, n: nat)
    requires n < |ss.tables|
  {
    && |ss.Document(n)| < 0x1_0000 && ss.fdtOti.encodingSymbolLength < 0x1_0000
    && ObjectGood(ss.Announcement(n))
    && c.tokenise(ss.Document(n)) == Some(ToXml(ss.tables[n]))
    && forall i :: 0 <= i < |ss.tables[n].entries| ==>
         EntryGood(c, ss, Normal(ss.tables[n].globalOti, ss.tables[n].entries[i]))
  }

  ghost predicate SessionGood(c: RxConfig, ss: Session) {
    && (forall t :: t in ss.objects ==> ObjectGood(ss.objects[t]))
    && (forall n :: 0 <= n < |ss.tables| ==> TableGood(c, ss, n))
  }

  /** One packet of the session, with whatever else is in the receive buffer behind it. */
  datatype Packet =
    | ObjectPacketOf(toi: U16, k: nat, j: nat, stale: seq<Byte>)
    | FdtPacketOf(n: nat, k: nat, j: nat, stale: seq<Byte>)

  ghost predicate IsGenuine(c: RxConfig, ss: Session, p: Packet) {
    match p
    case ObjectPacketOf(toi, k, j, stale) =>
      && toi != 0 && toi in ss.objects && ObjectGood(ss.objects[toi]) && HasSymbol(ss.objects[toi].oti, k, j)
      && |PacketOf(ss, p)| + |stale| >= MAX_HEADER_BYTES
    case FdtPacketOf(n, k, j, stale) =>
      && n < |ss.tables| && TableGood(c, ss, n) && HasSymbol(ss.Announcement(n).oti, k, j)
      && |PacketOf(ss, p)| + |stale| >= MAX_HEADER_BYTES
  }

  ghost predicate Sendable(ss: Session, p: Packet) {
    match p
    case ObjectPacketOf(toi, _, _, _) => toi in ss.objects && CanCut(ss.objects[toi].oti)
    case FdtPacketOf(n, _, _, _) => n < |ss.tables| && CanCut(ss.fdtOti)
  }

  function PacketOf(ss: Session, p: Packet): seq<Byte>
    requires Sendable(ss, p)
  {
    match p
    case ObjectPacketOf(toi, k, j, _) =>
      ObjectPacket(ss.tsi, toi, ss.objects[toi].oti, ss.objects[toi].data, k, j, 0)
    case FdtPacketOf(n, k, j, _) =>
      ObjectPacket(ss.tsi, 0, ss.Announcement(n).oti, ss.Document(n), k, j, WireId(ss.tables[n]))
  }

  /** A receiver, and the announcement whose packet opened the file at TOI 0, which it does not remember itself. */
  datatype Reception = Reception(rx: Rx, current: Option<nat>)

  /** The symbol an FDT packet carries. */
  function FdtSymbol(ss: Session, p: Packet): EncodingSymbol
    requires Sendable(ss, p) && p.FdtPacketOf?
  {
    ObjectSymbol(ss.Announcement(p.n).oti, ss.Document(p.n), p.k, p.j)
  }

  /** While an FDT is being received, the place of each symbol of TOI 0 ends up with the bytes of that text. */
  ghost predicate FitsText(ss: Session, s: Reception, p: Packet) {
    p.FdtPacketOf? && 0 in s.rx.files ==>
      && s.current.Some? && s.current.value < |ss.tables| && Sendable(ss, p)
      && PutsRight(s.rx.files[0], ss.Document(s.current.value), FdtSymbol(ss, p))
  }

  /** While an FDT is being received, packets of TOI 0 are of that text; then they fit. */
  ghost predicate NotInterleaved(ss: Session, s: Reception, p: Packet) {
    p.FdtPacketOf? && 0 in s.rx.files ==>
      && s.current.Some? && s.current.value < |ss.tables| && p.n < |ss.tables|
      && ss.Document(s.current.value) == ss.Document(p.n)
  }

  /** The announcement being received after a packet. */
  ghost function Current(s: Reception, p: Packet, r: Rx): Option<nat> {
    if 0 !in r.files then None
    else if 0 in s.rx.files then s.current
    else if p.FdtPacketOf? then Some(p.n)
    else None
  }

  // ---------------------------------------------------------------------------------------------
  // The invariant
  // ---------------------------------------------------------------------------------------------

  /** A file part-way through receiving an object. */
  ghost predicate Receiving(c: RxConfig, o: Object, f: FileState) {
    && ObjectGood(o) && Partial(c.md5, f, o.data) && SameCut(o.oti, f.meta.fecOti)
    && f.meta.fecOti.encodingId == COMPACT_NO_CODE && f.meta.contentEncoding == "" && !f.complete
  }

  ghost predicate Listed(log: seq<Observed>, t: U64) {
    exists i :: 0 <= i < |log| && log[i].Installed? && ListedIn(log[i].table, t)
  }

  ghost predicate ListedIn(table: Table, t: U64) {
    exists j :: 0 <= j < |table.entries| && table.entries[j].toi == t
  }

  /** The object was delivered since the last table was installed. */
  ghost predicate DeliveredSince(log: seq<Observed>, t: U64) {
    log != [] &&
    var last := log[|log| - 1];
    last.Delivered? && (last.toi == t || DeliveredSince(log[..|log| - 1], t))
  }

  /** Every delivery is of a listed object, of its exact bytes, and the first since the last table. */
  ghost predicate LogGood(ss: Session, log: seq<Observed>) {
    forall i :: 0 <= i < |log| && log[i].Delivered? ==> DeliveryGood(ss, log, i)
  }

  ghost predicate DeliveryGood(ss: Session, log: seq<Observed>, i: nat)
    requires i < |log| && log[i].Delivered?
  {
    && log[i].toi in ss.objects && log[i].file.buffer == ss.objects[log[i].toi].data
    && Listed(log[..i], log[i].toi) && !DeliveredSince(log[..i], log[i].toi)
  }

  /** What holds of a tracked object other than an FDT. */
  ghost predicate TrackedObject(c: RxConfig, ss: Session, log: seq<Observed>, t: U64, f: FileState) {
    t in ss.objects && Receiving(c, ss.objects[t], f) && Listed(log, t) && !DeliveredSince(log, t)
  }

  ghost predicate TrackedFdt(c: RxConfig, ss: Session, s: Reception)
    requires 0 in s.rx.files
  {
    && s.current.Some? && s.current.value < |ss.tables| && TableGood(c, ss, s.current.value)
    && Receiving(c, ss.Announcement(s.current.value), s.rx.files[0]) && !Gated(s.rx.files[0].meta)
  }

  /** What holds of the files other than an FDT, and of the log. */
  ghost predicate SafeApartFromFdt(c: RxConfig, ss: Session, r: Rx) {
    && r.tsi == ss.tsi && LogGood(ss, r.log)
    && forall t :: t in r.files && t != 0 ==> TrackedObject(c, ss, r.log, t, r.files[t])
  }

  ghost predicate Safe(c: RxConfig, ss: Session, s: Reception) {
    SafeApartFromFdt(c, ss, s.rx) && (0 in s.rx.files ==> TrackedFdt(c, ss, s))
  }

  // ---------------------------------------------------------------------------------------------
  // The log grows
  // ---------------------------------------------------------------------------------------------

  lemma LogAppend(ss: Session, log: seq<Observed>, o: Observed)
    requires LogGood(ss, log)
    requires o.Delivered? ==>
      && o.toi in ss.objects && o.file.buffer == ss.objects[o.toi].data
      && Listed(log, o.toi) && !DeliveredSince(log, o.toi)
    ensures LogGood(ss, log + [o])
    ensures forall t: U64 :: Listed(log, t) ==> Listed(log + [o], t)
    ensures forall t: U64 :: DeliveredSince(log + [o], t) <==> o.Delivered? && (o.toi == t || DeliveredSince(log, t))
    ensures o.Installed? ==> forall t: U64 :: ListedIn(o.table, t) ==> Listed(log + [o], t)
  {
    var longer := log + [o];
    assert longer[..|log|] == log;
    forall i | 0 <= i < |longer| && longer[i].Delivered?
      ensures DeliveryGood(ss, longer, i)
    {
      assert longer[..i] == log[..i];
      if i < |log| {
        assert DeliveryGood(ss, log, i);
      } else {
        assert log[..i] == log;
      }
    }
    forall t: U64 | Listed(log, t)
      ensures Listed(longer, t)
    {
      var i :| 0 <= i < |log| && log[i].Installed? && ListedIn(log[i].table, t);
      assert longer[i] == log[i];
    }
    forall t: U64 | o.Installed? && ListedIn(o.table, t)
      ensures Listed(longer, t)
    {
      assert longer[|log|] == o;
    }
  }

  // ---------------------------------------------------------------------------------------------
  // Opening files
  // ---------------------------------------------------------------------------------------------

  lemma NewFileIsReceiving(c: RxConfig, key: U64, o: Object, entry: FileEntry)
    requires ObjectGood(o) && SameCut(o.oti, entry.fecOti) && entry.fecOti.encodingId == COMPACT_NO_CODE
    requires entry.contentEncoding == "" && GenuineDigest(c.md5, entry, o.data)
    ensures CanCut(entry.fecOti) && Receiving(c, o, ReceivingFile(c, key, entry))
  {
    SupportedAlike(o.oti, entry.fecOti);
    NewFilePartial(c.md5, entry, Fill(entry.fecOti.transferLength, c.memory(key)), o.data);
  }

  /** The header of an FDT packet announces the FDT as it is cut. */
  lemma FdtHeaderCutsAlike(c: RxConfig, ss: Session, n: nat)
    requires n < |ss.tables| && TableGood(c, ss, n)
    ensures var o := ss.Announcement(n);
      var alc := ReceivedHeader(ss.tsi, 0, o.oti, WireId(ss.tables[n]));
      && alc.fdtInstanceId == WireId(ss.tables[n]) && o.oti.transferLength == |ss.Document(n)|
      && SameCut(o.oti, alc.fecOti) && alc.fecOti.encodingId == COMPACT_NO_CODE
  {
    hide ToXml, EntryGood;
  }

  ghost function FdtHeader(ss: Session, n: nat): Alc
    requires n < |ss.tables|
  {
    ReceivedHeader(ss.tsi, 0, ss.Announcement(n).oti, WireId(ss.tables[n]))
  }

  lemma OpenedIsSafe(c: RxConfig, ss: Session, s: Reception, p: Packet)
    requires Safe(c, ss, s) && p.FdtPacketOf? && p.n < |ss.tables| && TableGood(c, ss, p.n)
    ensures var alc := FdtHeader(ss, p.n);
      && (OpensFdt(s.rx, alc) ==> CanCut(alc.fecOti))
      && var r := Opened(c, s.rx, alc);
      && Safe(c, ss, Reception(r, Current(s, p, r)))
      && (0 in s.rx.files ==> r == s.rx)
  {
    hide ToXml, Partial, TableGood, LogGood, TrackedObject;
    var alc := FdtHeader(ss, p.n);
    FdtHeaderCutsAlike(c, ss, p.n);
    assert ObjectGood(ss.Announcement(p.n)) by {
      AnnouncementIsGood(c, ss, p.n);
    }
    NewFileIsReceiving(c, 0, ss.Announcement(p.n), FdtEntry(alc));
  }

  lemma AnnouncementIsGood(c: RxConfig, ss: Session, n: nat)
    requires n < |ss.tables| && TableGood(c, ss, n)
    ensures ObjectGood(ss.Announcement(n))
  {
  }

  ghost predicate StartedFrom(
    c: RxConfig, ss: Session, files: map<U64, FileState>, entries: seq<FileEntry>, started: map<U64, FileState>, t: U64)
    requires t in started
  {
    || (t in files && started[t] == files[t])
    || (t != 0 && t in ss.objects && Receiving(c, ss.objects[t], started[t])
        && exists i :: 0 <= i < |entries| && entries[i].toi == t)
  }

  lemma {:induction false} StartAllIsReceiving(c: RxConfig, ss: Session, files: map<U64, FileState>,
          entries: seq<FileEntry>)
    requires SessionGood(c, ss) && forall i :: 0 <= i < |entries| ==> EntryGood(c, ss, entries[i])
    ensures var r := StartAll(c, files, entries);
      r.Returned? && forall t :: t in r.state ==> StartedFrom(c, ss, files, entries, r.state, t)
    decreases |entries|
  {
    hide Receiving, ObjectGood;
    if entries != [] {
      var e := entries[0];
      assert EntryGood(c, ss, e);
      assert ObjectGood(ss.objects[e.toi]);
      NewFileIsReceiving(c, e.toi, ss.objects[e.toi], e);
      var next := if e.toi in files then files else files[e.toi := ReceivingFile(c, e.toi, e)];
      assert forall i :: 0 <= i < |entries[1..]| ==> entries[1..][i] == entries[i + 1];
      StartAllIsReceiving(c, ss, next, entries[1..]);
      var r := StartAll(c, files, entries);
      forall t | t in r.state
        ensures StartedFrom(c, ss, files, entries, r.state, t)
      {
        assert StartedFrom(c, ss, next, entries[1..], r.state, t);
      }
    }
  }

  ghost predicate NothingComplete(f: FileState) {
    forall k: nat, j: nat :: f.Has(k, j) ==> !f.At(k, j).complete
  }

  /** Every entry ends up tracked, and what was tracked is left alone. */
  lemma {:induction false} StartAllTracks(c: RxConfig, files: map<U64, FileState>, entries: seq<FileEntry>)
    requires StartAll(c, files, entries).Returned?
    ensures var started := StartAll(c, files, entries).state;
      && (forall i :: 0 <= i < |entries| ==> entries[i].toi in started)
      && (forall t :: t in files ==> t in started && started[t] == files[t])
      && (forall t :: t in started && t !in files ==>
            && NothingComplete(started[t])
            && exists i :: 0 <= i < |entries| && entries[i].toi == t && started[t].meta == entries[i])
    decreases |entries|
  {
    hide ReceivingFile, NothingComplete;
    if entries != [] {
      var e := entries[0];
      var next := if e.toi in files then files else files[e.toi := ReceivingFile(c, e.toi, e)];
      StartAllTracks(c, next, entries[1..]);
      assert forall i :: 0 < i < |entries| ==> entries[i] == entries[1..][i - 1];
      var started := StartAll(c, files, entries).state;
      forall t | t in started && t !in files
        ensures NothingComplete(started[t])
        ensures exists i :: 0 <= i < |entries| && entries[i].toi == t && started[t].meta == entries[i]
      {
        if t == e.toi {
          StartedMeta(c, e);
          assert entries[0].toi == t;
        } else {
          var i :| 0 <= i < |entries[1..]| && entries[1..][i].toi == t && started[t].meta == entries[1..][i];
          assert entries[i + 1] == entries[1..][i];
        }
      }
    }
  }

  lemma StartedMeta(c: RxConfig, e: FileEntry)
    requires CanCut(e.fecOti)
    ensures ReceivingFile(c, e.toi, e).meta == e && NothingComplete(ReceivingFile(c, e.toi, e))
  {
  }

  // ---------------------------------------------------------------------------------------------
  // One packet
  // ---------------------------------------------------------------------------------------------

  /** The header a packet is received with. */
  ghost function HeaderOf(c: RxConfig, ss: Session, p: Packet): Alc
    requires IsGenuine(c, ss, p)
  {
    match p
    case ObjectPacketOf(toi, _, _, _) => ReceivedHeader(ss.tsi, toi, ss.objects[toi].oti, 0)
    case FdtPacketOf(n, _, _, _) => FdtHeader(ss, n)
  }

  /** A genuine symbol leaves a file on its way, or completes it with exactly the object's bytes. */
  lemma PutIsReceiving(c: RxConfig, o: Object, f: FileState, k: nat, j: nat)
    requires Receiving(c, o, f) && f.Has(k, j)
    ensures var put := PutAll(c.md5, f, [Genuine(f, o.data, k, j)]);
      && put.Returned? && put.state.meta == f.meta
      && (!put.state.complete ==> Receiving(c, o, put.state))
      && (put.state.complete ==> put.state.buffer == o.data)
  {
    PutAllOne(c.md5, f, Genuine(f, o.data, k, j));
    PutGenuine(c.md5, f, o.data, k, j);
    var g := PutSymbol(c.md5, f, Genuine(f, o.data, k, j)).state;
    if g.complete {
      CompleteFileIsData(c.md5, g, o.data);
    }
  }

  /** An object packet: the file it is for, if it is tracked, takes its symbol. */
  lemma ObjectPacketHandled(c: RxConfig, ss: Session, r: Rx, p: Packet)
    requires SafeApartFromFdt(c, ss, r) && IsGenuine(c, ss, p) && p.ObjectPacketOf?
    ensures var data, alc := PacketOf(ss, p) + p.stale, HeaderOf(c, ss, p);
      && ParsePacket(data, |PacketOf(ss, p)|) == Parsed(alc, alc.HeaderLength()) && alc.HeaderLength() <= |data|
      && alc.tsi == r.tsi && alc.toi == p.toi && Opened(c, r, alc) == r
      && (p.toi in r.files ==>
            && PayloadSymbols(data, |PacketOf(ss, p)|, alc, r.files[p.toi].meta.fecOti) ==
               Ok([Genuine(r.files[p.toi], ss.objects[p.toi].data, p.k, p.j)])
            && r.files[p.toi].Has(p.k, p.j))
  {
    var o := ss.objects[p.toi];
    if p.toi in r.files {
      assert TrackedObject(c, ss, r.log, p.toi, r.files[p.toi]);
      PacketPutsItsSymbol(c.md5, r.files[p.toi], ss.tsi, p.toi, o.oti, o.data, p.k, p.j, 0, p.stale);
    } else {
      PacketRoundTrip(ss.tsi, p.toi, o.oti, [ObjectSymbol(o.oti, o.data, p.k, p.j)], o.oti.encodingSymbolLength, 0,
          p.stale);
    }
  }

  /** A packet of the FDT that is, or is about to be, received. */
  ghost predicate FdtSymbolArrives(
    c: RxConfig, ss: Session, s: Reception, p: Packet, data: seq<Byte>, alc: Alc)
    requires Sendable(ss, p) && p.FdtPacketOf? && alc.HeaderLength() <= |data| && 0 in s.rx.files
  {
    var f := s.rx.files[0];
    && PayloadSymbols(data, |PacketOf(ss, p)|, alc, f.meta.fecOti) == Ok([FdtSymbol(ss, p)])
    && s.current.Some? && s.current.value < |ss.tables|
    && Receiving(c, ss.Announcement(s.current.value), f)
    && PutsRight(f, ss.Document(s.current.value), FdtSymbol(ss, p))
  }

  /** A packet of an FDT that is received parses to its symbol. */
  lemma FdtPacketParses(c: RxConfig, ss: Session, p: Packet, f: FileState, n: nat)
    requires IsGenuine(c, ss, p) && p.FdtPacketOf? && n < |ss.tables| && Receiving(c, ss.Announcement(n), f)
    ensures var data, alc := PacketOf(ss, p) + p.stale, HeaderOf(c, ss, p);
      && ParsePacket(data, |PacketOf(ss, p)|) == Parsed(alc, alc.HeaderLength()) && alc.HeaderLength() <= |data|
      && PayloadSymbols(data, |PacketOf(ss, p)|, alc, f.meta.fecOti) == Ok([FdtSymbol(ss, p)])
  {
    hide ToXml, Partial, Supported, EntryGood;
    var o := ss.Announcement(p.n);
    PacketCarriesSymbol(ss.tsi, 0, o.oti, o.data, p.k, p.j, WireId(ss.tables[p.n]), p.stale, f.meta.fecOti);
  }

  /** The symbol of the text being received puts its place right. */
  lemma OwnSymbolPutsRight(c: RxConfig, ss: Session, p: Packet, f: FileState, n: nat)
    requires IsGenuine(c, ss, p) && p.FdtPacketOf? && n < |ss.tables| && Receiving(c, ss.Announcement(n), f)
    requires ss.Document(n) == ss.Document(p.n)
    ensures PutsRight(f, ss.Document(n), FdtSymbol(ss, p))
  {
    hide ToXml, EntryGood, Supported, PutsRight;
    var o := ss.Announcement(p.n);
    GenuineIsObjectSymbol(f, o.oti, o.data, p.k, p.j);
    GenuinePutsRight(c.md5, f, o.data, p.k, p.j);
  }

  lemma GenuineIsSendable(c: RxConfig, ss: Session, p: Packet)
    requires IsGenuine(c, ss, p)
    ensures Sendable(ss, p)
  {
    hide ToXml, EntryGood;
  }

  /** Packets of the text that is being received fit. */
  lemma UninterleavedFits(c: RxConfig, ss: Session, s: Reception, p: Packet)
    requires Safe(c, ss, s) && IsGenuine(c, ss, p) && NotInterleaved(ss, s, p)
    ensures FitsText(ss, s, p)
  {
    hide ToXml, TableGood, Receiving, PutsRight, SafeApartFromFdt, FdtSymbol;
    GenuineIsSendable(c, ss, p);
    if p.FdtPacketOf? && 0 in s.rx.files {
      OwnSymbolPutsRight(c, ss, p, s.rx.files[0], s.current.value);
    }
  }

  lemma FdtPacketHandled(c: RxConfig, ss: Session, s: Reception, p: Packet)
    requires Safe(c, ss, s) && IsGenuine(c, ss, p) && p.FdtPacketOf? && FitsText(ss, s, p)
    ensures var data, alc := PacketOf(ss, p) + p.stale, HeaderOf(c, ss, p);
      && ParsePacket(data, |PacketOf(ss, p)|) == Parsed(alc, alc.HeaderLength()) && alc.HeaderLength() <= |data|
      && alc.tsi == s.rx.tsi && alc.toi == 0 && alc.fdtInstanceId == WireId(ss.tables[p.n])
      && (OpensFdt(s.rx, alc) ==> CanCut(alc.fecOti))
      && var r := Opened(c, s.rx, alc);
      && Safe(c, ss, Reception(r, Current(s, p, r))) && r.log == s.rx.log
      && (0 in r.files ==> FdtSymbolArrives(c, ss, Reception(r, Current(s, p, r)), p, data, alc))
  {
    hide ToXml, LogGood, TrackedObject, PutsRight, Receiving, TableGood, ObjectSymbol;
    var alc := HeaderOf(c, ss, p);
    OpenedIsSafe(c, ss, s, p);
    FdtHeaderCutsAlike(c, ss, p.n);
    var r := Opened(c, s.rx, alc);
    if 0 in r.files {
      var n := Current(s, p, r).value;
      FdtPacketParses(c, ss, p, r.files[0], n);
      if 0 !in s.rx.files {
        OwnSymbolPutsRight(c, ss, p, r.files[0], n);
      }
    } else {
      FdtPacketRead(c, ss, p);
    }
  }

  lemma FdtPacketRead(c: RxConfig, ss: Session, p: Packet)
    requires IsGenuine(c, ss, p) && p.FdtPacketOf?
    ensures var data, alc := PacketOf(ss, p) + p.stale, HeaderOf(c, ss, p);
      ParsePacket(data, |PacketOf(ss, p)|) == Parsed(alc, alc.HeaderLength()) && alc.HeaderLength() <= |data|
  {
    hide ToXml, EntryGood;
    var o, id := ss.Announcement(p.n), WireId(ss.tables[p.n]);
    PacketRoundTrip(ss.tsi, 0, o.oti, [ObjectSymbol(o.oti, o.data, p.k, p.j)], o.oti.encodingSymbolLength, id,
        p.stale);
  }

  /** The rest of the handler, once the symbol is known. */
  lemma HandledAs(c: RxConfig, ss: Session, r: Rx, p: Packet, r1: Rx, s: EncodingSymbol)
    requires IsGenuine(c, ss, p)
    requires var data, alc := PacketOf(ss, p) + p.stale, HeaderOf(c, ss, p);
      && ParsePacket(data, |PacketOf(ss, p)|) == Parsed(alc, alc.HeaderLength()) && alc.HeaderLength() <= |data|
      && alc.tsi == r.tsi && (OpensFdt(r, alc) ==> CanCut(alc.fecOti)) && r1 == Opened(c, r, alc)
      && alc.toi in r1.files && !r1.files[alc.toi].complete
      && PayloadSymbols(data, |PacketOf(ss, p)|, alc, r1.files[alc.toi].meta.fecOti) == Ok([s])
      && PutAll(c.md5, r1.files[alc.toi], [s]).Returned?
    ensures var data, alc := PacketOf(ss, p) + p.stale, HeaderOf(c, ss, p);
      var put := PutAll(c.md5, r1.files[alc.toi], [s]).state;
      var r2 := r1.(files := r1.files[alc.toi := put]);
      Receive(c, r, data, |PacketOf(ss, p)|) == if put.complete then Completed(c, r2, alc) else Returned(r2)
  {
  }

  /** A file on its way stays tracked. */
  lemma ProgressIsSafe(c: RxConfig, ss: Session, s: Reception, t: U64, g: FileState)
    requires Safe(c, ss, s) && t in s.rx.files
    requires t != 0 ==> t in ss.objects && Receiving(c, ss.objects[t], g)
    requires t == 0 ==> TrackedFdt(c, ss, s) && Receiving(c, ss.Announcement(s.current.value), g) && !Gated(g.meta)
    ensures Safe(c, ss, s.(rx := s.rx.(files := s.rx.files[t := g])))
  {
    hide Receiving, Listed, LogGood, DeliveredSince, TableGood;
    var r := s.rx.(files := s.rx.files[t := g]);
    forall u | u in r.files && u != 0
      ensures TrackedObject(c, ss, r.log, u, r.files[u])
    {
      assert TrackedObject(c, ss, s.rx.log, u, s.rx.files[u]);
    }
  }

  /** A completed object is delivered: its bytes, once, and nothing else with its location stays. */
  lemma DeliveryIsSafe(c: RxConfig, ss: Session, r: Rx, t: U16, g: FileState)
    requires SafeApartFromFdt(c, ss, r) && t != 0 && t in r.files && c.hasCallback
    requires g.meta == r.files[t].meta && g.complete && t in ss.objects && g.buffer == ss.objects[t].data
    requires g.meta.contentEncoding == ""
    ensures var alc, r2 := ReceivedHeader(ss.tsi, t, ss.objects[t].oti, 0), r.(files := r.files[t := g]);
      && Completed(c, r2, alc).Returned?
      && var q := Completed(c, r2, alc).state;
      && SafeApartFromFdt(c, ss, q) && q.log == r.log + [Delivered(t, g)] && q.fdt == r.fdt
      && q.files == map u | u in r.files && u != t && r.files[u].meta.contentLocation != g.meta.contentLocation
                       :: r.files[u]
  {
    hide Receiving;
    var alc, r2 := ReceivedHeader(ss.tsi, t, ss.objects[t].oti, 0), r.(files := r.files[t := g]);
    var q := Completed(c, r2, alc).state;
    assert TrackedObject(c, ss, r.log, t, r.files[t]);
    LogAppend(ss, r.log, Delivered(t, g));
    var kept := Replaced(r2.files, t);
    assert q == r2.(files := kept[t := g] - {t}, log := r.log + [Delivered(t, g)]);
    forall u | u in q.files && u != 0
      ensures TrackedObject(c, ss, q.log, u, q.files[u])
    {
      assert TrackedObject(c, ss, r.log, u, r.files[u]);
    }
  }

  /** The normal form of an announced table, read under an instance ID. */
  ghost function ReadAs(ss: Session, n: nat, id: U32): Table
    requires n < |ss.tables|
  {
    NormalTable(id, ss.tables[n])
  }

  /**
   * A completed FDT is installed under the ID of the packet that completed it: its objects are tracked, and what was
   * tracked stays, up to its location.
   */
  lemma InstallIsSafe(c: RxConfig, ss: Session, r: Rx, g: FileState, n: nat, alc: Alc)
    requires SessionGood(c, ss) && SafeApartFromFdt(c, ss, r) && 0 in r.files && n < |ss.tables| && alc.toi == 0
    requires g.meta == r.files[0].meta && g.complete && g.buffer == ss.Document(n)
    requires g.meta.contentEncoding == ""
    ensures var r2 := r.(files := r.files[0 := g]);
      && Completed(c, r2, alc).Returned?
      && var q, table := Completed(c, r2, alc).state, ReadAs(ss, n, alc.fdtInstanceId);
      && SafeApartFromFdt(c, ss, q) && 0 !in q.files
      && q.log == r.log + [Installed(table)] && q.fdt == Some(table)
      && InstalledFiles(table, r.files, g, q.files)
  {
    hide Install, ToXml, NormalTable, Partial, TableGood, LogGood, TrackedObject;
    var r2 := r.(files := r.files[0 := g]);
    var kept := r2.(files := Replaced(r2.files, 0)[0 := g]);
    InstalledFrom(c, ss, r, kept, n, alc.fdtInstanceId);
  }

  /**
   * Every listed object is tracked, and so is every file that does not share the location of the FDT; a file that is
   * tracked was tracked before or is a new one for an entry.
   */
  ghost predicate InstalledFiles(
    table: Table, before: map<U64, FileState>, g: FileState, files: map<U64, FileState>)
  {
    && (forall t :: ListedIn(table, t) ==> t in files)
    && (forall t :: t in before && t != 0 && before[t].meta.contentLocation != g.meta.contentLocation ==>
          t in files && files[t] == before[t])
    && (forall t :: t in files ==> (t in before && files[t] == before[t]) || IsForEntry(table, t, files[t]))
  }

  ghost predicate IsForEntry(table: Table, t: U64, f: FileState) {
    && NothingComplete(f)
    && exists i :: 0 <= i < |table.entries| && table.entries[i].toi == t && f.meta == table.entries[i]
  }

  /** Installing the table of a complete FDT, given files of which some may be gone. */
  lemma InstalledFrom(c: RxConfig, ss: Session, r: Rx, kept: Rx, n: nat, id: U32)
    requires SessionGood(c, ss) && SafeApartFromFdt(c, ss, r) && n < |ss.tables|
    requires 0 in kept.files && kept.files[0].buffer == ss.Document(n) && kept.tsi == r.tsi && kept.log == r.log
    requires forall t :: t in kept.files && t != 0 ==> t in r.files && kept.files[t] == r.files[t]
    ensures Install(c, kept, id).Returned?
    ensures var q, table := Install(c, kept, id).state, ReadAs(ss, n, id);
      && SafeApartFromFdt(c, ss, q) && 0 !in q.files
      && q.log == r.log + [Installed(table)] && q.fdt == Some(table)
      && (forall t :: ListedIn(table, t) ==> t in q.files)
      && (forall t :: t in kept.files && t != 0 ==> t in q.files && q.files[t] == kept.files[t])
      && (forall t :: t in q.files ==>
            (t in kept.files && q.files[t] == kept.files[t]) || IsForEntry(table, t, q.files[t]))
  {
    hide ToXml, ReadTable, StartAll, LogGood, SafeApartFromFdt, StartedFrom, NormalTable;
    var table, files := ReadAs(ss, n, id), kept.files - {0};
    TableReadBack(c, ss, n, id);
    StartAllIsReceiving(c, ss, files, table.entries);
    StartAllTracks(c, files, table.entries);
    StartedIsSafe(c, ss, r, files, table, Install(c, kept, id).state);
  }

  lemma TableReadBack(c: RxConfig, ss: Session, n: nat, id: U32)
    requires SessionGood(c, ss) && n < |ss.tables|
    ensures c.tokenise(ss.Document(n)).Some?
    ensures ReadTable(id, c.tokenise(ss.Document(n)).value) == Ok(ReadAs(ss, n, id))
    ensures |ReadAs(ss, n, id).entries| == |ss.tables[n].entries|
    ensures forall i :: 0 <= i < |ss.tables[n].entries| ==> EntryGood(c, ss, ReadAs(ss, n, id).entries[i])
  {
    hide ReadTable, ToXml, Normal;
    assert TableGood(c, ss, n);
    TableRoundTrip(id, ss.tables[n]);
  }

  lemma StartedIsSafe(c: RxConfig, ss: Session, r: Rx, files: map<U64, FileState>, table: Table, q: Rx)
    requires SafeApartFromFdt(c, ss, r) && 0 !in files
    requires forall t :: t in files ==> t in r.files && files[t] == r.files[t]
    requires forall t :: t in q.files ==> StartedFrom(c, ss, files, table.entries, q.files, t)
    requires q.tsi == r.tsi && q.log == r.log + [Installed(table)]
    ensures SafeApartFromFdt(c, ss, q) && 0 !in q.files
  {
    LogAppend(ss, r.log, Installed(table));
    forall t | t in q.files
      ensures t != 0 && TrackedObject(c, ss, q.log, t, q.files[t])
    {
      assert StartedFrom(c, ss, files, table.entries, q.files, t);
      if t in files && q.files[t] == files[t] {
        assert TrackedObject(c, ss, r.log, t, r.files[t]);
      } else {
        assert ListedIn(table, t);
      }
    }
  }

  lemma ObjectPacketIsSafe(c: RxConfig, ss: Session, s: Reception, p: Packet)
    requires SessionGood(c, ss) && Safe(c, ss, s) && IsGenuine(c, ss, p) && p.ObjectPacketOf? && c.hasCallback
    ensures Received(c, ss, s.rx, p).Returned? && Safe(c, ss, AfterPacket(c, ss, s, p))
    ensures 0 in AfterPacket(c, ss, s, p).rx.files ==> 0 in s.rx.files
  {
    hide ToXml, TableGood, Receiving, LogGood;
    var r := s.rx;
    ObjectPacketHandled(c, ss, r, p);
    if p.toi in r.files {
      var o, f := ss.objects[p.toi], r.files[p.toi];
      assert TrackedObject(c, ss, r.log, p.toi, f);
      var symbol := Genuine(f, o.data, p.k, p.j);
      ReceivingIsPlain(c, o, f);
      PutIsReceiving(c, o, f, p.k, p.j);
      HandledAs(c, ss, r, p, r, symbol);
      var g := PutAll(c.md5, f, [symbol]).state;
      if g.complete {
        DeliveryIsSafe(c, ss, r, p.toi, g);
      } else {
        ProgressIsSafe(c, ss, s, p.toi, g);
      }
    }
  }

  lemma ReceivingIsPlain(c: RxConfig, o: Object, f: FileState)
    requires Receiving(c, o, f)
    ensures !f.complete && f.meta.contentEncoding == ""
  {
  }

  /** The symbol of an FDT packet does to the file what the text's own symbol does. */
  lemma FdtSymbolIsGenuine(c: RxConfig, ss: Session, s: Reception, p: Packet, data: seq<Byte>, alc: Alc)
    requires Sendable(ss, p) && p.FdtPacketOf? && alc.HeaderLength() <= |data| && 0 in s.rx.files
    requires FdtSymbolArrives(c, ss, s, p, data, alc)
    ensures s.rx.files[0].Has(p.k, p.j)
    ensures PutAll(c.md5, s.rx.files[0], [FdtSymbol(ss, p)]) ==
            PutAll(c.md5, s.rx.files[0], [Genuine(s.rx.files[0], ss.Document(s.current.value), p.k, p.j)])
  {
    hide ToXml, Partial, PutAll, PutSymbol, PayloadSymbols;
    var f, text := s.rx.files[0], ss.Document(s.current.value);
    RightIsGenuine(c.md5, f, text, FdtSymbol(ss, p));
    PutAllOne(c.md5, f, FdtSymbol(ss, p));
    PutAllOne(c.md5, f, Genuine(f, text, p.k, p.j));
  }

  /** An FDT packet that fits: the file at TOI 0 moves on towards its text, and is handled if that completes it. */
  lemma FdtPacketProgress(c: RxConfig, ss: Session, s: Reception, p: Packet) returns (n: nat, g: FileState)
    requires Safe(c, ss, s) && IsGenuine(c, ss, p) && p.FdtPacketOf? && FitsText(ss, s, p)
    requires var alc := HeaderOf(c, ss, p);
      (OpensFdt(s.rx, alc) ==> CanCut(alc.fecOti)) && 0 in Opened(c, s.rx, alc).files
    ensures var r := Opened(c, s.rx, HeaderOf(c, ss, p));
      && Current(s, p, r) == Some(n) && n < |ss.tables| && Safe(c, ss, Reception(r, Some(n))) && r.log == s.rx.log
      && !Gated(r.files[0].meta)
      && var f, o := r.files[0], ss.Announcement(n);
      && Receiving(c, o, f) && f.Has(p.k, p.j)
      && g == PutAll(c.md5, f, [Genuine(f, o.data, p.k, p.j)]).state && g.meta == f.meta
      && (!g.complete ==> Receiving(c, o, g)) && (g.complete ==> g.buffer == o.data)
    ensures var alc := HeaderOf(c, ss, p);
      var r2 := Opened(c, s.rx, alc).(files := Opened(c, s.rx, alc).files[0 := g]);
      alc.toi == 0 && Received(c, ss, s.rx, p) == if g.complete then Completed(c, r2, alc) else Returned(r2)
  {
    hide ToXml, TableGood, Receiving, LogGood, TrackedObject, PutsRight, FdtSymbol, PutAll, Completed, SafeApartFromFdt,
         HeaderOf, Receive, Opened, IsGenuine;
    GenuineIsSendable(c, ss, p);
    FdtPacketHandled(c, ss, s, p);
    var data, alc := PacketOf(ss, p) + p.stale, HeaderOf(c, ss, p);
    var r := Opened(c, s.rx, alc);
    var begun := Reception(r, Current(s, p, r));
    n := begun.current.value;
    var o, f := ss.Announcement(n), r.files[0];
    FdtSymbolIsGenuine(c, ss, begun, p, data, alc);
    ReceivingIsPlain(c, o, f);
    PutIsReceiving(c, o, f, p.k, p.j);
    g := PutAll(c.md5, f, [FdtSymbol(ss, p)]).state;
    HandledAs(c, ss, s.rx, p, r, FdtSymbol(ss, p));
  }

  lemma FdtPacketIsSafe(c: RxConfig, ss: Session, s: Reception, p: Packet)
    requires SessionGood(c, ss) && Safe(c, ss, s) && IsGenuine(c, ss, p) && p.FdtPacketOf? && FitsText(ss, s, p)
    ensures Received(c, ss, s.rx, p).Returned? && Safe(c, ss, AfterPacket(c, ss, s, p))
  {
    hide ToXml, TableGood, Receiving, LogGood, TrackedObject, PutsRight, PutAll, Partial;
    FdtPacketHandled(c, ss, s, p);
    var alc := HeaderOf(c, ss, p);
    var r := Opened(c, s.rx, alc);
    if 0 in r.files {
      hide Opened, HeaderOf, Receive, Completed, IsGenuine, SafeApartFromFdt;
      var n, g := FdtPacketProgress(c, ss, s, p);
      ReceivingIsPlain(c, ss.Announcement(n), r.files[0]);
      if g.complete {
        InstallIsSafe(c, ss, r, g, n, alc);
      } else {
        ProgressIsSafe(c, ss, Reception(r, Some(n)), 0, g);
      }
    }
  }

  // ---------------------------------------------------------------------------------------------
  // Whole runs
  // ---------------------------------------------------------------------------------------------

  /** The steps of a receiver: packets, and the application removing files. */
  datatype Step = Arrives(packet: Packet) | RemovesLocation(location: string) | RemovesExpired(expired: set<U64>)

  ghost function Received(c: RxConfig, ss: Session, r: Rx, p: Packet): Outcome<Rx>
    requires IsGenuine(c, ss, p)
  {
    Receive(c, r, PacketOf(ss, p) + p.stale, |PacketOf(ss, p)|)
  }

  ghost function AfterPacket(c: RxConfig, ss: Session, s: Reception, p: Packet): Reception
    requires IsGenuine(c, ss, p)
  {
    var r := Received(c, ss, s.rx, p).state;
    Reception(r, Current(s, p, r))
  }

  ghost predicate StepGenuine(c: RxConfig, ss: Session, step: Step) {
    step.Arrives? ==> IsGenuine(c, ss, step.packet)
  }

  ghost predicate StepGood(c: RxConfig, ss: Session, s: Reception, step: Step) {
    StepGenuine(c, ss, step) && (step.Arrives? ==> FitsText(ss, s, step.packet))
  }

  /** A step throws nothing. */
  ghost predicate StepReturns(c: RxConfig, ss: Session, s: Reception, step: Step)
    requires StepGenuine(c, ss, step)
  {
    step.Arrives? ==> Received(c, ss, s.rx, step.packet).Returned?
  }

  ghost function Removed(s: Reception, r: Rx): Reception {
    Reception(r, if 0 in r.files then s.current else None)
  }

  ghost function After(c: RxConfig, ss: Session, s: Reception, step: Step): Reception
    requires StepGenuine(c, ss, step)
  {
    match step
    case Arrives(p) => AfterPacket(c, ss, s, p)
    case RemovesLocation(location) => Removed(s, RemoveLocation(s.rx, location))
    case RemovesExpired(expired) => Removed(s, RemoveExpired(s.rx, expired))
  }

  lemma RemovalIsSafe(c: RxConfig, ss: Session, s: Reception, files: map<U64, FileState>)
    requires Safe(c, ss, s) && forall t :: t in files ==> t in s.rx.files && files[t] == s.rx.files[t]
    ensures Safe(c, ss, Removed(s, s.rx.(files := files)))
  {
    hide TableGood, Receiving, LogGood;
    forall t | t in files && t != 0
      ensures TrackedObject(c, ss, s.rx.log, t, files[t])
    {
      assert TrackedObject(c, ss, s.rx.log, t, s.rx.files[t]);
    }
  }

  /** A step throws nothing and keeps the invariant. */
  lemma StepIsSafe(c: RxConfig, ss: Session, s: Reception, step: Step)
    requires SessionGood(c, ss) && Safe(c, ss, s) && StepGood(c, ss, s, step) && c.hasCallback
    ensures StepReturns(c, ss, s, step) && Safe(c, ss, After(c, ss, s, step))
  {
    hide SessionGood, Safe, IsGenuine, Receive, AfterPacket;
    match step {
      case Arrives(p) =>
        if p.ObjectPacketOf? {
          ObjectPacketIsSafe(c, ss, s, p);
        } else {
          FdtPacketIsSafe(c, ss, s, p);
        }
      case RemovesLocation(location) => RemovalIsSafe(c, ss, s, RemoveLocation(s.rx, location).files);
      case RemovesExpired(expired) => RemovalIsSafe(c, ss, s, RemoveExpired(s.rx, expired).files);
    }
  }

  /** Every packet of a run is genuine. */
  ghost predicate RunGenuine(c: RxConfig, ss: Session, steps: seq<Step>) {
    forall i :: 0 <= i < |steps| ==> StepGenuine(c, ss, steps[i])
  }

  /** Every FDT packet of a run fits the text that is being received. */
  ghost predicate RunFitsText(c: RxConfig, ss: Session, s: Reception, steps: seq<Step>)
    requires RunGenuine(c, ss, steps)
    decreases |steps|
  {
    steps != [] ==>
      && (steps[0].Arrives? ==> FitsText(ss, s, steps[0].packet))
      && RunFitsText(c, ss, After(c, ss, s, steps[0]), steps[1..])
  }

  /** No packet of another FDT text comes while one is being received. */
  ghost predicate RunNotInterleaved(c: RxConfig, ss: Session, s: Reception, steps: seq<Step>)
    requires RunGenuine(c, ss, steps)
    decreases |steps|
  {
    steps != [] ==>
      && (steps[0].Arrives? ==> NotInterleaved(ss, s, steps[0].packet))
      && RunNotInterleaved(c, ss, After(c, ss, s, steps[0]), steps[1..])
  }

  /** Nothing is thrown in a run. */
  ghost predicate RunReturns(c: RxConfig, ss: Session, s: Reception, steps: seq<Step>)
    requires RunGenuine(c, ss, steps)
    decreases |steps|
  {
    steps != [] ==>
      StepReturns(c, ss, s, steps[0]) && RunReturns(c, ss, After(c, ss, s, steps[0]), steps[1..])
  }

  ghost function AfterAll(c: RxConfig, ss: Session, s: Reception, steps: seq<Step>): Reception
    requires RunGenuine(c, ss, steps)
    decreases |steps|
  {
    if steps == [] then s else AfterAll(c, ss, After(c, ss, s, steps[0]), steps[1..])
  }

  ghost function Fresh(ss: Session): Reception {
    Reception(NewReceiver(ss.tsi), None)
  }

  /** Over every run nothing is thrown and the invariant holds. */
  lemma {:induction false} RunIsSafe(c: RxConfig, ss: Session, s: Reception, steps: seq<Step>)
    requires SessionGood(c, ss) && Safe(c, ss, s) && c.hasCallback
    requires RunGenuine(c, ss, steps) && RunFitsText(c, ss, s, steps)
    ensures RunReturns(c, ss, s, steps) && Safe(c, ss, AfterAll(c, ss, s, steps))
    decreases |steps|
  {
    hide SessionGood, Safe, StepGenuine, After;
    if steps != [] {
      assert StepGenuine(c, ss, steps[0]);
      StepIsSafe(c, ss, s, steps[0]);
      RunIsSafe(c, ss, After(c, ss, s, steps[0]), steps[1..]);
    }
  }

  /** A run whose texts do not interleave fits. */
  lemma {:induction false} UninterleavedRunFits(c: RxConfig, ss: Session, s: Reception, steps: seq<Step>)
    requires SessionGood(c, ss) && Safe(c, ss, s) && c.hasCallback
    requires RunGenuine(c, ss, steps) && RunNotInterleaved(c, ss, s, steps)
    ensures RunFitsText(c, ss, s, steps)
    decreases |steps|
  {
    hide SessionGood, Safe, IsGenuine, After, NotInterleaved, FitsText;
    if steps != [] {
      assert StepGenuine(c, ss, steps[0]);
      if steps[0].Arrives? {
        UninterleavedFits(c, ss, s, steps[0].packet);
      }
      StepIsSafe(c, ss, s, steps[0]);
      UninterleavedRunFits(c, ss, After(c, ss, s, steps[0]), steps[1..]);
    }
  }

  /** Between two deliveries of one object a table was installed. */
  lemma {:induction false} DeliveredOnceBetweenInstalls(log: seq<Observed>, i: nat, n: nat, t: U64)
    requires i < n <= |log| && log[i].Delivered? && log[i].toi == t && !DeliveredSince(log[..n], t)
    ensures exists m :: i < m < n && log[m].Installed?
    decreases n - i
  {
    var prefix := log[..n];
    assert prefix[n - 1] == log[n - 1] && prefix[..n - 1] == log[..n - 1];
    if log[n - 1].Delivered? {
      assert n - 1 != i;
      DeliveredOnceBetweenInstalls(log, i, n - 1, t);
    }
  }

  /** Each delivery is of a listed object and of its bytes, and between two of the same a table was installed. */
  ghost predicate DeliveriesRight(ss: Session, log: seq<Observed>) {
    && (forall i :: 0 <= i < |log| && log[i].Delivered? ==>
          && log[i].toi in ss.objects && log[i].file.buffer == ss.objects[log[i].toi].data
          && Listed(log[..i], log[i].toi))
    && (forall i, j :: 0 <= i < j < |log| && log[i].Delivered? && log[j].Delivered? && log[i].toi == log[j].toi ==>
          exists m :: i < m < j && log[m].Installed?)
  }

  lemma GoodLogDeliversRight(ss: Session, log: seq<Observed>)
    requires LogGood(ss, log)
    ensures DeliveriesRight(ss, log)
  {
    assert forall i :: 0 <= i < |log| && log[i].Delivered? ==> DeliveryGood(ss, log, i);
    forall i, j | 0 <= i < j < |log| && log[i].Delivered? && log[j].Delivered? && log[i].toi == log[j].toi
      ensures exists m :: i < m < j && log[m].Installed?
    {
      assert DeliveryGood(ss, log, j);
      DeliveredOnceBetweenInstalls(log, i, j, log[i].toi);
    }
  }

  /**
   * Safety.  Over every run of a session's packets, lost, repeated and reordered as they may be, and of removals by
   * the application, with a callback registered and FDT symbols that fit the text being received: nothing is thrown,
   * each callback is for an object listed in a table installed before, delivers exactly that object's bytes, and
   * between two callbacks for the same object a table was installed.
   */
  lemma CallbacksAreSafe(c: RxConfig, ss: Session, steps: seq<Step>)
    requires SessionGood(c, ss) && c.hasCallback
    requires RunGenuine(c, ss, steps) && RunFitsText(c, ss, Fresh(ss), steps)
    ensures RunReturns(c, ss, Fresh(ss), steps)
    ensures DeliveriesRight(ss, AfterAll(c, ss, Fresh(ss), steps).rx.log)
  {
    RunIsSafe(c, ss, Fresh(ss), steps);
    GoodLogDeliversRight(ss, AfterAll(c, ss, Fresh(ss), steps).rx.log);
  }
}
