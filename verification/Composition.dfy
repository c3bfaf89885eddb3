/**
 * Transmitter and receiver together: the packets of every orderly run of the transmitter form a session of the kind
 * the receiver is safe for, and an instance ID the receiver skips hides no change.
 */
module Composition {
  import opened Bytes
  import opened Flute
  import opened EncodingSymbols
  import opened AlcPackets
  import opened Files
  import opened Completion
  import opened Conservation
  import opened EndToEnd
  import opened FdtXml
  import opened FdtObject
  import opened FdtRoundTrip
  import opened Transmitters
  import Draining
  import Interleaving
  import ReceiverLiveness
  import Receivers
  import ReceiverSafety
  import Versioning

  // ---------------------------------------------------------------------------------------------
  // What stays of a file
  // ---------------------------------------------------------------------------------------------

  /** Sending a file changes its flags only. */
  ghost predicate SameFixed(f: FileState, g: FileState) {
    g.meta == f.meta && g.buffer == f.buffer && g.fdtInstanceId == f.fdtInstanceId
  }

  /** Files are only ever added, and keep what they carry. */
  ghost predicate Grown(before: seq<FileState>, after: seq<FileState>) {
    |before| <= |after| && forall h :: 0 <= h < |before| ==> SameFixed(before[h], after[h])
  }

  /** A later state of the same transmitter. */
  ghost predicate Later(s: Tx, t: Tx) {
    && Grown(s.objects, t.objects) && s.announced <= t.announced
    && t.fecOti == s.fecOti && t.tsi == s.tsi && t.fdt.globalOti == s.fdt.globalOti
  }

  lemma LaterStill(s: Tx, t: Tx, u: Tx)
    requires Later(s, t) && Later(t, u)
    ensures Later(s, u)
  {
    forall h | 0 <= h < |s.objects|
      ensures SameFixed(s.objects[h], u.objects[h])
    {
      assert SameFixed(s.objects[h], t.objects[h]) && SameFixed(t.objects[h], u.objects[h]);
    }
  }

  lemma {:induction false} TakingIsFixed(f: FileState, n: nat)
    ensures SameFixed(f, NextBatch(f, n).0)
    decreases n
  {
    IdleFromExists(f.blocks, 0, 0);
    var first := IdleFrom(f.blocks, 0, 0);
    if n > 0 && first.Some? {
      TakingIsFixed(Queue(f, first.value.0, first.value.1), n - 1);
    }
  }

  lemma MarkingOneIsFixed(md5: Md5, f: FileState, s: EncodingSymbol)
    ensures SameFixed(f, MarkOne(md5, f, s, true).state)
  {
  }

  lemma {:induction false} MarkingIsFixed(md5: Md5, f: FileState, symbols: seq<EncodingSymbol>)
    ensures SameFixed(f, MarkCompleted(md5, f, symbols, true).state)
    decreases |symbols|
  {
    hide MarkOne;
    if symbols != [] {
      MarkingOneIsFixed(md5, f, symbols[0]);
      MarkingIsFixed(md5, MarkOne(md5, f, symbols[0], true).state, symbols[1..]);
    }
  }

  lemma SendFdtIsLater(c: Config, s: Tx, now: U64)
    ensures Later(s, SendFdt(c, s, now))
  {
    hide FdtFile, ExpiryAt;
  }

  lemma TickIsLater(s: Tx)
    requires s.maxPayload >= 4
    ensures var t := SendTick(s);
      Later(s, t) && |t.objects| == |s.objects| && t.announced == s.announced && t.fdt == s.fdt
  {
    hide NextBatch;
    if NextFlight(s).Some? {
      var f := NextFlight(s).value;
      TakingIsFixed(s.objects[f.file], RequestedIn(s, f.file));
    }
  }

  // ---------------------------------------------------------------------------------------------
  // What the transmitter announces
  // ---------------------------------------------------------------------------------------------

  /** An object that FDT and packets can describe exactly. */
  ghost predicate Plain(meta: FileEntry) {
    && 0 < meta.toi < 0x1_0000 && meta.contentEncoding == "" && meta.fecOti.encodingId == COMPACT_NO_CODE
    && meta.fecOti.transferLength < 0x1_0000_0000
  }

  ghost predicate IsEntryOf(objects: seq<FileState>, e: FileEntry) {
    e.toi != 0 && exists h :: 0 <= h < |objects| && objects[h].meta == e
  }

  ghost predicate EntriesKnown(objects: seq<FileState>, entries: seq<FileEntry>) {
    forall i :: 0 <= i < |entries| ==> IsEntryOf(objects, entries[i])
  }

  /** An announced table lists known objects, and its text is supported. */
  ghost predicate TableKnown(c: Config, s: Tx, t: Table) {
    && t.globalOti == s.fecOti && EntriesKnown(s.objects, t.entries) && Draining.DocumentSupported(c, s.fecOti, t)
  }

  ghost predicate CarriesAnnounced(c: Config, s: Tx, f: FileState) {
    exists n :: 0 <= n < |s.announced| && SameFixed(FdtFile(c, s.fecOti, s.announced[n]), f)
  }

  /** A file carries a table that was announced, or an object that is not an FDT. */
  ghost predicate FileKnown(c: Config, s: Tx, f: FileState) {
    if f.meta.toi == 0 then CarriesAnnounced(c, s, f) else f.fdtInstanceId == 0 && Plain(f.meta)
  }

  ghost predicate Known(c: Config, s: Tx) {
    && s.fecOti.encodingId == COMPACT_NO_CODE && s.fdt.globalOti == s.fecOti
    && EntriesKnown(s.objects, s.fdt.entries)
    && (forall n :: 0 <= n < |s.announced| ==> TableKnown(c, s, s.announced[n]))
    && (forall h :: 0 <= h < |s.objects| ==> FileKnown(c, s, s.objects[h]))
  }

  lemma EntriesStayKnown(before: seq<FileState>, after: seq<FileState>, entries: seq<FileEntry>)
    requires EntriesKnown(before, entries) && Grown(before, after)
    ensures EntriesKnown(after, entries)
  {
    forall i | 0 <= i < |entries|
      ensures IsEntryOf(after, entries[i])
    {
      assert IsEntryOf(before, entries[i]);
      var h :| 0 <= h < |before| && before[h].meta == entries[i];
      assert SameFixed(before[h], after[h]);
    }
  }

  lemma TableStaysKnown(c: Config, s: Tx, t: Tx, table: Table)
    requires TableKnown(c, s, table) && Later(s, t)
    ensures TableKnown(c, t, table)
  {
    hide Draining.DocumentSupported;
    EntriesStayKnown(s.objects, t.objects, table.entries);
  }

  lemma FileStaysKnown(c: Config, s: Tx, t: Tx, f: FileState, g: FileState)
    requires FileKnown(c, s, f) && Later(s, t) && SameFixed(f, g)
    ensures FileKnown(c, t, g)
  {
    hide FdtFile;
    if f.meta.toi == 0 {
      var n :| 0 <= n < |s.announced| && SameFixed(FdtFile(c, s.fecOti, s.announced[n]), f);
      assert t.announced[n] == s.announced[n];
    }
  }

  /** What was known stays known while nothing is added. */
  lemma StaysKnown(c: Config, s: Tx, t: Tx)
    requires Known(c, s) && Later(s, t) && |t.objects| == |s.objects| && t.announced == s.announced
    requires EntriesKnown(s.objects, t.fdt.entries)
    ensures Known(c, t)
  {
    hide TableKnown, FileKnown, IsEntryOf;
    EntriesStayKnown(s.objects, t.objects, t.fdt.entries);
    forall n | 0 <= n < |t.announced|
      ensures TableKnown(c, t, t.announced[n])
    {
      TableStaysKnown(c, s, t, s.announced[n]);
    }
    forall h | 0 <= h < |t.objects|
      ensures FileKnown(c, t, t.objects[h])
    {
      FileStaysKnown(c, s, t, s.objects[h], t.objects[h]);
    }
  }

  /** A new object and its entry. */
  lemma RecordedIsKnown(c: Config, s: Tx, file: FileState)
    requires Known(c, s) && file.fdtInstanceId == 0 && Plain(file.meta)
    ensures Known(c, Recorded(s, file)) && Later(s, Recorded(s, file))
  {
    hide TableKnown, FileKnown, IsEntryOf;
    var t := Recorded(s, file);
    forall n | 0 <= n < |t.announced|
      ensures TableKnown(c, t, t.announced[n])
    {
      TableStaysKnown(c, s, t, s.announced[n]);
    }
    forall h | 0 <= h < |t.objects|
      ensures FileKnown(c, t, t.objects[h])
    {
      if h < |s.objects| {
        FileStaysKnown(c, s, t, s.objects[h], t.objects[h]);
      } else {
        PlainIsKnown(c, t, file);
      }
    }
    EntriesStayKnown(s.objects, t.objects, s.fdt.entries);
    assert t.objects[|s.objects|] == file;
    EntryOfIs(t.objects, |s.objects|, file.meta);
  }

  lemma PlainIsKnown(c: Config, t: Tx, file: FileState)
    requires file.fdtInstanceId == 0 && Plain(file.meta)
    ensures FileKnown(c, t, file)
  {
  }

  lemma EntryOfIs(objects: seq<FileState>, h: nat, e: FileEntry)
    requires h < |objects| && objects[h].meta == e && e.toi != 0
    ensures IsEntryOf(objects, e)
  {
  }

  /** An announcement and the file that carries it. */
  lemma SentFdtIsKnown(c: Config, s: Tx, now: U64)
    requires Known(c, s) && Draining.Announceable(c, s.fecOti, s.fdt, now)
    ensures Known(c, SendFdt(c, s, now))
  {
    hide FileKnown, FdtFile, Draining.DocumentSupported, IsEntryOf, ExpiryAt;
    var r := SendFdt(c, s, now);
    SendFdtIsLater(c, s, now);
    if s.fdt.entries != [] {
      EntriesStayKnown(s.objects, r.objects, s.fdt.entries);
      forall n | 0 <= n < |r.announced|
        ensures TableKnown(c, r, r.announced[n])
      {
        if n < |s.announced| {
          TableStaysKnown(c, s, r, s.announced[n]);
        }
      }
      forall h | 0 <= h < |r.objects|
        ensures FileKnown(c, r, r.objects[h])
      {
        if h < |s.objects| {
          FileStaysKnown(c, s, r, s.objects[h], r.objects[h]);
        } else {
          CarrierIsKnown(c, r, |s.announced|);
        }
      }
    }
  }

  lemma CarrierIsKnown(c: Config, r: Tx, n: nat)
    requires n < |r.announced|
    ensures FileKnown(c, r, FdtFile(c, r.fecOti, r.announced[n]))
  {
    hide Draining.DocumentSupported;
    assert SameFixed(FdtFile(c, r.fecOti, r.announced[n]), FdtFile(c, r.fecOti, r.announced[n]));
  }

  // ---------------------------------------------------------------------------------------------
  // Steps
  // ---------------------------------------------------------------------------------------------

  /** What FDT and packets can describe exactly: no content encoding, 16-bit TOIs and 32-bit lengths. */
  ghost predicate Describable(s: Tx, e: Event) {
    match e
    case SendingData(_, _, _, data, _) => |data| < 0x1_0000_0000
    case SendingDescription(d, _) =>
      d.entry.contentEncoding == "" && DescriptionEntry(s, d).toi < 0x1_0000 && |d.data| < 0x1_0000_0000
    case _ => true
  }

  ghost predicate AllDescribable(c: Config, s: Tx, events: seq<Event>)
    decreases |events|
  {
    events != [] ==> Describable(s, events[0]) && AllDescribable(c, Step(c, s, events[0]), events[1..])
  }

  lemma SendDataIsKnown(
    c: Config, s: Tx, location: string, contentType: string, expires: U32, data: seq<Byte>, now: U64)
    requires Known(c, s) && Draining.Acceptable(s, data) && |data| < 0x1_0000_0000
    requires Draining.Announceable(
               c, s.fecOti, AddEntry(s.fdt, DataFile(c, s, location, contentType, expires, data).meta), now)
    ensures var t := SendData(c, s, location, contentType, expires, data, now); Known(c, t) && Later(s, t)
  {
    hide SendFdt, Draining.Announceable, Known, SupportedData, Layout;
    var file := DataFile(c, s, location, contentType, expires, data);
    FecIsNoCode(c, s);
    RecordedIsKnown(c, s, file);
    var s1 := Recorded(ToiTaken(s), file);
    SameButSettings(c, Recorded(s, file), s1);
    SentFdtIsKnown(c, s1, now);
    SendFdtIsLater(c, s1, now);
    LaterStill(s, s1, SendFdt(c, s1, now));
    SameButSettings(c, SendFdt(c, s1, now), SendData(c, s, location, contentType, expires, data, now));
    LaterStill(s, SendFdt(c, s1, now), SendData(c, s, location, contentType, expires, data, now));
  }

  lemma FecIsNoCode(c: Config, s: Tx)
    requires Known(c, s)
    ensures s.fecOti.encodingId == COMPACT_NO_CODE
  {
  }

  /** Keys, counters and packets in flight play no part. */
  lemma SameButSettings(c: Config, s: Tx, t: Tx)
    requires t.objects == s.objects && t.announced == s.announced && t.fdt == s.fdt
    requires t.fecOti == s.fecOti && t.tsi == s.tsi
    ensures Later(s, t) && (Known(c, s) ==> Known(c, t))
  {
    hide TableKnown, FileKnown, IsEntryOf;
    if Known(c, s) {
      StaysKnown(c, s, t);
    }
  }

  lemma SendDescriptionIsKnown(c: Config, s: Tx, d: Description, now: U64)
    requires Known(c, s) && Draining.AcceptableDescription(c, s, d) && Describable(s, SendingDescription(d, now))
    requires Draining.DescriptionFile(s, d).fecOti.encodingId == COMPACT_NO_CODE ==>
               Draining.Announceable(c, s.fecOti, AddEntry(s.fdt, Draining.DescriptionFile(s, d)), now)
    ensures var t := SendDescription(c, s, d, now).0.state; Known(c, t) && Later(s, t)
  {
    hide SendFdt, Draining.Announceable, Known, Supported, Layout, AssignedToi, GenuineDigest;
    var s1, entry := AfterAssigning(s, d), DescriptionEntry(s, d);
    SameButSettings(c, s, s1);
    if entry.fecOti.encodingId == COMPACT_NO_CODE {
      var file := DescribedFile(entry, d.data);
      assert file.meta == Draining.DescriptionFile(s, d);
      RecordedIsKnown(c, s1, file);
      var listed := Listed(s1, entry.toi, file);
      SameButSettings(c, Recorded(s1, file), listed);
      SentFdtIsKnown(c, listed, now);
      SendFdtIsLater(c, listed, now);
      LaterStill(s, s1, listed);
      LaterStill(s, listed, SendFdt(c, listed, now));
    }
  }

  lemma WithoutStaysKnown(objects: seq<FileState>, entries: seq<FileEntry>, toi: U32)
    requires EntriesKnown(objects, entries)
    ensures EntriesKnown(objects, Without(entries, toi))
  {
    hide IsEntryOf;
    WithoutKeepsOthers(entries, toi);
    forall i | 0 <= i < |Without(entries, toi)|
      ensures IsEntryOf(objects, Without(entries, toi)[i])
    {
      assert Without(entries, toi)[i] in entries;
    }
  }

  /** One file changes its flags, and perhaps entries go. */
  lemma MarkedIsKnown(c: Config, s: Tx, h: nat, file: FileState, toi: U32, t: Tx)
    requires Known(c, s) && h < |s.objects| && SameFixed(s.objects[h], file) && t.objects == s.objects[h := file]
    requires t.announced == s.announced && t.fecOti == s.fecOti && t.tsi == s.tsi && t.fdt.globalOti == s.fdt.globalOti
    requires t.fdt == s.fdt || t.fdt.entries == Without(s.fdt.entries, toi)
    ensures Known(c, t) && Later(s, t)
  {
    hide TableKnown, FileKnown, IsEntryOf;
    WithoutStaysKnown(s.objects, s.fdt.entries, toi);
    StaysKnown(c, s, t);
  }

  lemma AcknowledgeIsKnown(c: Config, s: Tx, f: Flight, now: U64)
    requires Known(c, s) && Draining.AckAnnounceable(c, s, f, now)
    ensures var t := Acknowledge(c, s, f, now); Known(c, t) && Later(s, t)
  {
    hide SendFdt, MarkCompleted, Known, Draining.Announceable;
    var r := Acknowledge(c, s, f, now);
    if f.file >= |s.objects| {
      SameButSettings(c, s, r);
    } else {
      var file := MarkCompleted(c.md5, s.objects[f.file], f.symbols, true).state;
      var toi, s1 := file.meta.toi, Draining.Marked(c, s, f);
      MarkingIsFixed(c.md5, s.objects[f.file], f.symbols);
      MarkedIsKnown(c, s, f.file, file, toi, s1);
      if toi == 0 || !MarkCompleted(c.md5, s.objects[f.file], f.symbols, true).Returned? || !file.complete {
        SameButSettings(c, s1, r);
        LaterStill(s, s1, r);
      } else {
        var s2 := s1.(files := s1.files - {toi}, fdt := RemoveEntry(s1.fdt, toi));
        MarkedIsKnown(c, s, f.file, file, toi, s2);
        SentFdtIsKnown(c, s2, now);
        SendFdtIsLater(c, s2, now);
        SameButSettings(c, SendFdt(c, s2, now), r);
        LaterStill(s, s2, SendFdt(c, s2, now));
        LaterStill(s, SendFdt(c, s2, now), r);
      }
    }
  }

  lemma StepIsKnown(c: Config, s: Tx, e: Event)
    requires Known(c, s) && Draining.Orderly(c, s, e) && Describable(s, e)
    ensures Known(c, Step(c, s, e)) && Later(s, Step(c, s, e))
  {
    hide Known, SendFdt, SendData, SendDescription, Acknowledge, SendTick, Draining.Announceable,
         Draining.AckAnnounceable, Draining.Acceptable, Draining.AcceptableDescription, DataFile;
    match e {
      case SendingData(location, contentType, expires, data, now) =>
        SendDataIsKnown(c, s, location, contentType, expires, data, now);
      case SendingDescription(d, now) => SendDescriptionIsKnown(c, s, d, now);
      case FdtTimer(now) =>
        if s.active {
          SentFdtIsKnown(c, s, now);
          SendFdtIsLater(c, s, now);
        } else {
          SameButSettings(c, s, s);
        }
      case SendTimer =>
        if s.maxPayload >= 4 {
          TickIsLater(s);
          TickIsKnown(c, s);
        } else {
          SameButSettings(c, s, s);
        }
      case Acknowledged(f, now) =>
        if f in s.inFlight {
          AcknowledgeIsKnown(c, s, f, now);
        } else {
          SameButSettings(c, s, s);
        }
      case SendFailed(f) => SameButSettings(c, s, Step(c, s, e));
      case Tunnel(on) => SameButSettings(c, s, Step(c, s, e));
      case Activation(on) => SameButSettings(c, s, Step(c, s, e));
    }
  }

  lemma TickIsKnown(c: Config, s: Tx)
    requires Known(c, s) && s.maxPayload >= 4
    ensures Known(c, SendTick(s))
  {
    hide TableKnown, FileKnown, IsEntryOf, SendTick;
    TickIsLater(s);
    StaysKnown(c, s, SendTick(s));
  }

  lemma {:induction false} StepsAreKnown(c: Config, s: Tx, events: seq<Event>)
    requires Known(c, s) && Draining.AllOrderly(c, s, events) && AllDescribable(c, s, events)
    ensures Known(c, Steps(c, s, events)) && Later(s, Steps(c, s, events))
    decreases |events|
  {
    hide Known, Later, Step, Describable, Draining.Orderly;
    if events == [] {
      SameButSettings(c, s, s);
    } else {
      var t := Step(c, s, events[0]);
      StepIsKnown(c, s, events[0]);
      StepsAreKnown(c, t, events[1..]);
      LaterStill(s, t, Steps(c, t, events[1..]));
    }
  }

  lemma ConstructedIsKnown(c: Config, tsi: U64, mtu: U16, tunnelled: bool, ns: FdtNamespace, active: bool)
    requires MaxPayload(mtu, tunnelled) != 0
    ensures Known(c, Constructed(tsi, mtu, tunnelled, ns, active))
  {
  }

  // ---------------------------------------------------------------------------------------------
  // The session of a run
  // ---------------------------------------------------------------------------------------------

  function ObjectsByToi(files: seq<FileState>): map<U16, ReceiverSafety.Object> {
    if files == [] then map[]
    else
      var rest, f := ObjectsByToi(files[1..]), files[0];
      if 0 < f.meta.toi < 0x1_0000 then rest[f.meta.toi := ReceiverSafety.Object(f.meta.fecOti, f.buffer)] else rest
  }

  /** What a transmitter has sent so far, as a session. */
  function SessionOf(c: Config, s: Tx): ReceiverSafety.Session {
    ReceiverSafety.Session(s.tsi % 0x1_0000, ObjectsByToi(s.objects), s.fecOti, s.announced, c.render)
  }

  /** No TOI was used for two objects. */
  ghost predicate DistinctTois(files: seq<FileState>) {
    forall i, j :: 0 <= i < j < |files| && files[i].meta.toi != 0 ==> files[i].meta.toi != files[j].meta.toi
  }

  lemma {:induction false} ObjectOfToi(files: seq<FileState>, h: nat)
    requires DistinctTois(files) && h < |files| && 0 < files[h].meta.toi < 0x1_0000
    ensures files[h].meta.toi in ObjectsByToi(files)
    ensures ObjectsByToi(files)[files[h].meta.toi] == ReceiverSafety.Object(files[h].meta.fecOti, files[h].buffer)
  {
    var rest := files[1..];
    assert forall i :: 0 <= i < |rest| ==> rest[i] == files[i + 1];
    if h > 0 {
      ObjectOfToi(rest, h - 1);
    }
  }

  lemma {:induction false} ObjectComesFrom(files: seq<FileState>, toi: U16) returns (h: nat)
    requires toi in ObjectsByToi(files)
    ensures h < |files| && files[h].meta.toi == toi != 0
    ensures ObjectsByToi(files)[toi] == ReceiverSafety.Object(files[h].meta.fecOti, files[h].buffer)
  {
    if files[0].meta.toi == toi && toi != 0 {
      h := 0;
    } else {
      var i := ObjectComesFrom(files[1..], toi);
      h := i + 1;
    }
  }

  /** The receiver can read what is announced: texts that fit a header, and a tokenizer that undoes the printer. */
  ghost predicate Readable(c: Config, rc: Receivers.RxConfig, s: Tx) {
    && rc.md5 == c.md5 && s.fecOti.encodingSymbolLength < 0x1_0000
    && forall n :: 0 <= n < |s.announced| ==> TextReadable(c, rc, s.announced[n])
  }

  ghost predicate TextReadable(c: Config, rc: Receivers.RxConfig, t: Table) {
    |c.render(ToXml(t))| < 0x1_0000 && rc.tokenise(c.render(ToXml(t))) == Some(ToXml(t))
  }

  lemma NormalDescribes(g: FecOti, e: FileEntry)
    requires Plain(e) && Supported(e.fecOti) && e.fecOti.transferLength > 0
    ensures var n := Normal(g, e);
      && SameCut(e.fecOti, n.fecOti) && n.fecOti.encodingId == COMPACT_NO_CODE && n.contentEncoding == ""
      && n.toi == e.toi && n.contentMd5 == e.contentMd5
  {
    EntryKeepsItsCut(g, e);
  }

  /** An entry, as its reader normalises it, describes the object it was made for. */
  lemma EntryDescribesObject(c: Config, rc: Receivers.RxConfig, s: Tx, h: nat)
    requires Known(c, s) && Draining.ObjectsGood(c, s) && DistinctTois(s.objects) && rc.md5 == c.md5
    requires h < |s.objects| && s.objects[h].meta.toi != 0
    ensures ReceiverSafety.EntryGood(rc, SessionOf(c, s), Normal(s.fecOti, s.objects[h].meta))
  {
    hide TableKnown, Supported, Normal, DistinctTois, ObjectsByToi, Draining.ObjectsGood, EntriesKnown;
    var f := s.objects[h];
    assert FileKnown(c, s, f);
    SentObjectIsGood(c, s, h);
    ObjectOfToi(s.objects, h);
    NormalDescribes(s.fecOti, f.meta);
  }

  /** The session of an orderly run meets what the receiver theorems ask for. */
  lemma SessionOfRunIsGood(c: Config, rc: Receivers.RxConfig, s: Tx)
    requires Known(c, s) && Draining.ObjectsGood(c, s) && DistinctTois(s.objects) && Readable(c, rc, s)
    ensures ReceiverSafety.SessionGood(rc, SessionOf(c, s))
  {
    var ss := SessionOf(c, s);
    forall toi | toi in ss.objects
      ensures ReceiverSafety.ObjectGood(ss.objects[toi])
    {
      var h := ObjectComesFrom(s.objects, toi);
      SentObjectIsGood(c, s, h);
    }
    forall n | 0 <= n < |ss.tables|
      ensures ReceiverSafety.TableGood(rc, ss, n)
    {
      AnnouncedTableIsGood(c, rc, s, n);
    }
  }

  lemma SentObjectIsGood(c: Config, s: Tx, h: nat)
    requires Draining.ObjectsGood(c, s) && h < |s.objects|
    ensures ReceiverSafety.ObjectGood(ReceiverSafety.Object(s.objects[h].meta.fecOti, s.objects[h].buffer))
    ensures GenuineDigest(c.md5, s.objects[h].meta, s.objects[h].buffer)
  {
    assert Draining.ObjectGood(c, s, s.objects[h]);
  }

  lemma AnnouncedTableIsGood(c: Config, rc: Receivers.RxConfig, s: Tx, n: nat)
    requires Known(c, s) && Draining.ObjectsGood(c, s) && DistinctTois(s.objects) && Readable(c, rc, s)
    requires n < |s.announced|
    ensures ReceiverSafety.TableGood(rc, SessionOf(c, s), n)
  {
    hide ToXml, ReceiverSafety.EntryGood, FileKnown, Draining.ObjectsGood, Normal, Supported, ObjectsByToi;
    var t := s.announced[n];
    assert TableKnown(c, s, t) && TextReadable(c, rc, t);
    Draining.SizeIsExact(s.fecOti, c.render(ToXml(t)));
    forall i | 0 <= i < |t.entries|
      ensures ReceiverSafety.EntryGood(rc, SessionOf(c, s), Normal(t.globalOti, t.entries[i]))
    {
      assert IsEntryOf(s.objects, t.entries[i]);
      var h :| 0 <= h < |s.objects| && s.objects[h].meta == t.entries[i];
      EntryDescribesObject(c, rc, s, h);
    }
  }

  // ---------------------------------------------------------------------------------------------
  // The packets of a run
  // ---------------------------------------------------------------------------------------------

  /** What is handed to the socket is a packet of the session of any later state. */
  lemma SentPacketIsGenuine(c: Config, rc: Receivers.RxConfig, s: Tx, t: Tx, stale: seq<Byte>)
    returns (p: ReceiverSafety.Packet)
    requires Draining.Ready(c, s) && NextFlight(s).Some? && Known(c, s) && Later(s, t)
    requires DistinctTois(t.objects) && ReceiverSafety.SessionGood(rc, SessionOf(c, t))
    requires NextFlight(s).value.symbols != []
    requires NextFlight(s).value.file < |s.objects|
    requires |FlightPacket(s, NextFlight(s).value)| + |stale| >= MAX_HEADER_BYTES
    ensures ReceiverSafety.IsGenuine(rc, SessionOf(c, t), p) && ReceiverSafety.Sendable(SessionOf(c, t), p)
    ensures p.stale == stale
    ensures ReceiverSafety.PacketOf(SessionOf(c, t), p) == FlightPacket(s, NextFlight(s).value)
  {
    hide Draining.ObjectsGood, Draining.FilesGood, Draining.Tracked, Draining.FlightsMatch, Draining.CallbacksMatch,
         Known, NextFlight, FlightPacket, ObjectPacket, ReceiverSafety.SessionGood, SessionOf, FileKnown, FdtFile,
         DistinctTois;
    Draining.SentPacketIsObjectPacket(c, s);
    var f := NextFlight(s).value;
    FileOfRunIsKnown(c, s, f.file);
    SentObjectIsGood(c, s, f.file);
    FileStaysKnown(c, s, t, s.objects[f.file], t.objects[f.file]);
    p := PacketOfFile(c, rc, t, f.file, PosOf(f.symbols[0]), stale);
  }

  /** The packet of a symbol of one of the transmitter's files, as a packet of its session. */
  lemma PacketOfFile(c: Config, rc: Receivers.RxConfig, t: Tx, h: nat, q: Pos, stale: seq<Byte>)
    returns (p: ReceiverSafety.Packet)
    requires h < |t.objects| && FileKnown(c, t, t.objects[h]) && DistinctTois(t.objects)
    requires ReceiverSafety.SessionGood(rc, SessionOf(c, t))
    requires var file := t.objects[h];
      && file.meta.fecOti.encodingSymbolLength > 0 && file.meta.fecOti.maxSourceBlockLength > 0
      && HasSymbol(file.meta.fecOti, q.0, q.1) && |FilePacket(t, h, q)| + |stale| >= MAX_HEADER_BYTES
    ensures ReceiverSafety.IsGenuine(rc, SessionOf(c, t), p) && ReceiverSafety.Sendable(SessionOf(c, t), p)
    ensures p.stale == stale
    ensures ReceiverSafety.PacketOf(SessionOf(c, t), p) == FilePacket(t, h, q)
  {
    hide ObjectPacket, ToXml, ReceiverSafety.TableGood, FdtFile, ObjectsByToi;
    var file, ss := t.objects[h], SessionOf(c, t);
    if file.meta.toi == 0 {
      var n :| 0 <= n < |t.announced| && SameFixed(FdtFile(c, t.fecOti, t.announced[n]), file);
      assert ReceiverSafety.TableGood(rc, ss, n);
      CarriedIsAnnouncement(c, t, n);
      p := ReceiverSafety.FdtPacketOf(n, q.0, q.1, stale);
    } else {
      ObjectOfToi(t.objects, h);
      p := ReceiverSafety.ObjectPacketOf(file.meta.toi, q.0, q.1, stale);
    }
  }

  ghost function FilePacket(t: Tx, h: nat, q: Pos): seq<Byte>
    requires h < |t.objects|
    requires t.objects[h].meta.fecOti.encodingSymbolLength > 0 && t.objects[h].meta.fecOti.maxSourceBlockLength > 0
  {
    var file := t.objects[h];
    ObjectPacket(t.tsi % 0x1_0000, file.meta.toi % 0x1_0000, file.meta.fecOti, file.buffer, q.0, q.1,
        file.fdtInstanceId)
  }

  lemma FileOfRunIsKnown(c: Config, s: Tx, h: nat)
    requires Known(c, s) && h < |s.objects|
    ensures FileKnown(c, s, s.objects[h])
  {
  }

  lemma CarriedIsAnnouncement(c: Config, t: Tx, n: nat)
    requires n < |t.announced|
    ensures var file, o := FdtFile(c, t.fecOti, t.announced[n]), SessionOf(c, t).Announcement(n);
      file.meta.fecOti == o.oti && file.buffer == o.data && file.fdtInstanceId == WireId(t.announced[n])
  {
    hide ToXml, Layout;
  }

  // ---------------------------------------------------------------------------------------------
  // Whole runs
  // ---------------------------------------------------------------------------------------------

  ghost predicate GoodRun(c: Config, s: Tx, events: seq<Event>) {
    Draining.AllOrderly(c, s, events) && AllDescribable(c, s, events)
  }

  lemma GoodRunIsReady(c: Config, s: Tx, events: seq<Event>)
    requires Draining.Ready(c, s) && Known(c, s) && GoodRun(c, s, events)
    ensures var t := Steps(c, s, events); Draining.Ready(c, t) && Known(c, t) && Later(s, t)
  {
    hide Draining.Ready, Known;
    Draining.RunsStayReady(c, s, events);
    StepsAreKnown(c, s, events);
  }

  /** The packet was handed to the socket in the run. */
  ghost predicate SentIn(c: Config, s: Tx, events: seq<Event>, packet: seq<Byte>) {
    packet in SentPackets(c, s, events)
  }

  /** A good run is a good step and a good run. */
  lemma NextOfRun(c: Config, s: Tx, events: seq<Event>)
    requires Draining.Ready(c, s) && Known(c, s) && GoodRun(c, s, events) && events != []
    ensures var t := Step(c, s, events[0]);
      && Draining.Ready(c, t) && Known(c, t) && GoodRun(c, t, events[1..])
      && Steps(c, s, events) == Steps(c, t, events[1..])
  {
    hide Step, Draining.Ready, Known, Draining.Orderly, Describable;
    Draining.StepKeepsReady(c, s, events[0]);
    StepIsKnown(c, s, events[0]);
  }

  lemma SentIsFlight(s: Tx, e: Event, packet: seq<Byte>)
    requires packet in SentBy(s, e)
    ensures e.SendTimer? && s.maxPayload >= 4 && NextFlight(s).Some?
    ensures var f := NextFlight(s).value;
      f.symbols != [] && f.file < |s.objects| && FlightPacket(s, f) == packet
  {
    hide NextBatch, FlightPacket;
  }

  lemma {:induction false} SentInRunIsGenuine(
    c: Config, rc: Receivers.RxConfig, s: Tx, events: seq<Event>, packet: seq<Byte>, stale: seq<Byte>)
    returns (p: ReceiverSafety.Packet)
    requires Draining.Ready(c, s) && Known(c, s) && GoodRun(c, s, events) && SentIn(c, s, events, packet)
    requires var t := Steps(c, s, events); DistinctTois(t.objects) && ReceiverSafety.SessionGood(rc, SessionOf(c, t))
    requires |packet| + |stale| >= MAX_HEADER_BYTES
    ensures var ss := SessionOf(c, Steps(c, s, events));
      && ReceiverSafety.IsGenuine(rc, ss, p) && ReceiverSafety.Sendable(ss, p)
      && p.stale == stale && ReceiverSafety.PacketOf(ss, p) == packet
    decreases |events|
  {
    hide Draining.Ready, Known, GoodRun, DistinctTois, ReceiverSafety.SessionGood, SessionOf, Steps, Step,
         NextFlight, FlightPacket, ReceiverSafety.IsGenuine, ReceiverSafety.PacketOf, ReceiverSafety.Sendable;
    if packet in SentBy(s, events[0]) {
      SentIsFlight(s, events[0], packet);
      GoodRunIsReady(c, s, events);
      p := SentPacketIsGenuine(c, rc, s, Steps(c, s, events), stale);
    } else {
      NextOfRun(c, s, events);
      p := SentInRunIsGenuine(c, rc, Step(c, s, events[0]), events[1..], packet, stale);
    }
  }

  /** What arrives: a packet, and what else is in the receive buffer. */
  datatype Datagram = Datagram(packet: seq<Byte>, stale: seq<Byte>)

  ghost predicate Delivers(c: Config, s: Tx, events: seq<Event>, d: Datagram) {
    SentIn(c, s, events, d.packet) && |d.packet| + |d.stale| >= MAX_HEADER_BYTES
  }

  /** A step of the receiver takes this datagram. */
  ghost predicate Takes(rc: Receivers.RxConfig, ss: ReceiverSafety.Session, step: ReceiverSafety.Step, d: Datagram) {
    && step.Arrives? && ReceiverSafety.IsGenuine(rc, ss, step.packet) && ReceiverSafety.Sendable(ss, step.packet)
    && ReceiverSafety.PacketOf(ss, step.packet) == d.packet && step.packet.stale == d.stale
  }

  lemma {:induction false} DatagramsAreSteps(
    c: Config, rc: Receivers.RxConfig, s: Tx, events: seq<Event>, datagrams: seq<Datagram>)
    returns (steps: seq<ReceiverSafety.Step>)
    requires Draining.Ready(c, s) && Known(c, s) && GoodRun(c, s, events)
    requires var t := Steps(c, s, events); DistinctTois(t.objects) && ReceiverSafety.SessionGood(rc, SessionOf(c, t))
    requires forall i :: 0 <= i < |datagrams| ==> Delivers(c, s, events, datagrams[i])
    ensures |steps| == |datagrams|
    ensures forall i :: 0 <= i < |steps| ==> Takes(rc, SessionOf(c, Steps(c, s, events)), steps[i], datagrams[i])
  {
    hide Draining.Ready, Known, GoodRun, DistinctTois, ReceiverSafety.SessionGood, SessionOf, Steps, SentIn,
         ReceiverSafety.IsGenuine, ReceiverSafety.PacketOf, ReceiverSafety.Sendable;
    if datagrams == [] {
      steps := [];
    } else {
      var d := datagrams[0];
      assert Delivers(c, s, events, d);
      var p := SentInRunIsGenuine(c, rc, s, events, d.packet, d.stale);
      var rest := DatagramsAreSteps(c, rc, s, events, datagrams[1..]);
      steps := [ReceiverSafety.Arrives(p)] + rest;
    }
  }

  /**
   * From one library to the other.  A transmitter as constructed makes an orderly run of sends, timer ticks,
   * packets and acknowledgements, with distinct TOIs and texts the receiver can read.  Any sequence of the packets it
   * handed to its socket, lost, repeated and reordered as they may be, is a run of the receiver that throws nothing and
   * delivers exactly the bytes of listed objects, as long as the symbols of FDT packets fit the text being received,
   * which they do when texts do not interleave or every text fits one symbol.
   */
  lemma LibraryToLibrary(
    c: Config, rc: Receivers.RxConfig, tsi: U64, mtu: U16, tunnelled: bool, ns: FdtNamespace, active: bool,
    events: seq<Event>, datagrams: seq<Datagram>)
    returns (steps: seq<ReceiverSafety.Step>)
    requires MaxPayload(mtu, tunnelled) > 4 && rc.hasCallback
    requires var s := Constructed(tsi, mtu, tunnelled, ns, active);
      && GoodRun(c, s, events) && (forall i :: 0 <= i < |datagrams| ==> Delivers(c, s, events, datagrams[i]))
      && DistinctTois(Steps(c, s, events).objects) && Readable(c, rc, Steps(c, s, events))
    ensures var ss := SessionOf(c, Steps(c, Constructed(tsi, mtu, tunnelled, ns, active), events));
      && |steps| == |datagrams| && (forall i :: 0 <= i < |steps| ==> Takes(rc, ss, steps[i], datagrams[i]))
      && ReceiverSafety.SessionGood(rc, ss) && ReceiverSafety.RunGenuine(rc, ss, steps)
      && (ReceiverSafety.RunFitsText(rc, ss, ReceiverSafety.Fresh(ss), steps)
          || Interleaving.SingleSymbolTables(ss) ==>
            && ReceiverSafety.RunReturns(rc, ss, ReceiverSafety.Fresh(ss), steps)
            && ReceiverSafety.DeliveriesRight(
                 ss, ReceiverSafety.AfterAll(rc, ss, ReceiverSafety.Fresh(ss), steps).rx.log))
  {
    hide Draining.ObjectsGood, Draining.FilesGood, Draining.Tracked, Draining.FlightsMatch, Draining.CallbacksMatch,
         Known, GoodRun, DistinctTois, ReceiverSafety.SessionGood, SessionOf, Steps, SentIn, Readable, Constructed,
         ReceiverSafety.IsGenuine, ReceiverSafety.PacketOf, ReceiverSafety.Sendable, ReceiverSafety.RunFitsText,
         ReceiverSafety.RunReturns, ReceiverSafety.AfterAll, ReceiverSafety.DeliveriesRight,
         Interleaving.SingleSymbolTables;
    var s := Constructed(tsi, mtu, tunnelled, ns, active);
    var t := Steps(c, s, events);
    Draining.ConstructedIsReady(c, tsi, mtu, tunnelled, ns, active);
    ConstructedIsKnown(c, tsi, mtu, tunnelled, ns, active);
    GoodRunIsReady(c, s, events);
    SessionOfRunIsGood(c, rc, t);
    steps := DatagramsAreSteps(c, rc, s, events, datagrams);
    var ss := SessionOf(c, t);
    forall i | 0 <= i < |steps|
      ensures ReceiverSafety.StepGenuine(rc, ss, steps[i])
    {
      assert Takes(rc, ss, steps[i], datagrams[i]);
    }
    if ReceiverSafety.RunFitsText(rc, ss, ReceiverSafety.Fresh(ss), steps) {
      ReceiverSafety.CallbacksAreSafe(rc, ss, steps);
    } else if Interleaving.SingleSymbolTables(ss) {
      Interleaving.SingleSymbolTablesAreSafe(rc, ss, steps);
    }
  }

  // ---------------------------------------------------------------------------------------------
  // Liveness
  // ---------------------------------------------------------------------------------------------

  /** Different objects were sent under different content locations, none of them empty. */
  ghost predicate DistinctFileLocations(files: seq<FileState>) {
    forall i, j :: 0 <= i < |files| && 0 <= j < |files| && files[i].meta.toi != 0 && files[j].meta.toi != 0 ==>
      files[i].meta.contentLocation != "" && (files[i].meta.contentLocation == files[j].meta.contentLocation ==> i == j)
  }

  lemma LocationIsOfFile(c: Config, s: Tx, toi: U64, location: string) returns (h: nat)
    requires Known(c, s) && ReceiverLiveness.IsLocation(SessionOf(c, s), toi, location)
    ensures h < |s.objects| && s.objects[h].meta.toi == toi != 0 && s.objects[h].meta.contentLocation == location
  {
    hide Draining.DocumentSupported, FileKnown, ObjectsByToi;
    var n, i :| 0 <= n < |s.announced| && 0 <= i < |s.announced[n].entries|
        && ReceiverLiveness.IsEntryAt(s.announced[n].entries[i], toi, location);
    assert TableKnown(c, s, s.announced[n]) && IsEntryOf(s.objects, s.announced[n].entries[i]);
    h :| 0 <= h < |s.objects| && s.objects[h].meta == s.announced[n].entries[i];
  }

  lemma LocationsStayDistinct(c: Config, s: Tx)
    requires Known(c, s) && DistinctFileLocations(s.objects)
    ensures ReceiverLiveness.DistinctLocations(SessionOf(c, s))
  {
    hide Known, SessionOf, ReceiverLiveness.IsLocation;
    var ss := SessionOf(c, s);
    forall t: U64, u: U64, location: string
      | ReceiverLiveness.IsLocation(ss, t, location) && ReceiverLiveness.IsLocation(ss, u, location)
      ensures t == u && location != ""
    {
      var h := LocationIsOfFile(c, s, t, location);
      var g := LocationIsOfFile(c, s, u, location);
      assert s.objects[h].meta.contentLocation == s.objects[g].meta.contentLocation;
    }
  }

  /** All packets of the file at `h` are among the steps. */
  ghost predicate AllArrive(f: FileState, steps: seq<ReceiverSafety.Step>) {
    forall k: nat, j: nat :: f.Has(k, j) ==> ReceiverLiveness.ArrivesIn(steps, f.meta.toi, (k, j))
  }

  /** The file was delivered, byte for byte, at or after position `i` of the log. */
  ghost predicate DeliveredFrom(log: seq<Receivers.Observed>, i: nat, f: FileState) {
    exists m :: i <= m < |log| && log[m].Delivered? && log[m].toi == f.meta.toi && log[m].file.buffer == f.buffer
  }

  /**
   * What a transmitter sends arrives.  After an orderly run with distinct TOIs and content locations: once a receiver
   * has installed a table that lists one of the files, and all packets of the file arrive after that, in any order and
   * among any others of the run, the file has been handed to the application, byte for byte, since the installation.
   */
  lemma SentFileIsDelivered(
    c: Config, rc: Receivers.RxConfig, s: Tx, h: nat, before: seq<ReceiverSafety.Step>,
    after: seq<ReceiverSafety.Step>, i: nat)
    requires Known(c, s) && Draining.ObjectsGood(c, s) && DistinctTois(s.objects) && Readable(c, rc, s)
    requires DistinctFileLocations(s.objects) && rc.hasCallback
    requires h < |s.objects| && s.objects[h].meta.toi != 0
    requires ReceiverLiveness.OnlyPackets(before) && ReceiverLiveness.OnlyPackets(after)
    requires var ss := SessionOf(c, s);
      && ReceiverSafety.RunGenuine(rc, ss, before + after)
      && ReceiverSafety.RunFitsText(rc, ss, ReceiverSafety.Fresh(ss), before + after)
      && ReceiverSafety.RunGenuine(rc, ss, before)
      && ReceiverLiveness.ListsAt(
           ReceiverSafety.AfterAll(rc, ss, ReceiverSafety.Fresh(ss), before).rx.log, i, s.objects[h].meta.toi)
    requires AllArrive(s.objects[h], after)
    ensures var ss := SessionOf(c, s);
      DeliveredFrom(ReceiverSafety.AfterAll(rc, ss, ReceiverSafety.Fresh(ss), before + after).rx.log, i, s.objects[h])
  {
    var ss, f := SessionOf(c, s), s.objects[h];
    var start := ReceiverSafety.Fresh(ss);
    SessionOfRunIsGood(c, rc, s);
    LocationsStayDistinct(c, s);
    FileIsInSession(c, s, h);
    ReceiverLiveness.SplitSteps(rc, ss, start, before, after);
    ArrivingSymbols(c, s, h, after);
    hide Known, Draining.ObjectsGood, DistinctTois, Readable, SessionOf, ReceiverSafety.SessionGood, HasSymbol,
         ReceiverSafety.RunGenuine, ReceiverSafety.RunFitsText, ReceiverSafety.AfterAll, AllArrive,
         ReceiverLiveness.OnlyPackets, ReceiverLiveness.ArrivesIn, ReceiverLiveness.DistinctLocations,
         ReceiverSafety.RunReturns, ReceiverLiveness.ListsAt, DistinctFileLocations;
    ReceiverLiveness.ListedIsDelivered(rc, ss, before, after, i, f.meta.toi);
    ReceiverSafety.CallbacksAreSafe(rc, ss, before + after);
    var log := ReceiverSafety.AfterAll(rc, ss, start, before + after).rx.log;
    var m :| i <= m < |log| && ReceiverLiveness.Finished(log[m], f.meta.toi);
    assert log[m].file.buffer == f.buffer;
  }

  lemma FileIsInSession(c: Config, s: Tx, h: nat)
    requires Known(c, s) && Draining.ObjectsGood(c, s) && DistinctTois(s.objects)
    requires h < |s.objects| && s.objects[h].meta.toi != 0
    ensures var f, ss := s.objects[h], SessionOf(c, s);
      && f.meta.toi < 0x1_0000 && f.meta.toi in ss.objects && Receivers.CanCut(f.meta.fecOti)
      && ss.objects[f.meta.toi] == ReceiverSafety.Object(f.meta.fecOti, f.buffer)
  {
    hide DistinctTois, ObjectsByToi, TableKnown, EntriesKnown;
    assert FileKnown(c, s, s.objects[h]);
    SentObjectIsGood(c, s, h);
    ObjectOfToi(s.objects, h);
  }

  lemma ArrivingSymbols(c: Config, s: Tx, h: nat, steps: seq<ReceiverSafety.Step>)
    requires Draining.ObjectsGood(c, s) && h < |s.objects| && AllArrive(s.objects[h], steps)
    requires Receivers.CanCut(s.objects[h].meta.fecOti)
    ensures var f := s.objects[h];
      forall k: nat, j: nat :: HasSymbol(f.meta.fecOti, k, j) ==>
        ReceiverLiveness.ArrivesIn(steps, f.meta.toi, (k, j))
  {
    hide HasSymbol, ReceiverLiveness.ArrivesIn;
    var f := s.objects[h];
    assert Draining.ObjectGood(c, s, f);
    forall k: nat, j: nat | HasSymbol(f.meta.fecOti, k, j)
      ensures ReceiverLiveness.ArrivesIn(steps, f.meta.toi, (k, j))
    {
      FileHasSymbol(f, k, j);
    }
  }

  // ---------------------------------------------------------------------------------------------
  // Skipped tables
  // ---------------------------------------------------------------------------------------------

  /** The header a packet of an announced table is received with. */
  ghost function AnnouncedHeader(c: Config, s: Tx, tsi: U16, n: nat): Alc
    requires n < |s.announced|
  {
    var file := FdtFile(c, s.fecOti, s.announced[n]);
    ReceivedHeader(tsi, 0, file.meta.fecOti, file.fdtInstanceId)
  }

  /**
   * Over every run, a receiver that has installed announcement `i`, as it reads it, ignores a packet of a later
   * announcement `j` exactly when the ID changed a multiple of 2^16 times between them; so while it changed fewer
   * than 2^16 times, an ignored table has exactly the entries that are installed.
   */
  lemma SkippedTableIsInstalled(
    c: Config, tsi: U64, mtu: U16, tunnelled: bool, ns: FdtNamespace, active: bool, events: seq<Event>, i: nat, j: nat,
    r: Receivers.Rx)
    requires MaxPayload(mtu, tunnelled) != 0
    requires i <= j < |Steps(c, Constructed(tsi, mtu, tunnelled, ns, active), events).announced|
    requires var t := Steps(c, Constructed(tsi, mtu, tunnelled, ns, active), events).announced[i];
      r.fdt == Some(NormalTable(WireId(t), t)) && 0 !in r.files
    ensures var s := Steps(c, Constructed(tsi, mtu, tunnelled, ns, active), events);
      var changes, ignored := Versioning.Changes(s.announced, i, j),
                              !Receivers.OpensFdt(r, AnnouncedHeader(c, s, tsi % 0x1_0000, j));
      && (ignored <==> changes % 0x1_0000 == 0)
      && (ignored && changes < 0x1_0000 ==>
            r.fdt.value.entries == NormalTable(WireId(s.announced[j]), s.announced[j]).entries)
  {
    hide Steps, Constructed, NormalAll, WireId, AnnouncedHeader, FdtFile, Versioning.Changes, Versioning.Chained;
    var s0 := Constructed(tsi, mtu, tunnelled, ns, active);
    Versioning.ConstructedIsVersioned(tsi, mtu, tunnelled, ns, active);
    Versioning.StepsKeepVersioned(c, s0, events);
    var s := Steps(c, s0, events);
    Versioning.WireIdsCountChanges(s.announced, i, j);
    HeaderCarriesWireId(c, s, tsi % 0x1_0000, j);
  }

  /** The instance ID that reaches the receiver is the 16-bit one of the file. */
  lemma HeaderCarriesWireId(c: Config, s: Tx, tsi: U16, n: nat)
    requires n < |s.announced|
    ensures AnnouncedHeader(c, s, tsi, n).toi == 0
    ensures AnnouncedHeader(c, s, tsi, n).fdtInstanceId == WireId(s.announced[n])
  {
    hide ToXml, Layout;
  }
}
