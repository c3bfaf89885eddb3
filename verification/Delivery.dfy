/**
 * What a transmitter's run hands to the socket, and what becomes of it over a channel that loses nothing: every symbol
 * that counts as handed out was handed to the socket, and a file that a receiver tracks before its first packet is
 * sent is delivered.
 */
module Delivery {
  import opened Bytes
  import opened Flute
  import opened AlcPackets
  import opened Files
  import opened Completion
  import opened Conservation
  import opened EndToEnd
  import opened FdtXml
  import opened FdtObject
  import opened Transmitters
  import opened Draining
  import opened Composition
  import Base64
  import Losses
  import ReceiverLiveness
  import Receivers
  import ReceiverSafety

  // ---------------------------------------------------------------------------------------------
  // What a step hands out
  // ---------------------------------------------------------------------------------------------

  /** The symbol is queued or complete. */
  ghost predicate HandedOut(f: FileState, p: Pos) {
    f.Has(p.0, p.1) && (f.At(p.0, p.1).queued || f.At(p.0, p.1).complete)
  }

  ghost predicate OutIn(s: Tx, h: nat, p: Pos) {
    h < |s.objects| && HandedOut(s.objects[h], p)
  }

  /** Nothing was handed out yet. */
  ghost predicate Fresh(f: FileState) {
    forall p: Pos :: !HandedOut(f, p)
  }

  /** Objects are only added, and those added are fresh. */
  ghost predicate FreshAdded(before: seq<FileState>, after: seq<FileState>) {
    before <= after && forall h :: |before| <= h < |after| ==> Fresh(after[h])
  }

  lemma NewFileIsFresh(meta: FileEntry, buffer: seq<Byte>)
    requires Receivers.CanCut(meta.fecOti)
    ensures Fresh(NewFile(meta, buffer))
  {
    hide PartitionFor;
    Losses.FreshIsIdle(meta.fecOti);
    var f := NewFile(meta, buffer);
    forall p: Pos
      ensures !HandedOut(f, p)
    {
      if f.Has(p.0, p.1) {
        assert Idle(Layout(meta.fecOti), p.0, p.1);
      }
    }
  }

  lemma FdtFileIsFresh(c: Config, oti: CutOti, t: Table)
    ensures Fresh(FdtFile(c, oti, t))
  {
    hide ToXml, Layout;
    var doc := c.render(ToXml(t));
    NewFileIsFresh(DataEntry(c.md5, 0, oti, "", "", t.expires, doc), doc);
    var f, g := FdtFile(c, oti, t), NewFile(DataEntry(c.md5, 0, oti, "", "", t.expires, doc), doc);
    forall p: Pos
      ensures !HandedOut(f, p)
    {
      assert !HandedOut(g, p);
    }
  }

  lemma SendFdtAddsFresh(c: Config, s: Tx, now: U64)
    ensures FreshAdded(s.objects, SendFdt(c, s, now).objects)
  {
    hide FdtFile, MarkSent, ExpiryAt, Fresh;
    FdtFileIsFresh(c, s.fecOti, s.fdt.(expires := ExpiryAt(now)));
  }

  lemma FreshAddedStill(a: seq<FileState>, b: seq<FileState>, c: seq<FileState>)
    requires FreshAdded(a, b) && FreshAdded(b, c)
    ensures FreshAdded(a, c)
  {
    hide Fresh;
  }

  lemma SendDataAddsFresh(
    c: Config, s: Tx, location: string, contentType: string, expires: U32, data: seq<Byte>, now: U64)
    ensures FreshAdded(s.objects, SendData(c, s, location, contentType, expires, data, now).objects)
  {
    hide SendFdt, Fresh, Layout;
    var file := DataFile(c, s, location, contentType, expires, data);
    NewFileIsFresh(file.meta, data);
    SendFdtAddsFresh(c, Recorded(ToiTaken(s), file), now);
    FreshAddedStill(s.objects, Recorded(ToiTaken(s), file).objects,
                    SendFdt(c, Recorded(ToiTaken(s), file), now).objects);
  }

  lemma SendDescriptionAddsFresh(c: Config, s: Tx, d: Description, now: U64)
    ensures FreshAdded(s.objects, SendDescription(c, s, d, now).0.state.objects)
  {
    hide SendFdt, Fresh, Layout, AssignedToi;
    var entry := DescriptionEntry(s, d);
    if entry.fecOti.encodingId == COMPACT_NO_CODE {
      var file := DescribedFile(entry, d.data);
      NewFileIsFresh(file.meta, d.data);
      var listed := Listed(AfterAssigning(s, d), entry.toi, file);
      SendFdtAddsFresh(c, listed, now);
      FreshAddedStill(s.objects, listed.objects, SendFdt(c, listed, now).objects);
    }
  }

  lemma FreshIsNotOut(s: Tx, t: Tx, h: nat, p: Pos)
    requires FreshAdded(s.objects, t.objects) && OutIn(t, h, p)
    ensures OutIn(s, h, p)
  {
  }

  /** An acknowledgement hands nothing out. */
  lemma AcknowledgeHandsNothingOut(c: Config, s: Tx, f: Flight, now: U64, h: nat, p: Pos)
    requires Ready(c, s) && f in s.inFlight && OutIn(Acknowledge(c, s, f, now), h, p)
    ensures OutIn(s, h, p)
  {
    hide Acknowledge, SendFdt, MarkCompleted, Ready;
    AcknowledgedFile(c, s, f);
    AcknowledgeShape(c, s, f, now);
    var q, g := PosOf(f.symbols[0]), Marked(c, s, f).objects[f.file];
    var removed := Dropped(c, s, f).(fdt := RemoveEntry(s.fdt, s.objects[f.file].meta.toi));
    SendFdtAddsFresh(c, removed, now);
    if h >= |s.objects| || h != f.file {
      FreshIsNotOut(removed, SendFdt(c, removed, now), h, p);
    } else {
      assert SameBut(s.objects[f.file], g, q, p);
    }
  }

  /** A step hands a symbol out only by taking it for the packet it hands to the socket. */
  lemma StepHandsOut(c: Config, s: Tx, e: Event, h: nat, p: Pos)
    requires Ready(c, s) && Orderly(c, s, e) && OutIn(Step(c, s, e), h, p) && !OutIn(s, h, p)
    ensures e.SendTimer? && s.maxPayload >= 4 && h < |s.objects| && s.objects[h].Has(p.0, p.1)
    ensures NextFlight(s) == Some(TheFlight(s, h, p))
  {
    hide SendFdt, SendData, SendDescription, Acknowledge, NextFlight, SendTick, OutIn, FreshAdded, Orderly, Ready;
    ReadySendsPackets(c, s);
    match e {
      case SendingData(location, contentType, expires, data, now) =>
        SendDataAddsFresh(c, s, location, contentType, expires, data, now);
        FreshIsNotOut(s, Step(c, s, e), h, p);
      case SendingDescription(d, now) =>
        SendDescriptionAddsFresh(c, s, d, now);
        FreshIsNotOut(s, Step(c, s, e), h, p);
      case FdtTimer(now) =>
        SendFdtAddsFresh(c, s, now);
        OutOnlyByObjects(s, Step(c, s, e), h, p);
        FreshIsNotOut(s, SendFdt(c, s, now), h, p);
      case Acknowledged(f, now) =>
        OutOnlyByObjects(s, Step(c, s, e), h, p);
        AcknowledgeHandsNothingOut(c, s, f, now, h, p);
      case SendTimer => TickHandsOut(c, s, h, p);
      case _ => OutOnlyByObjects(s, Step(c, s, e), h, p);
    }
  }

  lemma OutOnlyByObjects(s: Tx, t: Tx, h: nat, p: Pos)
    ensures t.objects == s.objects ==> (OutIn(s, h, p) <==> OutIn(t, h, p))
  {
  }

  lemma ReadySendsPackets(c: Config, s: Tx)
    requires Ready(c, s)
    ensures s.maxPayload >= 4
  {
  }

  lemma TickHandsOut(c: Config, s: Tx, h: nat, p: Pos)
    requires Ready(c, s) && s.maxPayload >= 4 && OutIn(SendTick(s), h, p) && !OutIn(s, h, p)
    ensures h < |s.objects| && s.objects[h].Has(p.0, p.1) && NextFlight(s) == Some(TheFlight(s, h, p))
  {
    hide Ready, NextFlight, SendTick;
    SendTickShape(c, s);
    if NextFlight(s).Some? {
      var f := NextFlight(s).value;
      var q := IdleFrom(s.objects[f.file].blocks, 0, 0).value;
      QueueChangesAt(s.objects[f.file], q.0, q.1);
      assert SameBut(s.objects[f.file], Queue(s.objects[f.file], q.0, q.1), q, p);
    }
  }

  // ---------------------------------------------------------------------------------------------
  // What a run hands out
  // ---------------------------------------------------------------------------------------------

  /** The packet of a symbol of a file does not change over a run. */
  lemma SamePacketLater(s: Tx, t: Tx, h: nat, p: Pos)
    requires h < |s.objects| && Later(s, t) && Receivers.CanCut(s.objects[h].meta.fecOti)
    ensures h < |t.objects| && Receivers.CanCut(t.objects[h].meta.fecOti) && FilePacket(t, h, p) == FilePacket(s, h, p)
  {
    hide ObjectPacket;
    assert SameFixed(s.objects[h], t.objects[h]);
  }

  lemma SentForSymbol(c: Config, s: Tx, h: nat, p: Pos)
    requires Ready(c, s) && s.maxPayload >= 4 && h < |s.objects| && s.objects[h].Has(p.0, p.1)
    requires NextFlight(s) == Some(TheFlight(s, h, p))
    ensures Receivers.CanCut(s.objects[h].meta.fecOti) && SentBy(s, SendTimer) == [FilePacket(s, h, p)]
  {
    hide ObjectPacket, NextFlight, FlightPacket;
    assert ObjectGood(c, s, s.objects[h]);
    SentPacketIsObjectPacket(c, s);
  }

  /** Every symbol that was handed out in an orderly run was handed to the socket in it. */
  lemma {:induction false} HandedOutWasSent(c: Config, s: Tx, events: seq<Event>, h: nat, p: Pos)
    requires Ready(c, s) && Known(c, s) && GoodRun(c, s, events)
    requires OutIn(Steps(c, s, events), h, p) && !OutIn(s, h, p)
    ensures var t := Steps(c, s, events);
      Receivers.CanCut(t.objects[h].meta.fecOti) && SentIn(c, s, events, FilePacket(t, h, p))
    decreases |events|
  {
    hide Ready, Known, OutIn, Step, Later, FilePacket, SentBy;
    GoodRunIsReady(c, s, events);
    NextOfRun(c, s, events);
    var u := Step(c, s, events[0]);
    OutIsObject(Steps(c, s, events), h, p);
    if OutIn(u, h, p) {
      FirstIsOrderly(c, s, events);
      StepHandsOut(c, s, events[0], h, p);
      SentForSymbol(c, s, h, p);
      SamePacketLater(s, Steps(c, s, events), h, p);
      assert FilePacket(s, h, p) in SentBy(s, events[0]);
    } else {
      HandedOutWasSent(c, u, events[1..], h, p);
    }
  }

  lemma OutIsObject(s: Tx, h: nat, p: Pos)
    requires OutIn(s, h, p)
    ensures h < |s.objects| && s.objects[h].Has(p.0, p.1)
  {
  }

  lemma FirstIsOrderly(c: Config, s: Tx, events: seq<Event>)
    requires GoodRun(c, s, events) && events != []
    ensures Orderly(c, s, events[0])
  {
  }

  // ---------------------------------------------------------------------------------------------
  // A channel that loses nothing
  // ---------------------------------------------------------------------------------------------

  /** The packet of an object's symbol is a packet of no other place. */
  lemma PacketNamesPlace(
    rc: Receivers.RxConfig, ss: ReceiverSafety.Session, p: ReceiverSafety.Packet, toi: U16, k: nat, j: nat)
    requires ReceiverSafety.IsGenuine(rc, ss, p) && ReceiverSafety.Sendable(ss, p)
    requires toi != 0 && toi in ss.objects && ReceiverSafety.ObjectGood(ss.objects[toi])
    requires HasSymbol(ss.objects[toi].oti, k, j)
    requires var o := ss.objects[toi];
      ReceiverSafety.PacketOf(ss, p) == ObjectPacket(ss.tsi, toi, o.oti, o.data, k, j, 0)
    ensures p.ObjectPacketOf? && p.toi == toi && p.k == k && p.j == j
  {
    hide ObjectPacket, ToXml, ReceiverSafety.EntryGood, Supported, PayloadSymbols, ParsePacket, HasSymbol;
    var o := ss.objects[toi];
    var other := o.oti.(encodingId := COMPACT_NO_CODE);
    PacketCarriesSymbol(ss.tsi, toi, o.oti, o.data, k, j, 0, p.stale, other);
    match p
    case ObjectPacketOf(toi', k', j', stale) =>
      var o' := ss.objects[toi'];
      PacketCarriesSymbol(
        ss.tsi, toi', o'.oti, o'.data, k', j', 0, stale, o'.oti.(encodingId := COMPACT_NO_CODE));
    case FdtPacketOf(n, k', j', stale) =>
      var o' := ss.Announcement(n);
      PacketCarriesSymbol(
        ss.tsi, 0, o'.oti, o'.data, k', j', WireId(ss.tables[n]), stale, o'.oti.(encodingId := COMPACT_NO_CODE));
  }

  /** The packet is among those that arrive. */
  ghost predicate Reaches(ss: ReceiverSafety.Session, steps: seq<ReceiverSafety.Step>, packet: seq<Byte>) {
    exists i :: 0 <= i < |steps| && steps[i].Arrives? && ReceiverSafety.Sendable(ss, steps[i].packet)
      && ReceiverSafety.PacketOf(ss, steps[i].packet) == packet
  }

  lemma ReachedSymbolArrives(
    c: Config, rc: Receivers.RxConfig, t: Tx, h: nat, steps: seq<ReceiverSafety.Step>, k: nat, j: nat)
    requires Known(c, t) && ObjectsGood(c, t) && DistinctTois(t.objects)
    requires ReceiverSafety.RunGenuine(rc, SessionOf(c, t), steps)
    requires h < |t.objects| && t.objects[h].meta.toi != 0 && t.objects[h].Has(k, j)
    requires Receivers.CanCut(t.objects[h].meta.fecOti) && Reaches(SessionOf(c, t), steps, FilePacket(t, h, (k, j)))
    ensures ReceiverLiveness.ArrivesIn(steps, t.objects[h].meta.toi, (k, j))
  {
    hide ObjectPacket, ReceiverSafety.PacketOf, ReceiverSafety.IsGenuine, ReceiverSafety.Sendable, DistinctTois,
         ObjectsByToi, ReceiverSafety.ObjectGood, HasSymbol;
    var ss, f := SessionOf(c, t), t.objects[h];
    FileIsInSession(c, t, h);
    SentObjectIsGood(c, t, h);
    FileIsPlain(c, t, h);
    assert ObjectGood(c, t, f);
    FileHasSymbol(f, k, j);
    var i :| 0 <= i < |steps| && steps[i].Arrives? && ReceiverSafety.Sendable(ss, steps[i].packet)
      && ReceiverSafety.PacketOf(ss, steps[i].packet) == FilePacket(t, h, (k, j));
    assert ReceiverSafety.StepGenuine(rc, ss, steps[i]);
    PacketNamesPlace(rc, ss, steps[i].packet, f.meta.toi, k, j);
    assert (k, j) in ReceiverLiveness.PlacesOf(steps[i].packet, f.meta.toi);
  }

  lemma FileIsPlain(c: Config, t: Tx, h: nat)
    requires Known(c, t) && h < |t.objects| && t.objects[h].meta.toi != 0
    ensures t.objects[h].fdtInstanceId == 0 && t.objects[h].meta.toi < 0x1_0000
  {
    assert FileKnown(c, t, t.objects[h]);
  }

  /** All packets of a file that was fresh and is complete reach the receiver. */
  lemma AllSentArrives(
    c: Config, rc: Receivers.RxConfig, s: Tx, events: seq<Event>, h: nat, steps: seq<ReceiverSafety.Step>)
    requires Ready(c, s) && Known(c, s) && GoodRun(c, s, events)
    requires var t := Steps(c, s, events);
      && DistinctTois(t.objects) && ReceiverSafety.RunGenuine(rc, SessionOf(c, t), steps)
      && h < |t.objects| && t.objects[h].meta.toi != 0 && t.objects[h].complete
      && forall packet :: packet in SentPackets(c, s, events) ==> Reaches(SessionOf(c, t), steps, packet)
    requires h < |s.objects| ==> Fresh(s.objects[h])
    ensures AllArrive(Steps(c, s, events).objects[h], steps)
  {
    hide Ready, Known, GoodRun, DistinctTois, SessionOf, Steps, SentPackets, FilePacket, Reaches,
         ReceiverSafety.RunGenuine, ReceiverLiveness.ArrivesIn;
    var t := Steps(c, s, events);
    GoodRunIsReady(c, s, events);
    ReadyHasObjects(c, t);
    var f := t.objects[h];
    assert ObjectGood(c, t, f);
    CompleteMeansAllSymbols(c.md5, f);
    forall k: nat, j: nat | f.Has(k, j)
      ensures ReceiverLiveness.ArrivesIn(steps, f.meta.toi, (k, j))
    {
      assert HandedOut(f, (k, j));
      assert h < |s.objects| ==> !HandedOut(s.objects[h], (k, j));
      HandedOutWasSent(c, s, events, h, (k, j));
      ReachedSymbolArrives(c, rc, t, h, steps, k, j);
    }
  }

  lemma ReadyHasObjects(c: Config, s: Tx)
    requires Ready(c, s)
    ensures ObjectsGood(c, s)
  {
  }

  /**
   * Where nothing is lost: once a receiver has installed a table that lists a file no packet of which was sent yet, and
   * then gets every packet that is sent until the file is complete, in any order and among any others, the file has
   * been handed to the application, byte for byte, since the installation.
   */
  lemma SentFileArrives(
    c: Config, rc: Receivers.RxConfig, s: Tx, events: seq<Event>, h: nat, before: seq<ReceiverSafety.Step>,
    after: seq<ReceiverSafety.Step>, i: nat)
    requires Ready(c, s) && Known(c, s) && GoodRun(c, s, events)
    requires h < |s.objects| ==> Fresh(s.objects[h])
    requires var t := Steps(c, s, events);
      && DistinctTois(t.objects) && Readable(c, rc, t) && DistinctFileLocations(t.objects) && rc.hasCallback
      && h < |t.objects| && t.objects[h].meta.toi != 0 && t.objects[h].complete
      && ReceiverLiveness.OnlyPackets(before) && ReceiverLiveness.OnlyPackets(after)
      && var ss := SessionOf(c, t);
      && ReceiverSafety.RunGenuine(rc, ss, before + after) && ReceiverSafety.RunGenuine(rc, ss, before)
      && ReceiverSafety.RunFitsText(rc, ss, ReceiverSafety.Fresh(ss), before + after)
      && ReceiverLiveness.ListsAt(
           ReceiverSafety.AfterAll(rc, ss, ReceiverSafety.Fresh(ss), before).rx.log, i, t.objects[h].meta.toi)
      && forall packet :: packet in SentPackets(c, s, events) ==> Reaches(ss, after, packet)
    ensures var t := Steps(c, s, events);
      var ss := SessionOf(c, t);
      DeliveredFrom(ReceiverSafety.AfterAll(rc, ss, ReceiverSafety.Fresh(ss), before + after).rx.log, i, t.objects[h])
  {
    hide Ready, Known, GoodRun, DistinctTois, Readable, SessionOf, Steps, SentPackets, Reaches, Fresh,
         DistinctFileLocations, ReceiverSafety.RunGenuine, ReceiverSafety.RunFitsText, ReceiverSafety.AfterAll,
         ReceiverLiveness.ListsAt, ReceiverLiveness.OnlyPackets, AllArrive, DeliveredFrom;
    var t := Steps(c, s, events);
    GoodRunIsReady(c, s, events);
    ReadyHasObjects(c, t);
    RestIsGenuine(rc, SessionOf(c, t), before, after);
    AllSentArrives(c, rc, s, events, h, after);
    SentFileIsDelivered(c, rc, t, h, before, after, i);
  }

  lemma RestIsGenuine(
    rc: Receivers.RxConfig, ss: ReceiverSafety.Session, before: seq<ReceiverSafety.Step>,
    after: seq<ReceiverSafety.Step>)
    requires ReceiverSafety.RunGenuine(rc, ss, before + after)
    ensures ReceiverSafety.RunGenuine(rc, ss, after)
  {
    hide ReceiverSafety.StepGenuine;
    assert forall i :: 0 <= i < |after| ==> (before + after)[|before| + i] == after[i];
  }

  // ---------------------------------------------------------------------------------------------
  // Files sent before their table
  // ---------------------------------------------------------------------------------------------

  /** The last packet of the FDT is in flight. */
  ghost predicate FdtInFlight(c: Config, s: Tx, f: Flight) {
    && Ready(c, s) && s.active && f in s.inFlight && f.file < |s.objects| && s.objects[f.file].meta.toi == 0
    && 0 in s.files && s.files[0] == f.file && Marked(c, s, f).objects[f.file].complete
  }

  /** A file of one symbol whose TOI is the lowest in use. */
  ghost predicate LowestFile(c: Config, s: Tx, e: Event) {
    && e.SendingData? && Acceptable(s, e.data) && |e.data| <= s.maxPayload
    && DocumentSupported(c, s.fecOti, Losses.FirstTable(c, s, e.location, e.contentType, e.expires, e.data, e.now))
    && forall t :: t in s.files && t != 0 ==> s.nextToi < t
  }

  ghost predicate HasOne(f: FileState) {
    forall k: nat, j: nat :: f.Has(k, j) <==> k == 0 && j == 0
  }

  lemma SingleSymbolFile(c: Config, s: Tx, e: Event)
    requires SizesMatch(s) && e.SendingData? && Acceptable(s, e.data) && |e.data| <= s.maxPayload
    ensures var f := DataFile(c, s, e.location, e.contentType, e.expires, e.data);
      && f.meta.toi == s.nextToi as U32 != 0 && !f.complete && Fresh(f) && IdleAt(f, (0, 0))
      && IdleFrom(f.blocks, 0, 0) == Some((0, 0)) && HasOne(f)
  {
    hide Supported, Base64.Encode, HasSymbol;
    var f := DataFile(c, s, e.location, e.contentType, e.expires, e.data);
    SizeIsExact(s.fecOti, e.data);
    NewFileShaped(f.meta, e.data);
    NewFileIsFresh(f.meta, e.data);
    forall k: nat, j: nat
      ensures f.Has(k, j) <==> k == 0 && j == 0
    {
      FileHasSymbol(f, k, j);
      OneSymbol(f.meta.fecOti, k, j);
    }
    Losses.FreshIsIdle(f.meta.fecOti);
    assert f.Has(0, 0) && Idle(f.blocks, 0, 0);
  }

  /** The acknowledgement of the old FDT drops the new one, which lists the file. */
  lemma TableDropped(c: Config, s: Tx, f: Flight, e: Event, now: U64)
    requires FdtInFlight(c, s, f) && LowestFile(c, s, e)
    ensures var u := Step(c, Step(c, s, e), Acknowledged(f, now));
      var n := |s.objects|;
      && Ready(c, u) && u.active && |u.objects| == n + 2 && u.maxPayload == s.maxPayload
      && u.objects[n] == DataFile(c, s, e.location, e.contentType, e.expires, e.data)
      && s.nextToi in u.files && u.files[s.nextToi] == n && (forall t :: t in u.files ==> s.nextToi <= t)
      && u.callbacks == s.callbacks
  {
    hide Ready, DataFile, FdtFile, MarkCompleted, DocumentSupported, Acknowledge, SendData, Acceptable;
    Losses.SendAnnounces(c, s, e.location, e.contentType, e.expires, e.data, e.now);
    var u := Step(c, s, e);
    AcknowledgedFile(c, s, f);
    assert Marked(c, u, f).objects[f.file] == Marked(c, s, f).objects[f.file];
    AcknowledgeShape(c, u, f, now);
    AcknowledgeKeepsReady(c, u, f, now);
  }

  /** The file is then the lowest unfinished one, and its packet goes out. */
  lemma LowestIsSent(c: Config, u: Tx, n: nat, toi: U32)
    requires Ready(c, u) && u.active && n < |u.objects| && toi in u.files && u.files[toi] == n
    requires (forall t :: t in u.files ==> toi <= t) && IdleFrom(u.objects[n].blocks, 0, 0) == Some((0, 0))
    requires IdleAt(u.objects[n], (0, 0))
    ensures u.maxPayload >= 4 && Receivers.CanCut(u.objects[n].meta.fecOti)
    ensures SentBy(u, SendTimer) == [FilePacket(u, n, (0, 0))]
    ensures Step(c, u, SendTimer) == u.(objects := u.objects[n := Queue(u.objects[n], 0, 0)],
                                        inFlight := u.inFlight + multiset{TheFlight(u, n, (0, 0))})
    ensures Ready(c, Step(c, u, SendTimer))
  {
    hide Tracked, FlightsMatch, CallbacksMatch, ObjectsGood, NextBatch, ObjectPacket, FlightPacket;
    assert Unfinished(u, toi) && toi in UnfinishedTois(u);
    assert Least(UnfinishedTois(u)) == toi;
    IdleMeansNextFlight(c, u, (0, 0));
    SendTickShape(c, u);
    SendTickKeepsReady(c, u);
    SentForSymbol(c, u, n, (0, 0));
  }

  /** Its acknowledgement finishes it. */
  lemma SingleSymbolFinishes(c: Config, s: Tx, n: nat, now: U64)
    requires Ready(c, s) && n < |s.objects| && s.objects[n].meta.toi != 0 && HasOne(s.objects[n])
    requires s.objects[n].Has(0, 0) && TheFlight(s, n, (0, 0)) in s.inFlight
    ensures Reported(s, Step(c, s, Acknowledged(TheFlight(s, n, (0, 0)), now)), n, s.objects[n].meta.toi)
  {
    hide Ready, Step, SendFdt, SymbolToSend, Dropped, Marked, HasOne;
    OnlySymbolFinishes(c, s, n);
    FinishedShape(c, s, n, now);
    DroppedReports(c, s, n);
    AnnouncedAgain(c, Dropped(c, s, TheFlight(s, n, (0, 0))), s.fdt, s.objects[n].meta.toi, now);
  }

  /** The file is finished and reported, and its entry gone. */
  ghost predicate Reported(s: Tx, t: Tx, n: nat, toi: U32) {
    && n < |t.objects| && t.objects[n].complete && t.callbacks == s.callbacks + [n]
    && forall e :: e in t.fdt.entries ==> e.toi != toi
  }

  lemma FinishedShape(c: Config, s: Tx, n: nat, now: U64)
    requires Ready(c, s) && n < |s.objects| && s.objects[n].meta.toi != 0
    requires s.objects[n].Has(0, 0) && TheFlight(s, n, (0, 0)) in s.inFlight
    requires Marked(c, s, TheFlight(s, n, (0, 0))).objects[n].complete
    ensures var f := TheFlight(s, n, (0, 0));
      Step(c, s, Acknowledged(f, now)) ==
      SendFdt(c, Dropped(c, s, f).(fdt := RemoveEntry(s.fdt, s.objects[n].meta.toi)), now)
  {
    hide Ready, MarkCompleted, SendFdt, Acknowledge;
    AcknowledgedKeepsMeta(c, s, TheFlight(s, n, (0, 0)));
    AcknowledgeShape(c, s, TheFlight(s, n, (0, 0)), now);
  }

  lemma AcknowledgedKeepsMeta(c: Config, s: Tx, f: Flight)
    requires Ready(c, s) && f in s.inFlight
    ensures f.file < |s.objects|
    ensures var r := MarkCompleted(c.md5, s.objects[f.file], f.symbols, true);
      r.Returned? && r.state.meta == s.objects[f.file].meta
  {
    hide Ready, MarkCompleted;
    AcknowledgedFile(c, s, f);
  }

  lemma DroppedReports(c: Config, s: Tx, n: nat)
    requires n < |s.objects| && s.objects[n].Has(0, 0) && s.objects[n].meta.toi != 0
    ensures var d := Dropped(c, s, TheFlight(s, n, (0, 0)));
      && n < |d.objects| && d.objects[n] == Marked(c, s, TheFlight(s, n, (0, 0))).objects[n]
      && d.callbacks == s.callbacks + [n]
  {
    hide MarkCompleted;
  }

  /** The table without an entry, announced again. */
  lemma AnnouncedAgain(c: Config, d: Tx, fdt: Table, toi: U32, now: U64)
    ensures var t := SendFdt(c, d.(fdt := RemoveEntry(fdt, toi)), now);
      && d.objects <= t.objects && t.callbacks == d.callbacks && forall e :: e in t.fdt.entries ==> e.toi != toi
  {
    hide SendFdt;
    var r := d.(fdt := RemoveEntry(fdt, toi));
    SendFdtKeepsSettings(c, r, now);
    SendFdtKeepsEntries(c, r, now);
    WithoutKeepsOthers(fdt.entries, toi);
  }

  lemma OnlySymbolFinishes(c: Config, s: Tx, n: nat)
    requires Ready(c, s) && n < |s.objects|
    requires HasOne(s.objects[n])
    requires s.objects[n].Has(0, 0) && TheFlight(s, n, (0, 0)) in s.inFlight
    ensures Marked(c, s, TheFlight(s, n, (0, 0))).objects[n].complete
  {
    hide Ready, MarkCompleted, SymbolToSend;
    Losses.SymbolIsAt(s.objects[n], (0, 0));
    LastSymbolFinishes(c, s, TheFlight(s, n, (0, 0)));
  }

  lemma SendFdtKeepsEntries(c: Config, s: Tx, now: U64)
    ensures SendFdt(c, s, now).fdt.entries == s.fdt.entries
  {
    hide FdtFile;
  }

  /**
   * A channel that loses nothing does not make every file arrive.  A file that is sent with the lowest TOI in use while
   * the last packet of the FDT is in flight is sent, finished and reported without any table that lists it having been
   * handed to the socket: its own is dropped with the acknowledgement of the one before it.
   */
  lemma FileSentUnannounced(c: Config, s: Tx, f: Flight, e: Event, now: U64, later: U64) returns (g: Flight)
    requires FdtInFlight(c, s, f) && LowestFile(c, s, e)
    ensures var n, events := |s.objects|, [e, Acknowledged(f, now), SendTimer, Acknowledged(g, later)];
      var t := Steps(c, s, events);
      && n < |t.objects| && t.objects[n].meta.toi == s.nextToi as U32 && t.objects[n].complete
      && t.callbacks == s.callbacks + [n] && (forall x :: x in t.fdt.entries ==> x.toi != s.nextToi as U32)
      && Receivers.CanCut(t.objects[n].meta.fecOti)
      && SentPackets(c, s, events) == [FilePacket(t, n, (0, 0))]
  {
    hide Ready, DataFile, Step, SentBy, FilePacket, SentPackets, Steps, Acceptable, SymbolToSend, FdtInFlight, Queue,
         IdleFrom, Fresh, HasOne, DocumentSupported;
    FdtInFlightIsReady(c, s, f);
    var n, x := |s.objects|, DataFile(c, s, e.location, e.contentType, e.expires, e.data);
    ReadyMatchesSizes(c, s);
    SingleSymbolFile(c, s, e);
    TableDropped(c, s, f, e, now);
    var u := Step(c, Step(c, s, e), Acknowledged(f, now));
    LowestIsSent(c, u, n, s.nextToi);
    var v := Step(c, u, SendTimer);
    g := TheFlight(u, n, (0, 0));
    assert v.objects[n] == Queue(u.objects[n], 0, 0);
    assert u.objects[n].Has(0, 0);
    SameFlight(u, v, n);
    assert g in v.inFlight;
    SingleSymbolFinishes(c, v, n, later);
    var t := Step(c, v, Acknowledged(g, later));
    FourEvents(c, s, [e, Acknowledged(f, now), SendTimer, Acknowledged(g, later)]);
    NothingSentBy(s, e);
    NothingSentBy(Step(c, s, e), Acknowledged(f, now));
    NothingSentBy(v, Acknowledged(g, later));
    FinishedKeepsPacket(c, u, v, t, n, later);
  }

  lemma FdtInFlightIsReady(c: Config, s: Tx, f: Flight)
    requires FdtInFlight(c, s, f)
    ensures Ready(c, s)
  {
  }

  lemma ReadyMatchesSizes(c: Config, s: Tx)
    requires Ready(c, s)
    ensures SizesMatch(s)
  {
  }

  lemma SameFlight(u: Tx, v: Tx, n: nat)
    requires n < |u.objects| && u.objects[n].Has(0, 0) && n < |v.objects|
    requires v.objects[n] == Queue(u.objects[n], 0, 0)
    ensures v.objects[n].Has(0, 0) && TheFlight(v, n, (0, 0)) == TheFlight(u, n, (0, 0))
    ensures v.objects[n].meta == u.objects[n].meta && (HasOne(u.objects[n]) ==> HasOne(v.objects[n]))
  {
    assert forall k: nat, j: nat :: v.objects[n].Has(k, j) <==> u.objects[n].Has(k, j);
  }

  lemma NothingSentBy(s: Tx, e: Event)
    requires !e.SendTimer?
    ensures SentBy(s, e) == []
  {
  }

  /** Taking and acknowledging a symbol leaves its packet as it was. */
  lemma FinishedKeepsPacket(c: Config, u: Tx, v: Tx, t: Tx, n: nat, later: U64)
    requires n < |u.objects| && u.objects[n].Has(0, 0) && Receivers.CanCut(u.objects[n].meta.fecOti)
    requires v == u.(objects := u.objects[n := Queue(u.objects[n], 0, 0)], inFlight := v.inFlight)
    requires Ready(c, v) && TheFlight(u, n, (0, 0)) in v.inFlight
    requires t == Step(c, v, Acknowledged(TheFlight(u, n, (0, 0)), later))
    ensures n < |t.objects| && t.objects[n].meta == u.objects[n].meta
    ensures FilePacket(t, n, (0, 0)) == FilePacket(u, n, (0, 0))
  {
    hide ObjectPacket, MarkCompleted, Acknowledge, Ready;
    var f := TheFlight(u, n, (0, 0));
    AcknowledgedFile(c, v, f);
    Losses.AcknowledgeEffect(c, v, f, later);
    AcknowledgeKeepsRest(c, v, f, later);
  }

  lemma AcknowledgeKeepsRest(c: Config, s: Tx, f: Flight, now: U64)
    requires f.file < |s.objects|
    ensures Acknowledge(c, s, f, now).tsi == s.tsi
    ensures var file := s.objects[f.file];
      MarkCompleted(c.md5, file, f.symbols, true).state.fdtInstanceId == file.fdtInstanceId
  {
    hide MarkCompleted, FdtFile;
    MarkingIsFixed(c.md5, s.objects[f.file], f.symbols);
  }

  lemma FourEvents(c: Config, s: Tx, events: seq<Event>)
    requires |events| == 4
    ensures var s1 := Step(c, s, events[0]);
      var s2 := Step(c, s1, events[1]);
      var s3 := Step(c, s2, events[2]);
      && Steps(c, s, events) == Step(c, s3, events[3])
      && SentPackets(c, s, events) ==
         SentBy(s, events[0]) + SentBy(s1, events[1]) + SentBy(s2, events[2]) + SentBy(s3, events[3])
  {
    hide Step, SentBy;
    var a, b, d := events[1..], events[2..], events[3..];
    assert a[1..] == b && b[1..] == d && d[1..] == [];
    var s1 := Step(c, s, events[0]);
    var s2 := Step(c, s1, events[1]);
    var s3 := Step(c, s2, events[2]);
    assert Steps(c, s, events) == Steps(c, s1, a) == Steps(c, s2, b) == Steps(c, s3, d);
    assert Steps(c, s3, d) == Step(c, s3, events[3]) && SentPackets(c, s3, d) == SentBy(s3, events[3]);
    assert SentPackets(c, s2, b) == SentBy(s2, events[2]) + SentPackets(c, s3, d);
    assert SentPackets(c, s1, a) == SentBy(s1, events[1]) + SentPackets(c, s2, b);
  }

  /** The first table of a transmitter that sends a file description. */
  ghost function DescribedTable(s: Tx, d: Description, now: U64): Table {
    AddEntry(s.fdt, DescriptionFile(s, d)).(expires := ExpiryAt(now))
  }

  lemma DescriptionAnnounced(c: Config, s: Tx, d: Description, now: U64)
    requires Ready(c, s) && AcceptableDescription(c, s, d) && s.objects == [] && s.files == map[]
    requires DescriptionFile(s, d).fecOti.encodingId == COMPACT_NO_CODE && !NeedsToi(s, d)
    requires DocumentSupported(c, s.fecOti, DescribedTable(s, d, now))
    ensures var r, toi := Step(c, s, SendingDescription(d, now)), DescriptionFile(s, d).toi;
      && Ready(c, r) && r.active == s.active && |r.objects| == 2
      && r.objects[1] == FdtFile(c, s.fecOti, DescribedTable(s, d, now))
      && r.files == map[toi := 0, 0 := 1] && r.nextToi == s.nextToi && r.fecOti == s.fecOti
      && r.maxPayload == s.maxPayload
  {
    hide Ready, FdtFile, DocumentSupported, Layout, Supported, GenuineDigest;
    SendDescriptionKeepsReady(c, s, d, now);
    var entry := DescriptionEntry(s, d);
    var listed := Listed(s, entry.toi, DescribedFile(entry, d.data));
    assert listed.objects == [DescribedFile(entry, d.data)] && listed.files == map[entry.toi := 0];
    assert listed.fdt.(expires := ExpiryAt(now)) == DescribedTable(s, d, now);
  }

  /**
   * Such a state is reached by a transmitter that sends a description with a TOI of its own, above 1, and the packet of
   * its FDT: the next file gets TOI 1.
   */
  lemma UnannouncedIsReached(
    c: Config, tsi: U64, mtu: U16, tunnelled: bool, ns: FdtNamespace, d: Description, now: U64, e: Event)
    returns (f: Flight)
    requires MaxPayload(mtu, tunnelled) > 4 && e.SendingData? && e.data != [] && |e.data| <= MaxPayload(mtu, tunnelled)
    requires var s := Constructed(tsi, mtu, tunnelled, ns, true);
      && AcceptableDescription(c, s, d) && !NeedsToi(s, d) && DescriptionFile(s, d).toi > 1
      && DescriptionFile(s, d).fecOti.encodingId == COMPACT_NO_CODE && SupportedData(s.fecOti, e.data)
      && DocumentSupported(c, s.fecOti, DescribedTable(s, d, now))
      && |c.render(ToXml(DescribedTable(s, d, now)))| <= s.maxPayload
      && var u := Steps(c, s, [SendingDescription(d, now), SendTimer]);
      DocumentSupported(c, s.fecOti, Losses.FirstTable(c, u, e.location, e.contentType, e.expires, e.data, e.now))
    ensures var u := Steps(c, Constructed(tsi, mtu, tunnelled, ns, true), [SendingDescription(d, now), SendTimer]);
      FdtInFlight(c, u, f) && LowestFile(c, u, e)
  {
    hide Ready, FdtFile, DocumentSupported, AcceptableDescription, DescriptionFile, NeedsToi, FdtInFlight, Step,
         Constructed, SupportedData, DescribedTable, Losses.FirstTable, Steps;
    var s := Constructed(tsi, mtu, tunnelled, ns, true);
    Losses.ConstructedFacts(c, tsi, mtu, tunnelled, ns);
    DescriptionAnnounced(c, s, d, now);
    f := FirstFdtInFlight(c, Step(c, s, SendingDescription(d, now)), DescribedTable(s, d, now));
    TwoEvents(c, s, SendingDescription(d, now), SendTimer);
  }

  lemma FirstFdtInFlight(c: Config, r: Tx, t: Table) returns (f: Flight)
    requires Ready(c, r) && r.active && |r.objects| == 2 && 0 in r.files && r.files[0] == 1
    requires r.objects[1] == FdtFile(c, r.fecOti, t)
    requires DocumentSupported(c, r.fecOti, t) && |c.render(ToXml(t))| <= r.maxPayload
    ensures var u := Step(c, r, SendTimer);
      FdtInFlight(c, u, f) && u.files == r.files && u.nextToi == r.nextToi && u.maxPayload == r.maxPayload
      && u.fecOti == r.fecOti
  {
    hide Ready, FdtFile, DocumentSupported, Marked, SendTick, Step;
    f := Losses.FirstPacketIsOfFdt(c, r, t);
    TickKeepsFiles(c, r);
  }

  lemma TickKeepsFiles(c: Config, s: Tx)
    requires Ready(c, s)
    ensures s.maxPayload >= 4 && Ready(c, SendTick(s)) && Step(c, s, SendTimer) == SendTick(s)
    ensures var t := SendTick(s); t.files == s.files && t.nextToi == s.nextToi && t.maxPayload == s.maxPayload
  {
    hide Ready, NextFlight;
    ReadySendsPackets(c, s);
    SendTickShape(c, s);
    SendTickKeepsReady(c, s);
  }

  lemma TwoEvents(c: Config, s: Tx, e0: Event, e1: Event)
    ensures Steps(c, s, [e0, e1]) == Step(c, Step(c, s, e0), e1)
  {
    hide Step;
    assert [e0, e1][1..] == [e1] && [e1][1..] == [];
    assert Steps(c, Step(c, s, e0), [e1]) == Steps(c, Step(c, Step(c, s, e0), e1), []);
  }
}
