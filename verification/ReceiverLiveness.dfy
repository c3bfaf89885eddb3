/**
 * The receiver delivers (src/Receiver.cpp:78-112): a tracked object all of whose packets arrive is handed to the
 * callback, and an FDT all of whose packets arrive is installed.
 */
module ReceiverLiveness {
  import opened Bytes
  import opened Flute
  import opened AlcPackets
  import opened Files
  import opened Completion
  import opened EndToEnd
  import opened FdtXml
  import opened Receivers
  import opened ReceiverSafety

  // ---------------------------------------------------------------------------------------------
  // Content locations
  // ---------------------------------------------------------------------------------------------

  /** Some table lists the object with this content location. */
  ghost predicate IsLocation(ss: Session, t: U64, location: string) {
    exists n, i :: 0 <= n < |ss.tables| && 0 <= i < |ss.tables[n].entries|
        && IsEntryAt(ss.tables[n].entries[i], t, location)
  }

  ghost predicate IsEntryAt(e: FileEntry, t: U64, location: string) {
    e.toi == t && e.contentLocation == location
  }

  /** Different objects have different content locations, and none has that of an FDT. */
  ghost predicate DistinctLocations(ss: Session) {
    forall t: U64, u: U64, location: string :: IsLocation(ss, t, location) && IsLocation(ss, u, location) ==>
      t == u && location != ""
  }

  ghost predicate Located(ss: Session, t: U64, f: FileState) {
    if t == 0 then f.meta.contentLocation == "" else IsLocation(ss, t, f.meta.contentLocation)
  }

  ghost predicate AllLocated(ss: Session, files: map<U64, FileState>) {
    forall t :: t in files ==> Located(ss, t, files[t])
  }

  lemma LocationsDiffer(ss: Session, files: map<U64, FileState>, t: U64, u: U64)
    requires DistinctLocations(ss) && AllLocated(ss, files) && t in files && u in files && t != u
    ensures files[t].meta.contentLocation != files[u].meta.contentLocation
  {
    assert Located(ss, t, files[t]) && Located(ss, u, files[u]);
  }

  lemma ListedIsLocated(ss: Session, n: nat, id: U32, t: U64, f: FileState)
    requires n < |ss.tables| && IsForEntry(ReadAs(ss, n, id), t, f) && t != 0
    ensures Located(ss, t, f)
  {
    var entries := ReadAs(ss, n, id).entries;
    var i :| 0 <= i < |entries| && entries[i].toi == t && f.meta == entries[i];
    assert IsEntryAt(ss.tables[n].entries[i], t, f.meta.contentLocation);
  }

  // ---------------------------------------------------------------------------------------------
  // What a packet does
  // ---------------------------------------------------------------------------------------------

  /** What a file has is what it had, and perhaps the symbol that arrived. */
  ghost predicate Advanced(f: FileState, g: FileState, k: nat, j: nat) {
    && g.meta == f.meta && Delivers(f, g, k, j)
  }

  /** A packet of an object that is tracked: the file advances, or it is complete and delivered. */
  lemma ObjectPacketEffect(c: RxConfig, ss: Session, s: Reception, p: Packet) returns (g: FileState)
    requires SessionGood(c, ss) && Safe(c, ss, s) && IsGenuine(c, ss, p) && p.ObjectPacketOf? && c.hasCallback
    requires p.toi in s.rx.files
    ensures Advanced(s.rx.files[p.toi], g, p.k, p.j)
    ensures g.complete ==> forall a: nat, b: nat :: g.Has(a, b) ==> g.At(a, b).complete
    ensures var f, q := s.rx.files[p.toi], Received(c, ss, s.rx, p).state;
      if g.complete then
        && q.log == s.rx.log + [Delivered(p.toi, g)]
        && q.files == map u | u in s.rx.files && u != p.toi
                              && s.rx.files[u].meta.contentLocation != f.meta.contentLocation :: s.rx.files[u]
      else
        q.log == s.rx.log && q.files == s.rx.files[p.toi := g]
  {
    hide ToXml, TableGood, Receiving, LogGood, Receive, Advanced;
    var r := s.rx;
    ObjectPacketHandled(c, ss, r, p);
    var o, f := ss.objects[p.toi], r.files[p.toi];
    assert TrackedObject(c, ss, r.log, p.toi, f);
    var symbol := Genuine(f, o.data, p.k, p.j);
    ReceivingIsPlain(c, o, f);
    PutIsReceiving(c, o, f, p.k, p.j);
    GenuineAdvances(c, o, f, p.k, p.j);
    CompleteHasAll(c, o, f, p.k, p.j);
    HandledAs(c, ss, r, p, r, symbol);
    g := PutAll(c.md5, f, [symbol]).state;
    if g.complete {
      DeliveryIsSafe(c, ss, r, p.toi, g);
    }
  }

  lemma GenuineAdvances(c: RxConfig, o: Object, f: FileState, k: nat, j: nat)
    requires Receiving(c, o, f) && f.Has(k, j)
    ensures Advanced(f, PutAll(c.md5, f, [Genuine(f, o.data, k, j)]).state, k, j)
  {
    hide PutSymbol;
    PutAllOne(c.md5, f, Genuine(f, o.data, k, j));
    PutGenuine(c.md5, f, o.data, k, j);
  }

  /** A packet of an object that is not tracked. */
  lemma UntrackedPacketIgnored(c: RxConfig, ss: Session, s: Reception, p: Packet)
    requires Safe(c, ss, s) && IsGenuine(c, ss, p) && p.ObjectPacketOf? && p.toi !in s.rx.files
    ensures Received(c, ss, s.rx, p) == Returned(s.rx)
  {
    hide ToXml, TableGood, Receiving, LogGood, ParsePacket;
    ObjectPacketHandled(c, ss, s.rx, p);
  }

  /** The receiver once an FDT packet has opened a file, if it does. */
  ghost function OpenedBy(c: RxConfig, r: Rx, alc: Alc): Rx {
    if OpensFdt(r, alc) && !CanCut(alc.fecOti) then r else Opened(c, r, alc)
  }

  lemma SafeHasSafeObjects(c: RxConfig, ss: Session, s: Reception)
    requires Safe(c, ss, s)
    ensures SafeApartFromFdt(c, ss, s.rx)
  {
  }

  /** A packet of an FDT, given the file it goes into: the file advances, or it is complete and installed. */
  lemma FdtPacketEffect(c: RxConfig, ss: Session, s: Reception, p: Packet) returns (g: FileState, n: nat)
    requires SessionGood(c, ss) && Safe(c, ss, s) && IsGenuine(c, ss, p) && p.FdtPacketOf? && FitsText(ss, s, p)
    requires 0 in OpenedBy(c, s.rx, HeaderOf(c, ss, p)).files
    ensures var r := OpenedBy(c, s.rx, HeaderOf(c, ss, p));
      var f, q := r.files[0], Received(c, ss, s.rx, p).state;
      && Advanced(f, g, p.k, p.j) && n < |ss.tables|
      && var table := ReadAs(ss, n, HeaderOf(c, ss, p).fdtInstanceId);
      if g.complete then
        && q.log == s.rx.log + [Installed(table)] && 0 !in q.files
        && InstalledFiles(table, r.files, g, q.files)
      else q.log == s.rx.log && q.files == r.files[0 := g]
  {
    hide ToXml, TableGood, Receiving, LogGood, TrackedObject, Receive, Advanced, PutsRight, FdtSymbol;
    FdtPacketHandled(c, ss, s, p);
    hide Opened, HeaderOf, Completed, IsGenuine, PutAll, SafeApartFromFdt, InstalledFiles;
    n, g := FdtPacketProgress(c, ss, s, p);
    var alc := HeaderOf(c, ss, p);
    var r := OpenedBy(c, s.rx, alc);
    ReceivingIsPlain(c, ss.Announcement(n), r.files[0]);
    GenuineAdvances(c, ss.Announcement(n), r.files[0], p.k, p.j);
    SafeHasSafeObjects(c, ss, Reception(r, Some(n)));
    if g.complete {
      InstallIsSafe(c, ss, r, g, n, alc);
    }
  }

  lemma SkippedFdtPacket(c: RxConfig, ss: Session, s: Reception, p: Packet)
    requires Safe(c, ss, s) && IsGenuine(c, ss, p) && p.FdtPacketOf? && FitsText(ss, s, p)
    requires 0 !in OpenedBy(c, s.rx, HeaderOf(c, ss, p)).files
    ensures Received(c, ss, s.rx, p) == Returned(s.rx)
  {
    hide ToXml, TableGood, Receiving, LogGood, TrackedObject, ParsePacket;
    FdtPacketHandled(c, ss, s, p);
  }

  // ---------------------------------------------------------------------------------------------
  // Waiting for packets
  // ---------------------------------------------------------------------------------------------

  type Pos = (nat, nat)

  /** The place at TOI `t` a packet is for; an FDT packet is for TOI 0. */
  ghost function PlacesOf(p: Packet, t: U64): set<Pos> {
    if (if p.ObjectPacketOf? then p.toi as int else 0) == t then {(p.k, p.j)} else {}
  }

  /** A file is tracked and has these symbols. */
  ghost predicate Waits(r: Rx, t: U64, got: set<Pos>) {
    t in r.files && forall q :: q in got ==> r.files[t].Has(q.0, q.1) && r.files[t].At(q.0, q.1).complete
  }

  /** What a tracked file is waiting for has happened: its delivery, or the installation of a table. */
  ghost predicate Finished(o: Observed, t: U64) {
    if t == 0 then o.Installed? else o.Delivered? && o.toi == t
  }

  ghost predicate FinishedSince(log: seq<Observed>, n: nat, t: U64) {
    exists i :: n <= i < |log| && Finished(log[i], t)
  }

  lemma AdvancedWaits(f: FileState, g: FileState, k: nat, j: nat, q: Pos)
    requires Advanced(f, g, k, j) && f.Has(q.0, q.1) && (q == (k, j) || f.At(q.0, q.1).complete)
    ensures g.Has(q.0, q.1) && g.At(q.0, q.1).complete
  {
    assert DeliversAt(f, g, k, j, q.0, q.1);
  }

  /** The file of the packet moves on. */
  lemma OwnFileWaits(r: Rx, q: Rx, t: U64, g: FileState, k: nat, j: nat, got: set<Pos>)
    requires Waits(r, t, got) && Advanced(r.files[t], g, k, j) && q.files == r.files[t := g]
    ensures Waits(q, t, got + {(k, j)})
  {
    forall p | p in got + {(k, j)}
      ensures g.Has(p.0, p.1) && g.At(p.0, p.1).complete
    {
      AdvancedWaits(r.files[t], g, k, j, p);
    }
  }

  lemma ObjectPacketWaits(c: RxConfig, ss: Session, s: Reception, p: Packet, t: U64, got: set<Pos>)
    requires SessionGood(c, ss) && Safe(c, ss, s) && IsGenuine(c, ss, p) && p.ObjectPacketOf? && c.hasCallback
    requires DistinctLocations(ss) && AllLocated(ss, s.rx.files)
    ensures var q := Received(c, ss, s.rx, p).state;
      && AllLocated(ss, q.files) && s.rx.log <= q.log
      && (Waits(s.rx, t, got) ==> FinishedSince(q.log, |s.rx.log|, t) || Waits(q, t, got + PlacesOf(p, t)))
  {
    hide SessionGood, Safe, IsGenuine, Receive, Located, DistinctLocations, Received, Advanced;
    PacketIsNotFdt(c, ss, p);
    if p.toi !in s.rx.files {
      UntrackedPacketIgnored(c, ss, s, p);
      assert Waits(s.rx, t, got) ==> got + PlacesOf(p, t) == got;
    } else {
      var g := ObjectPacketEffect(c, ss, s, p);
      var q := Received(c, ss, s.rx, p).state;
      if g.complete {
        assert q.log[|s.rx.log|] == Delivered(p.toi, g);
        if Waits(s.rx, t, got) && p.toi != t {
          LocationsDiffer(ss, s.rx.files, p.toi, t);
          assert got + PlacesOf(p, t) == got;
        }
      } else {
        MetaLocates(ss, s.rx, q, p.toi, g, p.k, p.j);
        if Waits(s.rx, t, got) {
          if p.toi == t {
            OwnFileWaits(s.rx, q, t, g, p.k, p.j, got);
          } else {
            assert got + PlacesOf(p, t) == got;
          }
        }
      }
    }
  }

  lemma PacketIsNotFdt(c: RxConfig, ss: Session, p: Packet)
    requires IsGenuine(c, ss, p) && p.ObjectPacketOf?
    ensures p.toi != 0
  {
  }

  lemma MetaLocates(ss: Session, r: Rx, q: Rx, t: U64, g: FileState, k: nat, j: nat)
    requires AllLocated(ss, r.files) && t in r.files && Advanced(r.files[t], g, k, j) && q.files == r.files[t := g]
    ensures AllLocated(ss, q.files)
  {
    hide IsLocation;
    assert Located(ss, t, r.files[t]);
    forall u | u in q.files
      ensures Located(ss, u, q.files[u])
    {
      assert u != t ==> Located(ss, u, r.files[u]);
    }
  }

  lemma OpenedIsLocated(c: RxConfig, ss: Session, r: Rx, alc: Alc)
    requires AllLocated(ss, r.files)
    ensures AllLocated(ss, OpenedBy(c, r, alc).files)
    ensures forall t :: t in r.files ==> t in OpenedBy(c, r, alc).files && OpenedBy(c, r, alc).files[t] == r.files[t]
  {
    hide IsLocation, Layout;
    var q := OpenedBy(c, r, alc);
    forall u | u in q.files
      ensures Located(ss, u, q.files[u])
    {
      assert u in r.files ==> Located(ss, u, r.files[u]);
    }
  }

  lemma InstalledIsLocated(
    ss: Session, n: nat, id: U32, before: map<U64, FileState>, g: FileState, files: map<U64, FileState>)
    requires n < |ss.tables| && AllLocated(ss, before) && 0 !in files
    requires InstalledFiles(ReadAs(ss, n, id), before, g, files)
    ensures AllLocated(ss, files)
  {
    hide IsLocation, ReadAs, IsForEntry;
    forall t | t in files
      ensures Located(ss, t, files[t])
    {
      if t in before && files[t] == before[t] {
        assert Located(ss, t, before[t]);
      } else {
        ListedIsLocated(ss, n, id, t, files[t]);
      }
    }
  }

  lemma FdtPacketWaits(c: RxConfig, ss: Session, s: Reception, p: Packet, t: U64, got: set<Pos>)
    requires SessionGood(c, ss) && Safe(c, ss, s) && IsGenuine(c, ss, p) && p.FdtPacketOf? && FitsText(ss, s, p)
    requires DistinctLocations(ss) && AllLocated(ss, s.rx.files)
    ensures var q := Received(c, ss, s.rx, p).state;
      && AllLocated(ss, q.files) && s.rx.log <= q.log
      && (Waits(s.rx, t, got) ==> FinishedSince(q.log, |s.rx.log|, t) || Waits(q, t, got + PlacesOf(p, t)))
  {
    hide SessionGood, Safe, IsGenuine, Receive, Located, DistinctLocations, Received, Advanced, InstalledFiles,
         FitsText, OpenedBy, HeaderOf, ReadAs;
    FdtPacketOpens(c, ss, s, p);
    var r := OpenedBy(c, s.rx, HeaderOf(c, ss, p));
    OpenedIsLocated(c, ss, s.rx, HeaderOf(c, ss, p));
    assert t != 0 ==> got + PlacesOf(p, t) == got;
    if 0 !in r.files {
      SkippedFdtPacket(c, ss, s, p);
    } else {
      var g, n := FdtPacketEffect(c, ss, s, p);
      var q := Received(c, ss, s.rx, p).state;
      var id := HeaderOf(c, ss, p).fdtInstanceId;
      AdvancedKeepsMeta(r.files[0], g, p.k, p.j);
      if g.complete {
        assert q.log[|s.rx.log|] == Installed(ReadAs(ss, n, id));
        InstalledIsLocated(ss, n, id, r.files, g, q.files);
        if Waits(s.rx, t, got) && t != 0 {
          LocationsDiffer(ss, r.files, 0, t);
          KeptByInstall(ReadAs(ss, n, id), r.files, g, q.files, t);
        }
      } else {
        MetaLocates(ss, r, q, 0, g, p.k, p.j);
        if Waits(s.rx, t, got) && t == 0 {
          OwnFileWaits(r, q, 0, g, p.k, p.j, got);
        }
      }
    }
  }

  lemma FdtPacketOpens(c: RxConfig, ss: Session, s: Reception, p: Packet)
    requires Safe(c, ss, s) && IsGenuine(c, ss, p) && p.FdtPacketOf? && FitsText(ss, s, p)
    ensures p.n < |ss.tables|
    ensures OpenedBy(c, s.rx, HeaderOf(c, ss, p)).log == s.rx.log
  {
    hide ToXml, TableGood, LogGood, TrackedObject;
    FdtPacketHandled(c, ss, s, p);
  }

  lemma AdvancedKeepsMeta(f: FileState, g: FileState, k: nat, j: nat)
    requires Advanced(f, g, k, j)
    ensures g.meta == f.meta
  {
  }

  lemma KeptByInstall(
    table: Table, before: map<U64, FileState>, g: FileState, files: map<U64, FileState>, t: U64)
    requires InstalledFiles(table, before, g, files)
    requires t in before && t != 0 && before[t].meta.contentLocation != g.meta.contentLocation
    ensures t in files && files[t] == before[t]
  {
  }

  // ---------------------------------------------------------------------------------------------
  // Whole runs
  // ---------------------------------------------------------------------------------------------

  /** Packets only. */
  ghost predicate OnlyPackets(steps: seq<Step>) {
    forall i :: 0 <= i < |steps| ==> steps[i].Arrives?
  }

  lemma PacketWaits(c: RxConfig, ss: Session, s: Reception, p: Packet, t: U64, got: set<Pos>)
    requires SessionGood(c, ss) && Safe(c, ss, s) && IsGenuine(c, ss, p) && FitsText(ss, s, p) && c.hasCallback
    requires DistinctLocations(ss) && AllLocated(ss, s.rx.files)
    ensures var q := AfterPacket(c, ss, s, p).rx;
      && AllLocated(ss, q.files) && s.rx.log <= q.log
      && (Waits(s.rx, t, got) ==> FinishedSince(q.log, |s.rx.log|, t) || Waits(q, t, got + PlacesOf(p, t)))
  {
    hide SessionGood, Safe, IsGenuine, FitsText, Received, DistinctLocations, Located, Waits, FinishedSince;
    if p.ObjectPacketOf? {
      ObjectPacketWaits(c, ss, s, p, t, got);
    } else {
      FdtPacketWaits(c, ss, s, p, t, got);
    }
  }

  /** The packet for a place is among the steps. */
  ghost predicate ArrivesIn(steps: seq<Step>, t: U64, q: Pos) {
    exists i :: 0 <= i < |steps| && steps[i].Arrives? && q in PlacesOf(steps[i].packet, t)
  }

  /** What is being received at TOI `t`. */
  ghost predicate IsReceived(ss: Session, s: Reception, t: U64, o: Object) {
    if t == 0 then s.current.Some? && s.current.value < |ss.tables| && o == ss.Announcement(s.current.value)
    else t in ss.objects && o == ss.objects[t]
  }

  lemma TrackedIsReceiving(c: RxConfig, ss: Session, s: Reception, t: U64, o: Object)
    requires Safe(c, ss, s) && t in s.rx.files && IsReceived(ss, s, t, o)
    ensures Receiving(c, o, s.rx.files[t])
  {
    hide ToXml, TableGood, LogGood;
    if t != 0 {
      assert TrackedObject(c, ss, s.rx.log, t, s.rx.files[t]);
    }
  }

  /** A tracked file that is not complete lacks a symbol. */
  lemma WaitingLacksSymbol(c: RxConfig, ss: Session, s: Reception, t: U64, o: Object, got: set<Pos>)
    requires Safe(c, ss, s) && Waits(s.rx, t, got) && IsReceived(ss, s, t, o)
    ensures CanCut(o.oti) && exists k: nat, j: nat :: HasSymbol(o.oti, k, j) && (k, j) !in got
  {
    hide Safe, HasSymbol, Receiving;
    TrackedIsReceiving(c, ss, s, t, o);
    var k, j := ReceivingLacksSymbol(c, o, s.rx.files[t]);
    assert (k, j) !in got;
  }

  lemma ReceivingLacksSymbol(c: RxConfig, o: Object, f: FileState) returns (k: nat, j: nat)
    requires Receiving(c, o, f)
    ensures CanCut(o.oti) && HasSymbol(o.oti, k, j) && f.Has(k, j) && !f.At(k, j).complete
  {
    hide HasSymbol;
    CompleteMeansAllSymbols(c.md5, f);
    k, j :| f.Has(k, j) && !f.At(k, j).complete;
    FileHasSymbol(f, k, j);
    SameCutSameSymbols(o.oti, f.meta.fecOti, k, j);
  }

  lemma SameCutSameSymbols(oti: FecOti, other: FecOti, k: nat, j: nat)
    requires CanCut(oti) && SameCut(oti, other)
    ensures HasSymbol(oti, k, j) <==> HasSymbol(other, k, j)
  {
  }

  lemma ReceivedStaysSame(c: RxConfig, ss: Session, s: Reception, p: Packet, t: U64, o: Object)
    requires IsGenuine(c, ss, p) && IsReceived(ss, s, t, o) && t in s.rx.files && t in AfterPacket(c, ss, s, p).rx.files
    ensures IsReceived(ss, AfterPacket(c, ss, s, p), t, o)
  {
    hide IsGenuine, Received;
  }

  /** After any run of packets the log has only grown. */
  lemma {:induction false} RunGrowsLog(c: RxConfig, ss: Session, s: Reception, steps: seq<Step>)
    requires SessionGood(c, ss) && Safe(c, ss, s) && c.hasCallback && DistinctLocations(ss)
        && AllLocated(ss, s.rx.files)
    requires OnlyPackets(steps) && RunGenuine(c, ss, steps) && RunFitsText(c, ss, s, steps)
    ensures s.rx.log <= AfterAll(c, ss, s, steps).rx.log
    decreases |steps|
  {
    hide SessionGood, Safe, IsGenuine, FitsText, AfterPacket, DistinctLocations, Located, Waits;
    if steps != [] {
      assert StepGenuine(c, ss, steps[0]);
      StepIsSafe(c, ss, s, steps[0]);
      PacketWaits(c, ss, s, steps[0].packet, 0, {});
      RunGrowsLog(c, ss, After(c, ss, s, steps[0]), steps[1..]);
    }
  }

  /**
   * Liveness.  Where a file is tracked and the packets of all the symbols it lacks arrive, in any order and among any
   * others, without removals, interleaved texts and clashing content locations: an object is delivered, an FDT is
   * installed.
   */
  lemma {:induction false} TrackedIsFinished(
    c: RxConfig, ss: Session, s: Reception, steps: seq<Step>, t: U64, o: Object, got: set<Pos>)
    requires SessionGood(c, ss) && Safe(c, ss, s) && c.hasCallback && DistinctLocations(ss)
        && AllLocated(ss, s.rx.files)
    requires OnlyPackets(steps) && RunGenuine(c, ss, steps) && RunFitsText(c, ss, s, steps)
    requires Waits(s.rx, t, got) && IsReceived(ss, s, t, o) && CanCut(o.oti)
    requires forall k: nat, j: nat :: HasSymbol(o.oti, k, j) ==> (k, j) in got || ArrivesIn(steps, t, (k, j))
    ensures FinishedSince(AfterAll(c, ss, s, steps).rx.log, |s.rx.log|, t)
    decreases |steps|
  {
    hide SessionGood, Safe, IsGenuine, FitsText, AfterPacket, DistinctLocations, Located, Waits, IsReceived,
         HasSymbol, FinishedSince, PlacesOf;
    if steps == [] {
      WaitingLacksSymbol(c, ss, s, t, o, got);
      assert false;
    } else {
      var p, rest := steps[0].packet, steps[1..];
      assert StepGenuine(c, ss, steps[0]);
      StepIsSafe(c, ss, s, steps[0]);
      PacketWaits(c, ss, s, p, t, got);
      var q := AfterPacket(c, ss, s, p);
      RunGrowsLog(c, ss, q, rest);
      var log := AfterAll(c, ss, q, rest).rx.log;
      if FinishedSince(q.rx.log, |s.rx.log|, t) {
        FinishedStays(q.rx.log, log, |s.rx.log|, t);
      } else {
        WaitsIsTracked(s.rx, t, got);
        WaitsIsTracked(q.rx, t, got + PlacesOf(p, t));
        ReceivedStaysSame(c, ss, s, p, t, o);
        StillToArrive(o, steps, t, got);
        TrackedIsFinished(c, ss, q, rest, t, o, got + PlacesOf(p, t));
        FinishedLater(log, |s.rx.log|, |q.rx.log|, t);
      }
    }
  }

  // ---------------------------------------------------------------------------------------------
  // Nothing is delivered without its symbols
  // ---------------------------------------------------------------------------------------------

  /** The symbol at `q` was not received. */
  ghost predicate LacksPlace(r: Rx, t: U64, q: Pos) {
    t in r.files && r.files[t].Has(q.0, q.1) ==> !r.files[t].At(q.0, q.1).complete
  }

  lemma CompleteHasAll(c: RxConfig, o: Object, f: FileState, k: nat, j: nat)
    requires Receiving(c, o, f) && f.Has(k, j)
    ensures var g := PutAll(c.md5, f, [Genuine(f, o.data, k, j)]).state;
      g.complete ==> forall a: nat, b: nat :: g.Has(a, b) ==> g.At(a, b).complete
  {
    hide PutSymbol;
    PutAllOne(c.md5, f, Genuine(f, o.data, k, j));
    PutGenuine(c.md5, f, o.data, k, j);
    CompleteMeansAllSymbols(c.md5, PutSymbol(c.md5, f, Genuine(f, o.data, k, j)).state);
  }

  lemma AdvancedLacks(f: FileState, g: FileState, k: nat, j: nat, q: Pos)
    requires Advanced(f, g, k, j) && f.Has(q.0, q.1) && !f.At(q.0, q.1).complete && q != (k, j)
    ensures g.Has(q.0, q.1) && !g.At(q.0, q.1).complete
  {
    assert DeliversAt(f, g, k, j, q.0, q.1);
  }

  /** A packet for another place neither fills this one nor makes its object complete. */
  lemma PacketLeavesLacking(c: RxConfig, ss: Session, s: Reception, p: Packet, t: U16, q: Pos)
    requires SessionGood(c, ss) && Safe(c, ss, s) && IsGenuine(c, ss, p) && FitsText(ss, s, p) && c.hasCallback
    requires t != 0 && t in ss.objects && CanCut(ss.objects[t].oti) && HasSymbol(ss.objects[t].oti, q.0, q.1)
    requires LacksPlace(s.rx, t, q) && q !in PlacesOf(p, t)
    ensures var r := AfterPacket(c, ss, s, p).rx;
      && LacksPlace(r, t, q) && s.rx.log <= r.log
      && forall i :: |s.rx.log| <= i < |r.log| ==> !Finished(r.log[i], t)
  {
    hide SessionGood, Safe, IsGenuine, FitsText, Received, OpenedBy, HeaderOf, ReadAs, Advanced, HasSymbol;
    var r := AfterPacket(c, ss, s, p).rx;
    if p.FdtPacketOf? {
      FdtPacketOpens(c, ss, s, p);
      var begun := OpenedBy(c, s.rx, HeaderOf(c, ss, p));
      OpeningLeavesOthers(c, s.rx, HeaderOf(c, ss, p), t);
      if 0 in begun.files {
        var g, n := FdtPacketEffect(c, ss, s, p);
      } else {
        SkippedFdtPacket(c, ss, s, p);
      }
    } else if p.toi in s.rx.files {
      var g := ObjectPacketEffect(c, ss, s, p);
      if p.toi == t {
        TrackedHasSymbol(c, ss, s, t, q);
        AdvancedLacks(s.rx.files[t], g, p.k, p.j, q);
      }
    } else {
      UntrackedPacketIgnored(c, ss, s, p);
    }
  }

  lemma OpeningLeavesOthers(c: RxConfig, r: Rx, alc: Alc, t: U64)
    requires t != 0
    ensures var begun := OpenedBy(c, r, alc).files;
      (t in begun <==> t in r.files) && (t in r.files ==> begun[t] == r.files[t])
  {
  }

  lemma TrackedHasSymbol(c: RxConfig, ss: Session, s: Reception, t: U16, q: Pos)
    requires Safe(c, ss, s) && t != 0 && t in s.rx.files && t in ss.objects
    requires CanCut(ss.objects[t].oti) && HasSymbol(ss.objects[t].oti, q.0, q.1)
    ensures s.rx.files[t].Has(q.0, q.1)
  {
    hide HasSymbol, Partial;
    var f := s.rx.files[t];
    assert TrackedObject(c, ss, s.rx.log, t, f);
    SameCutSameSymbols(ss.objects[t].oti, f.meta.fecOti, q.0, q.1);
    ReceivingIsShaped(c, ss.objects[t], f);
    FileHasSymbol(f, q.0, q.1);
  }

  lemma ReceivingIsShaped(c: RxConfig, o: Object, f: FileState)
    requires Receiving(c, o, f)
    ensures Shaped(f)
  {
  }

  /** Without one of its symbols an object is not delivered, over every run of packets. */
  lemma {:induction false} LackingIsNotDelivered(
    c: RxConfig, ss: Session, s: Reception, steps: seq<Step>, t: U16, q: Pos)
    requires SessionGood(c, ss) && Safe(c, ss, s) && c.hasCallback
    requires OnlyPackets(steps) && RunGenuine(c, ss, steps) && RunFitsText(c, ss, s, steps)
    requires t != 0 && t in ss.objects && CanCut(ss.objects[t].oti) && HasSymbol(ss.objects[t].oti, q.0, q.1)
    requires LacksPlace(s.rx, t, q) && !ArrivesIn(steps, t, q)
    ensures s.rx.log <= AfterAll(c, ss, s, steps).rx.log
    ensures !FinishedSince(AfterAll(c, ss, s, steps).rx.log, |s.rx.log|, t)
    decreases |steps|
  {
    hide SessionGood, Safe, IsGenuine, FitsText, AfterPacket, HasSymbol, LacksPlace, PlacesOf, Finished;
    if steps != [] {
      var p, rest := steps[0].packet, steps[1..];
      assert StepGenuine(c, ss, steps[0]);
      StepIsSafe(c, ss, s, steps[0]);
      assert q !in PlacesOf(p, t);
      PacketLeavesLacking(c, ss, s, p, t, q);
      assert forall i :: 0 <= i < |rest| ==> rest[i] == steps[i + 1];
      var r := AfterPacket(c, ss, s, p);
      LackingIsNotDelivered(c, ss, r, rest, t, q);
      var log := AfterAll(c, ss, r, rest).rx.log;
      forall i | |s.rx.log| <= i < |log|
        ensures !Finished(log[i], t)
      {
        assert i < |r.rx.log| ==> log[i] == r.rx.log[i];
      }
    }
  }

  /**
   * Exactly when.  An object that is tracked with the symbols in `got` is delivered over a run of packets, if and only
   * if the packets of all its other symbols are among them.
   */
  lemma DeliveredExactly(c: RxConfig, ss: Session, s: Reception, steps: seq<Step>, t: U16, got: set<Pos>)
    requires SessionGood(c, ss) && Safe(c, ss, s) && c.hasCallback && DistinctLocations(ss)
        && AllLocated(ss, s.rx.files)
    requires OnlyPackets(steps) && RunGenuine(c, ss, steps) && RunFitsText(c, ss, s, steps)
    requires t != 0 && t in ss.objects && CanCut(ss.objects[t].oti) && Waits(s.rx, t, got)
    requires forall q: Pos :: q !in got ==> LacksPlace(s.rx, t, q)
    ensures FinishedSince(AfterAll(c, ss, s, steps).rx.log, |s.rx.log|, t) <==>
            forall k: nat, j: nat :: HasSymbol(ss.objects[t].oti, k, j) ==> (k, j) in got || ArrivesIn(steps, t, (k, j))
  {
    hide SessionGood, Safe, RunGenuine, RunFitsText, DistinctLocations, Located, HasSymbol, ArrivesIn, FinishedSince,
         AfterAll, OnlyPackets, LacksPlace, Waits;
    if forall k: nat, j: nat :: HasSymbol(ss.objects[t].oti, k, j) ==> (k, j) in got || ArrivesIn(steps, t, (k, j)) {
      TrackedIsFinished(c, ss, s, steps, t, ss.objects[t], got);
    } else {
      var k: nat, j: nat :|
        HasSymbol(ss.objects[t].oti, k, j) && (k, j) !in got && !ArrivesIn(steps, t, (k, j));
      LackingIsNotDelivered(c, ss, s, steps, t, (k, j));
    }
  }

  lemma FinishedStays(log: seq<Observed>, longer: seq<Observed>, n: nat, t: U64)
    requires FinishedSince(log, n, t) && log <= longer
    ensures FinishedSince(longer, n, t)
  {
    hide Finished;
    var i :| n <= i < |log| && Finished(log[i], t);
    assert longer[i] == log[i];
  }

  lemma FinishedLater(log: seq<Observed>, n: nat, m: nat, t: U64)
    requires FinishedSince(log, m, t) && n <= m
    ensures FinishedSince(log, n, t)
  {
    hide Finished;
    var i :| m <= i < |log| && Finished(log[i], t);
    assert n <= i;
  }

  lemma StillToArrive(o: Object, steps: seq<Step>, t: U64, got: set<Pos>)
    requires CanCut(o.oti) && steps != [] && steps[0].Arrives?
    requires forall k: nat, j: nat :: HasSymbol(o.oti, k, j) ==> (k, j) in got || ArrivesIn(steps, t, (k, j))
    ensures forall k: nat, j: nat :: HasSymbol(o.oti, k, j) ==>
              (k, j) in got + PlacesOf(steps[0].packet, t) || ArrivesIn(steps[1..], t, (k, j))
  {
    hide HasSymbol, ArrivesIn, PlacesOf;
    forall k: nat, j: nat | HasSymbol(o.oti, k, j)
      ensures (k, j) in got + PlacesOf(steps[0].packet, t) || ArrivesIn(steps[1..], t, (k, j))
    {
      if (k, j) !in got {
        ArrivesInNext(steps, t, (k, j));
      }
    }
  }

  lemma WaitsIsTracked(r: Rx, t: U64, got: set<Pos>)
    requires Waits(r, t, got)
    ensures t in r.files
  {
  }

  lemma ArrivesInNext(steps: seq<Step>, t: U64, q: Pos)
    requires steps != [] && steps[0].Arrives? && ArrivesIn(steps, t, q)
    ensures q in PlacesOf(steps[0].packet, t) || ArrivesIn(steps[1..], t, q)
  {
    hide PlacesOf;
    var i :| 0 <= i < |steps| && steps[i].Arrives? && q in PlacesOf(steps[i].packet, t);
    if i > 0 {
      assert steps[1..][i - 1] == steps[i];
    }
  }

  // ---------------------------------------------------------------------------------------------
  // Nothing that is listed is forgotten
  // ---------------------------------------------------------------------------------------------

  /** An object is tracked, or was delivered after position `n` of the log. */
  ghost predicate TrackedOrDelivered(r: Rx, n: nat, t: U64) {
    t in r.files || (t != 0 && FinishedSince(r.log, n, t))
  }

  ghost predicate ListsAt(log: seq<Observed>, i: nat, t: U64) {
    i < |log| && log[i].Installed? && ListedIn(log[i].table, t)
  }

  /** Every object listed in an installed table is tracked, or was delivered since. */
  ghost predicate Accounted(r: Rx) {
    forall i: nat, t: U64 :: t != 0 && ListsAt(r.log, i, t) ==> TrackedOrDelivered(r, i, t)
  }

  lemma StaysAccounted(r: Rx, q: Rx, i: nat, t: U64)
    requires r.log <= q.log && TrackedOrDelivered(r, i, t) && t != 0 && i <= |r.log|
    requires Waits(r, t, {}) ==> FinishedSince(q.log, |r.log|, t) || t in q.files
    ensures TrackedOrDelivered(q, i, t)
  {
    hide Finished;
    if t in r.files {
      if FinishedSince(q.log, |r.log|, t) {
        FinishedLater(q.log, i, |r.log|, t);
      }
    } else {
      FinishedStays(r.log, q.log, i, t);
    }
  }

  /** A packet adds at most one entry to the log; what a new table lists is tracked. */
  lemma PacketLists(c: RxConfig, ss: Session, s: Reception, p: Packet)
    requires SessionGood(c, ss) && Safe(c, ss, s) && IsGenuine(c, ss, p) && FitsText(ss, s, p) && c.hasCallback
    ensures var q := AfterPacket(c, ss, s, p).rx;
      && s.rx.log <= q.log && |q.log| <= |s.rx.log| + 1
      && (forall t: U64 :: ListsAt(q.log, |s.rx.log|, t) ==> t in q.files)
  {
    hide SessionGood, Safe, IsGenuine, FitsText, Received, OpenedBy, HeaderOf, ReadAs, Advanced;
    if p.ObjectPacketOf? {
      if p.toi in s.rx.files {
        var g := ObjectPacketEffect(c, ss, s, p);
      } else {
        UntrackedPacketIgnored(c, ss, s, p);
      }
    } else {
      FdtPacketOpens(c, ss, s, p);
      if 0 in OpenedBy(c, s.rx, HeaderOf(c, ss, p)).files {
        var g, n := FdtPacketEffect(c, ss, s, p);
      } else {
        SkippedFdtPacket(c, ss, s, p);
      }
    }
  }

  lemma PacketKeepsAccounted(c: RxConfig, ss: Session, s: Reception, p: Packet)
    requires SessionGood(c, ss) && Safe(c, ss, s) && IsGenuine(c, ss, p) && FitsText(ss, s, p) && c.hasCallback
    requires DistinctLocations(ss) && AllLocated(ss, s.rx.files) && Accounted(s.rx)
    ensures Accounted(AfterPacket(c, ss, s, p).rx)
  {
    hide SessionGood, Safe, IsGenuine, FitsText, AfterPacket, DistinctLocations, Located, Waits, FinishedSince;
    var q := AfterPacket(c, ss, s, p).rx;
    PacketLists(c, ss, s, p);
    forall i: nat, t: U64 | t != 0 && ListsAt(q.log, i, t)
      ensures TrackedOrDelivered(q, i, t)
    {
      if i < |s.rx.log| {
        assert ListsAt(s.rx.log, i, t);
        PacketWaits(c, ss, s, p, t, {});
        if Waits(q, t, {} + PlacesOf(p, t)) {
          WaitsIsTracked(q, t, {} + PlacesOf(p, t));
        }
        StaysAccounted(s.rx, q, i, t);
      }
    }
  }

  lemma {:induction false} RunKeepsAccounted(c: RxConfig, ss: Session, s: Reception, steps: seq<Step>)
    requires SessionGood(c, ss) && Safe(c, ss, s) && c.hasCallback && DistinctLocations(ss)
        && AllLocated(ss, s.rx.files)
    requires OnlyPackets(steps) && RunGenuine(c, ss, steps) && RunFitsText(c, ss, s, steps) && Accounted(s.rx)
    ensures var t := AfterAll(c, ss, s, steps);
      Safe(c, ss, t) && AllLocated(ss, t.rx.files) && Accounted(t.rx)
    decreases |steps|
  {
    hide SessionGood, Safe, IsGenuine, FitsText, AfterPacket, DistinctLocations, Located, Waits, Accounted;
    if steps != [] {
      assert StepGenuine(c, ss, steps[0]);
      StepIsSafe(c, ss, s, steps[0]);
      PacketWaits(c, ss, s, steps[0].packet, 0, {});
      PacketKeepsAccounted(c, ss, s, steps[0].packet);
      RunKeepsAccounted(c, ss, After(c, ss, s, steps[0]), steps[1..]);
    }
  }

  /** A run in two parts. */
  lemma {:induction false} SplitSteps(
    c: RxConfig, ss: Session, s: Reception, before: seq<Step>, after: seq<Step>)
    requires RunGenuine(c, ss, before + after) && RunFitsText(c, ss, s, before + after)
    ensures RunGenuine(c, ss, before) && RunGenuine(c, ss, after) && RunFitsText(c, ss, s, before)
    ensures var mid := AfterAll(c, ss, s, before);
      RunFitsText(c, ss, mid, after) && AfterAll(c, ss, s, before + after) == AfterAll(c, ss, mid, after)
    decreases |before|
  {
    hide StepGenuine, After, FitsText;
    var all := before + after;
    assert forall i :: 0 <= i < |before| ==> all[i] == before[i];
    assert forall i :: 0 <= i < |after| ==> all[|before| + i] == after[i];
    if before == [] {
      assert all == after;
    } else {
      assert all[1..] == before[1..] + after && all[0] == before[0];
      SplitSteps(c, ss, After(c, ss, s, before[0]), before[1..], after);
    }
  }

  /**
   * From a fresh receiver on: once a table that lists an object is installed, and all packets of the object arrive
   * after that, in any order and among any others, the object has been delivered since the installation.
   */
  lemma ListedIsDelivered(c: RxConfig, ss: Session, before: seq<Step>, after: seq<Step>, i: nat, t: U16)
    requires SessionGood(c, ss) && c.hasCallback && DistinctLocations(ss) && t != 0 && t in ss.objects
    requires OnlyPackets(before) && RunGenuine(c, ss, before) && RunFitsText(c, ss, Fresh(ss), before)
    requires var s := AfterAll(c, ss, Fresh(ss), before);
      && OnlyPackets(after) && RunGenuine(c, ss, after) && RunFitsText(c, ss, s, after) && ListsAt(s.rx.log, i, t)
    requires CanCut(ss.objects[t].oti)
    requires forall k: nat, j: nat :: HasSymbol(ss.objects[t].oti, k, j) ==> ArrivesIn(after, t, (k, j))
    ensures FinishedSince(AfterAll(c, ss, AfterAll(c, ss, Fresh(ss), before), after).rx.log, i, t)
  {
    hide SessionGood, RunGenuine, RunFitsText, DistinctLocations, HasSymbol, ArrivesIn, FinishedSince, AfterAll,
         OnlyPackets;
    RunKeepsAccounted(c, ss, Fresh(ss), before);
    var s := AfterAll(c, ss, Fresh(ss), before);
    RunGrowsLog(c, ss, s, after);
    assert TrackedOrDelivered(s.rx, i, t);
    if t in s.rx.files {
      TrackedIsFinished(c, ss, s, after, t, ss.objects[t], {});
      FinishedLater(AfterAll(c, ss, s, after).rx.log, i, |s.rx.log|, t);
    } else {
      FinishedStays(s.rx.log, AfterAll(c, ss, s, after).rx.log, i, t);
    }
  }
}
