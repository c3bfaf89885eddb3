/**
 * The transmitter empties itself: every file it accepts is sent, acknowledged and reported exactly once
 * (src/Transmitter.cpp:711-805).
 */
module Draining {
  import opened Arithmetic
  import opened Bytes
  import opened Flute
  import opened EncodingSymbols
  import opened Files
  import opened Completion
  import opened Conservation
  import opened FdtXml
  import opened FdtObject
  import opened EndToEnd
  import opened Transmitters
  import Base64

  // ---------------------------------------------------------------------------------------------
  // The invariant
  // ---------------------------------------------------------------------------------------------

  /** Every object is a sending file cut for the payload size. */
  ghost predicate ObjectsGood(c: Config, s: Tx) {
    forall h :: 0 <= h < |s.objects| ==> ObjectGood(c, s, s.objects[h])
  }

  ghost predicate ObjectGood(c: Config, s: Tx, f: FileState) {
    Sending(c.md5, f) && f.meta.fecOti.encodingSymbolLength == s.maxPayload
  }

  /** `_files` holds unfinished files under their own TOI. */
  ghost predicate FilesGood(s: Tx) {
    forall t :: t in s.files ==> Unfinished(s, t) && s.objects[s.files[t]].meta.toi == t
  }

  /** No unfinished file other than an FDT has been dropped. */
  ghost predicate Tracked(s: Tx) {
    forall h :: 0 <= h < |s.objects| && s.objects[h].meta.toi != 0 && !s.objects[h].complete ==>
      s.objects[h].meta.toi in s.files && s.files[s.objects[h].meta.toi] == h
  }

  /** A packet in flight carries one queued symbol of its file. */
  ghost predicate IsFlight(s: Tx, f: Flight) {
    f.file < |s.objects| && |f.symbols| == 1 &&
    var file, symbol := s.objects[f.file], f.symbols[0];
    file.Has(symbol.sourceBlockNumber, symbol.id) && file.At(symbol.sourceBlockNumber, symbol.id).queued
    && symbol == SymbolToSend(file, symbol.sourceBlockNumber, symbol.id)
  }

  /** Every queued symbol is in flight, once. */
  ghost predicate FlightsMatch(s: Tx) {
    forall f :: s.inFlight[f] == if IsFlight(s, f) then 1 else 0
  }

  /** The callback was called once for every finished file, and for nothing else. */
  ghost predicate CallbacksMatch(s: Tx) {
    forall h: nat :: multiset(s.callbacks)[h] == if IsFinishedFile(s, h) then 1 else 0
  }

  ghost predicate IsFinishedFile(s: Tx, h: nat) {
    h < |s.objects| && s.objects[h].meta.toi != 0 && s.objects[h].complete
  }

  /** Symbols are as long as the payload, as constructed. */
  ghost predicate SizesMatch(s: Tx) {
    s.fecOti.encodingSymbolLength == s.maxPayload > 4
  }

  ghost predicate Ready(c: Config, s: Tx) {
    SizesMatch(s) && ObjectsGood(c, s) && FilesGood(s) && Tracked(s) && FlightsMatch(s) && CallbacksMatch(s)
  }

  lemma ConstructedIsReady(c: Config, tsi: U64, mtu: U16, tunnelled: bool, ns: FdtNamespace, active: bool)
    requires MaxPayload(mtu, tunnelled) > 4
    ensures Ready(c, Constructed(tsi, mtu, tunnelled, ns, active))
  {
  }

  // ---------------------------------------------------------------------------------------------
  // New objects
  // ---------------------------------------------------------------------------------------------

  /** A new file with nothing queued changes no flight and no callback. */
  ghost predicate Untouched(f: FileState) {
    !f.complete && forall q: Pos :: f.Has(q.0, q.1) ==> !f.At(q.0, q.1).queued
  }

  ghost function Added(s: Tx, f: FileState): Tx {
    s.(objects := s.objects + [f], files := s.files[f.meta.toi := |s.objects|])
  }

  lemma AddedFlights(s: Tx, f: FileState)
    requires FlightsMatch(s) && Untouched(f)
    ensures FlightsMatch(Added(s, f))
  {
    var t := Added(s, f);
    forall g
      ensures t.inFlight[g] == if IsFlight(t, g) then 1 else 0
    {
      assert s.inFlight[g] == if IsFlight(s, g) then 1 else 0;
      if g.file == |s.objects| && |g.symbols| == 1 {
        var q := PosOf(g.symbols[0]);
        assert f.Has(q.0, q.1) ==> !f.At(q.0, q.1).queued;
      }
    }
  }

  lemma AddedCallbacks(s: Tx, f: FileState)
    requires CallbacksMatch(s) && !f.complete
    ensures CallbacksMatch(Added(s, f))
  {
    var t := Added(s, f);
    forall h: nat
      ensures multiset(t.callbacks)[h] == if IsFinishedFile(t, h) then 1 else 0
    {
      assert multiset(s.callbacks)[h] == if IsFinishedFile(s, h) then 1 else 0;
    }
  }

  lemma AddedFiles(s: Tx, f: FileState)
    requires FilesGood(s) && Tracked(s) && !f.complete && (f.meta.toi != 0 ==> f.meta.toi !in s.files)
    ensures FilesGood(Added(s, f)) && Tracked(Added(s, f))
  {
    var t := Added(s, f);
    forall toi | toi in t.files
      ensures Unfinished(t, toi) && t.objects[t.files[toi]].meta.toi == toi
    {
      assert toi != f.meta.toi ==> Unfinished(s, toi);
    }
  }

  lemma AddedObjects(c: Config, s: Tx, f: FileState)
    requires ObjectsGood(c, s) && ObjectGood(c, s, f)
    ensures ObjectsGood(c, Added(s, f))
  {
    var t := Added(s, f);
    forall h | 0 <= h < |t.objects|
      ensures ObjectGood(c, t, t.objects[h])
    {
      assert h < |s.objects| ==> ObjectGood(c, s, s.objects[h]);
    }
  }

  /** Adding an object, known under its TOI or, for an FDT, replacing whatever was known as TOI 0. */
  lemma AddObjectKeepsReady(c: Config, s: Tx, f: FileState)
    requires Ready(c, s) && ObjectGood(c, s, f) && Untouched(f)
    requires f.meta.toi != 0 ==> f.meta.toi !in s.files
    ensures Ready(c, Added(s, f))
  {
    AddedObjects(c, s, f);
    AddedFiles(s, f);
    AddedFlights(s, f);
    AddedCallbacks(s, f);
  }

  /** The text of a table is not empty and within the widths of the source. */
  ghost predicate DocumentSupported(c: Config, oti: CutOti, t: Table) {
    |c.render(ToXml(t))| > 0 && TableSupported(c, oti, t)
  }

  /** So is the text of the table as it would be announced now, if it would be. */
  ghost predicate Announceable(c: Config, oti: CutOti, t: Table, now: U64) {
    t.entries != [] ==> DocumentSupported(c, oti, t.(expires := ExpiryAt(now)))
  }

  lemma NewDataFileIsGood(c: Config, s: Tx, meta: FileEntry, data: seq<Byte>)
    requires Supported(meta.fecOti) && |data| == meta.fecOti.transferLength > 0 && GenuineDigest(c.md5, meta, data)
    requires meta.fecOti.encodingSymbolLength == s.maxPayload
    ensures var f := NewFile(meta, data); ObjectGood(c, s, f) && Untouched(f)
  {
    NewFilePartial(c.md5, meta, data, data);
  }

  lemma OwnDigestIsGenuine(md5: Md5, meta: FileEntry, data: seq<Byte>)
    requires meta.contentMd5 == Base64.Encode(md5(data), false)
    ensures GenuineDigest(md5, meta, data)
  {
    Base64.RoundTrip(md5(data), false);
    assert md5(data)[..16] == md5(data);
  }

  lemma InstanceIdIrrelevant(c: Config, s: Tx, f: FileState, id: U16)
    requires ObjectGood(c, s, f) && Untouched(f)
    ensures ObjectGood(c, s, f.(fdtInstanceId := id)) && Untouched(f.(fdtInstanceId := id))
  {
    var g := f.(fdtInstanceId := id);
    forall q: Pos
      ensures NotBoth(g, q) && (g.Has(q.0, q.1) ==> !g.At(q.0, q.1).queued)
    {
      assert NotBoth(f, q) && (f.Has(q.0, q.1) ==> !f.At(q.0, q.1).queued);
    }
    assert forall k: nat, j: nat :: g.Has(k, j) <==> f.Has(k, j);
  }

  lemma SizeIsExact(oti: FecOti, data: seq<Byte>)
    requires SupportedData(oti, data)
    ensures Supported(Sized(oti, data)) && Sized(oti, data).transferLength == |data|
  {
  }

  lemma FdtFileIsGood(c: Config, s: Tx, t: Table)
    requires SizesMatch(s) && DocumentSupported(c, s.fecOti, t)
    ensures var f := FdtFile(c, s.fecOti, t); ObjectGood(c, s, f) && Untouched(f) && f.meta.toi == 0
  {
    hide ToXml, Layout, Supported, Sending, Untouched, GenuineDigest, Base64.Encode;
    var doc := c.render(ToXml(t));
    var meta := DataEntry(c.md5, 0, s.fecOti, "", "", t.expires, doc);
    SizeIsExact(s.fecOti, doc);
    OwnDigestIsGenuine(c.md5, meta, doc);
    NewDataFileIsGood(c, s, meta, doc);
    InstanceIdIrrelevant(c, s, NewFile(meta, doc), WireId(t));
  }

  /** The table, the TOI counter, the state of activity and the observed announcements play no part. */
  ghost predicate Alike(s: Tx, t: Tx) {
    && t.files == s.files && t.objects == s.objects && t.inFlight == s.inFlight && t.callbacks == s.callbacks
    && t.maxPayload == s.maxPayload && t.fecOti == s.fecOti
  }

  lemma ReadyIgnores(c: Config, s: Tx, t: Tx)
    requires Ready(c, s) && Alike(s, t)
    ensures Ready(c, t)
  {
    forall h | 0 <= h < |t.objects|
      ensures ObjectGood(c, t, t.objects[h])
    {
      assert ObjectGood(c, s, s.objects[h]);
    }
    FlightsIgnore(s, t);
    CallbacksIgnore(s, t);
    forall toi | toi in t.files
      ensures Unfinished(t, toi)
    {
      assert Unfinished(s, toi);
    }
  }

  lemma FlightsIgnore(s: Tx, t: Tx)
    requires FlightsMatch(s) && Alike(s, t)
    ensures FlightsMatch(t)
  {
    forall f
      ensures t.inFlight[f] == if IsFlight(t, f) then 1 else 0
    {
      assert s.inFlight[f] == if IsFlight(s, f) then 1 else 0;
      assert IsFlight(t, f) == IsFlight(s, f);
    }
  }

  lemma CallbacksIgnore(s: Tx, t: Tx)
    requires CallbacksMatch(s) && Alike(s, t)
    ensures CallbacksMatch(t)
  {
    forall h: nat
      ensures multiset(t.callbacks)[h] == if IsFinishedFile(t, h) then 1 else 0
    {
      assert multiset(s.callbacks)[h] == if IsFinishedFile(s, h) then 1 else 0;
      assert IsFinishedFile(t, h) == IsFinishedFile(s, h);
    }
  }

  lemma SendFdtKeepsSettings(c: Config, s: Tx, now: U64)
    ensures var t := SendFdt(c, s, now);
      && t.maxPayload == s.maxPayload && t.fecOti == s.fecOti && t.active == s.active
      && t.callbacks == s.callbacks && t.inFlight == s.inFlight && s.objects <= t.objects
  {
    hide FdtFile, MarkSent, ExpiryAt;
  }

  lemma SendFdtKeepsReady(c: Config, s: Tx, now: U64)
    requires Ready(c, s) && Announceable(c, s.fecOti, s.fdt, now)
    ensures Ready(c, SendFdt(c, s, now))
  {
    if s.fdt.entries != [] {
      var t := s.fdt.(expires := ExpiryAt(now));
      assert DocumentSupported(c, s.fecOti, t);
      FdtFileIsGood(c, s, t);
      var f := FdtFile(c, s.fecOti, t);
      AddObjectKeepsReady(c, s, f);
      ReadyIgnores(c, Added(s, f), SendFdt(c, s, now));
    }
  }

  /** What the drain asks of a new file: not empty, of supported size, and its TOI not in use. */
  ghost predicate Acceptable(s: Tx, data: seq<Byte>) {
    && |data| > 0 && SupportedData(s.fecOti, data)
    && s.nextToi != 0 && s.nextToi !in s.files
  }

  /** `send` inserts the file after the FDT; the other order gives the same state. */
  ghost function SendDataBeforeFdt(
    c: Config, s: Tx, location: string, contentType: string, expires: U32, data: seq<Byte>): Tx
  {
    var meta := DataEntry(c.md5, s.nextToi, s.fecOti, location, contentType, expires, data);
    Added(s, NewFile(meta, data)).(nextToi := NextToi(s.nextToi), fdt := AddEntry(s.fdt, meta))
  }

  lemma SendDataReordered(c: Config, s: Tx, location: string, contentType: string, expires: U32, data: seq<Byte>,
          now: U64)
    requires s.nextToi != 0 && s.nextToi !in s.files
    ensures SendData(c, s, location, contentType, expires, data, now) ==
            SendFdt(c, SendDataBeforeFdt(c, s, location, contentType, expires, data), now)
  {
    hide FdtFile, Layout, MarkSent, ExpiryAt, Base64.Encode;
    var h := |s.objects|;
    assert s.files[0 := h + 1][s.nextToi := h] == s.files[s.nextToi := h][0 := h + 1];
  }

  lemma SendDataBeforeFdtIsReady(c: Config, s: Tx, location: string, contentType: string, expires: U32, data: seq<Byte>)
    requires Ready(c, s) && Acceptable(s, data)
    ensures Ready(c, SendDataBeforeFdt(c, s, location, contentType, expires, data))
  {
    var meta := DataEntry(c.md5, s.nextToi, s.fecOti, location, contentType, expires, data);
    OwnDigestIsGenuine(c.md5, meta, data);
    NewDataFileIsGood(c, s, meta, data);
    AddObjectKeepsReady(c, s, NewFile(meta, data));
    ReadyIgnores(c, Added(s, NewFile(meta, data)), SendDataBeforeFdt(c, s, location, contentType, expires, data));
  }

  lemma SendDataKeepsReady(
    c: Config, s: Tx, location: string, contentType: string, expires: U32, data: seq<Byte>, now: U64)
    requires Ready(c, s) && Acceptable(s, data)
    requires Announceable(c, s.fecOti, AddEntry(s.fdt, DataFile(c, s, location, contentType, expires, data).meta), now)
    ensures Ready(c, SendData(c, s, location, contentType, expires, data, now))
  {
    SendDataReordered(c, s, location, contentType, expires, data, now);
    SendDataBeforeFdtIsReady(c, s, location, contentType, expires, data);
    SendFdtKeepsReady(c, SendDataBeforeFdt(c, s, location, contentType, expires, data), now);
  }

  // ---------------------------------------------------------------------------------------------
  // One object changes
  // ---------------------------------------------------------------------------------------------

  /** `g` is `f` up to the flags of the symbol at `p` and the flags above it. */
  ghost predicate ChangedAt(f: FileState, g: FileState, p: Pos) {
    && g.meta == f.meta && g.buffer == f.buffer && f.Has(p.0, p.1)
    && forall q: Pos :: SameBut(f, g, p, q)
  }

  ghost predicate SameBut(f: FileState, g: FileState, p: Pos, q: Pos) {
    && (g.Has(q.0, q.1) <==> f.Has(q.0, q.1))
    && (f.Has(q.0, q.1) ==>
          && (q != p ==> g.At(q.0, q.1) == f.At(q.0, q.1))
          && g.At(q.0, q.1).offset == f.At(q.0, q.1).offset && g.At(q.0, q.1).length == f.At(q.0, q.1).length)
  }

  ghost function TheFlight(s: Tx, h: nat, p: Pos): Flight
    requires h < |s.objects| && s.objects[h].Has(p.0, p.1)
  {
    Flight(h, [SymbolToSend(s.objects[h], p.0, p.1)])
  }

  lemma FlightAfter(s: Tx, t: Tx, h: nat, g: FileState, p: Pos, f: Flight)
    requires h < |s.objects| && ChangedAt(s.objects[h], g, p) && t.objects == s.objects[h := g]
    ensures f != TheFlight(s, h, p) ==> (IsFlight(t, f) <==> IsFlight(s, f))
    ensures g.Has(p.0, p.1)
    ensures f == TheFlight(s, h, p) ==> (IsFlight(t, f) <==> g.At(p.0, p.1).queued)
    ensures f == TheFlight(s, h, p) ==> (IsFlight(s, f) <==> s.objects[h].At(p.0, p.1).queued)
  {
    assert SameBut(s.objects[h], g, p, p);
    if f.file == h && |f.symbols| == 1 {
      var q := PosOf(f.symbols[0]);
      assert SameBut(s.objects[h], g, p, q);
      assert f.symbols == [f.symbols[0]];
    }
  }

  /** Flights keep matching when the symbol's packet comes or goes with its queued flag. */
  lemma FlightsFollow(s: Tx, t: Tx, h: nat, g: FileState, p: Pos)
    requires FlightsMatch(s) && h < |s.objects| && ChangedAt(s.objects[h], g, p) && t.objects == s.objects[h := g]
    requires g.Has(p.0, p.1)
    requires if g.At(p.0, p.1).queued
             then !s.objects[h].At(p.0, p.1).queued && t.inFlight == s.inFlight + multiset{TheFlight(s, h, p)}
             else s.objects[h].At(p.0, p.1).queued && t.inFlight == s.inFlight - multiset{TheFlight(s, h, p)}
    ensures FlightsMatch(t)
  {
    forall f
      ensures t.inFlight[f] == if IsFlight(t, f) then 1 else 0
    {
      FlightAfter(s, t, h, g, p, f);
      assert s.inFlight[f] == if IsFlight(s, f) then 1 else 0;
    }
  }

  // ---------------------------------------------------------------------------------------------
  // The send tick
  // ---------------------------------------------------------------------------------------------

  lemma NextOneSymbol(f: FileState)
    ensures IdleFrom(f.blocks, 0, 0).None? ==> NextBatch(f, 1) == (f, [])
    ensures IdleFrom(f.blocks, 0, 0).Some? ==>
              var (k, j) := IdleFrom(f.blocks, 0, 0).value;
              IdleAt(f, (k, j)) && NextBatch(f, 1) == (Queue(f, k, j), [SymbolToSend(f, k, j)])
  {
    IdleFromExists(f.blocks, 0, 0);
    if IdleFrom(f.blocks, 0, 0).Some? {
      var (k, j) := IdleFrom(f.blocks, 0, 0).value;
      assert NextBatch(Queue(f, k, j), 0) == (Queue(f, k, j), []);
      assert [SymbolToSend(f, k, j)] + [] == [SymbolToSend(f, k, j)];
    }
  }

  lemma QueueChangesAt(f: FileState, k: nat, j: nat)
    requires f.Has(k, j)
    ensures ChangedAt(f, Queue(f, k, j), (k, j)) && Queue(f, k, j).At(k, j).queued
    ensures Queue(f, k, j).complete == f.complete
  {
    forall q: Pos
      ensures SameBut(f, Queue(f, k, j), (k, j), q)
    {
      QueueAt(f, k, j, q);
    }
  }

  /** The send tick: nothing, or the first idle symbol of the lowest unfinished TOI becomes a flight. */
  lemma SendTickShape(c: Config, s: Tx)
    requires Ready(c, s)
    ensures NextFlight(s).None? ==> SendTick(s) == s
    ensures NextFlight(s).Some? ==>
              var f := NextFlight(s).value;
              && f.file < |s.objects| && IdleFrom(s.objects[f.file].blocks, 0, 0).Some?
              && var p := IdleFrom(s.objects[f.file].blocks, 0, 0).value;
              && IdleAt(s.objects[f.file], p) && f == TheFlight(s, f.file, p)
              && Least(UnfinishedTois(s)) in s.files && f.file == s.files[Least(UnfinishedTois(s))]
              && SendTick(s) == s.(objects := s.objects[f.file := Queue(s.objects[f.file], p.0, p.1)],
                                   inFlight := s.inFlight + multiset{f})
  {
    if NextFlight(s).Some? {
      var h := s.files[Least(UnfinishedTois(s))];
      assert ObjectGood(c, s, s.objects[h]);
      ConstructedSizeCarriesOne(s.maxPayload, EncodingSymbol(0, 0, []));
      assert RequestedIn(s, h) == 1;
      NextOneSymbol(s.objects[h]);
    }
  }

  lemma ReplacedKeepsObjects(c: Config, s: Tx, t: Tx, h: nat, g: FileState)
    requires ObjectsGood(c, s) && h < |s.objects| && t.objects == s.objects[h := g] && t.maxPayload == s.maxPayload
    requires ObjectGood(c, s, g)
    ensures ObjectsGood(c, t)
  {
    hide Sending;
    forall i | 0 <= i < |t.objects|
      ensures ObjectGood(c, t, t.objects[i])
    {
      assert ObjectGood(c, s, if i == h then g else s.objects[i]);
    }
  }

  /** A file changes without finishing. */
  lemma ReplacedKeepsFiles(c: Config, s: Tx, t: Tx, h: nat, g: FileState)
    requires ObjectsGood(c, s) && FilesGood(s) && Tracked(s) && h < |s.objects|
    requires t.objects == s.objects[h := g] && t.files == s.files && t.maxPayload == s.maxPayload
    requires g.meta == s.objects[h].meta && g.complete == s.objects[h].complete && ObjectGood(c, s, g)
    ensures ObjectsGood(c, t) && FilesGood(t) && Tracked(t)
  {
    hide ObjectsGood, ObjectGood;
    ReplacedKeepsObjects(c, s, t, h, g);
    forall toi | toi in t.files
      ensures Unfinished(t, toi) && t.objects[t.files[toi]].meta.toi == toi
    {
      assert Unfinished(s, toi);
    }
  }

  lemma SendTickKeepsReady(c: Config, s: Tx)
    requires Ready(c, s)
    ensures Ready(c, SendTick(s))
  {
    SendTickShape(c, s);
    if NextFlight(s).Some? {
      var f := NextFlight(s).value;
      QueuedIsReady(c, s, f.file, IdleFrom(s.objects[f.file].blocks, 0, 0).value);
    }
  }

  lemma QueuedIsReady(c: Config, s: Tx, h: nat, p: Pos)
    requires Ready(c, s) && h < |s.objects| && IdleAt(s.objects[h], p)
    ensures Ready(c, s.(objects := s.objects[h := Queue(s.objects[h], p.0, p.1)],
                        inFlight := s.inFlight + multiset{TheFlight(s, h, p)}))
  {
    var file := s.objects[h];
    var g := Queue(file, p.0, p.1);
    var t := s.(objects := s.objects[h := g], inFlight := s.inFlight + multiset{TheFlight(s, h, p)});
    assert ObjectGood(c, s, file);
    QueueKeepsSending(c.md5, file, p.0, p.1);
    QueueChangesAt(file, p.0, p.1);
    ReplacedKeepsFiles(c, s, t, h, g);
    FlightsFollow(s, t, h, g, p);
    SameFinished(s, t);
  }

  /** Callbacks keep matching while no file finishes. */
  lemma SameFinished(s: Tx, t: Tx)
    requires CallbacksMatch(s) && t.callbacks == s.callbacks && |t.objects| == |s.objects|
    requires forall h :: 0 <= h < |s.objects| ==>
               t.objects[h].meta == s.objects[h].meta && t.objects[h].complete == s.objects[h].complete
    ensures CallbacksMatch(t)
  {
    forall h: nat
      ensures multiset(t.callbacks)[h] == if IsFinishedFile(t, h) then 1 else 0
    {
      assert multiset(s.callbacks)[h] == if IsFinishedFile(s, h) then 1 else 0;
    }
  }

  // ---------------------------------------------------------------------------------------------
  // Acknowledgements
  // ---------------------------------------------------------------------------------------------

  /** The file of an acknowledged packet: its symbol goes from queued to complete. */
  lemma AcknowledgedFile(c: Config, s: Tx, f: Flight)
    requires Ready(c, s) && f in s.inFlight
    ensures IsFlight(s, f)
    ensures var file, p := s.objects[f.file], PosOf(f.symbols[0]);
      var g := MarkCompleted(c.md5, file, f.symbols, true).state;
      && MarkCompleted(c.md5, file, f.symbols, true).Returned? && f == TheFlight(s, f.file, p)
      && !file.complete && Sending(c.md5, g) && ChangedAt(file, g, p) && file.At(p.0, p.1).queued
      && !file.At(p.0, p.1).complete
      && g.Has(p.0, p.1) && !g.At(p.0, p.1).queued && g.At(p.0, p.1).complete
      && g.blocks == Updated(file, p.0, p.1, file.At(p.0, p.1).(queued := false, complete := true)).blocks
  {
    assert s.inFlight[f] == if IsFlight(s, f) then 1 else 0;
    var file, symbol := s.objects[f.file], f.symbols[0];
    var p := PosOf(symbol);
    assert ObjectGood(c, s, file);
    assert f.symbols == [symbol];
    assert NotBoth(file, p);
    CompleteMeansAllSymbols(c.md5, file);
    MarkOneMarks(c.md5, file, symbol, true);
    var g := MarkOne(c.md5, file, symbol, true).state;
    assert f.symbols[1..] == [];
    assert MarkCompleted(c.md5, g, [], true) == Returned(g);
    assert MarkCompleted(c.md5, file, f.symbols, true) == Returned(g);
    forall q: Pos
      ensures SameBut(file, g, p, q)
    {
      assert MarkedAt(file, g, p, true, q);
    }
    assert MarkedAt(file, g, p, true, p);
  }

  /** The state between marking the symbol and dropping a finished file. */
  ghost function Marked(c: Config, s: Tx, f: Flight): Tx
    requires f.file < |s.objects|
  {
    s.(inFlight := s.inFlight - multiset{f},
       objects := s.objects[f.file := MarkCompleted(c.md5, s.objects[f.file], f.symbols, true).state])
  }

  lemma MarkedUnfinishedIsReady(c: Config, s: Tx, f: Flight)
    requires Ready(c, s) && f in s.inFlight
    requires IsFlight(s, f) && !Marked(c, s, f).objects[f.file].complete
    ensures Ready(c, Marked(c, s, f))
  {
    AcknowledgedFile(c, s, f);
    var t := Marked(c, s, f);
    assert ObjectGood(c, s, s.objects[f.file]);
    ReplacedKeepsFiles(c, s, t, f.file, t.objects[f.file]);
    FlightsFollow(s, t, f.file, t.objects[f.file], PosOf(f.symbols[0]));
    SameFinished(s, t);
  }

  /** A file finishes and is dropped. */
  lemma FinishedKeepsFiles(c: Config, s: Tx, t: Tx, h: nat, g: FileState)
    requires ObjectsGood(c, s) && FilesGood(s) && Tracked(s) && h < |s.objects|
    requires t.objects == s.objects[h := g] && t.files == s.files - {g.meta.toi} && t.maxPayload == s.maxPayload
    requires g.meta == s.objects[h].meta && g.complete && !s.objects[h].complete && ObjectGood(c, s, g)
    ensures ObjectsGood(c, t) && FilesGood(t) && Tracked(t)
  {
    hide ObjectsGood, ObjectGood;
    ReplacedKeepsObjects(c, s, t, h, g);
    forall toi | toi in t.files
      ensures Unfinished(t, toi) && t.objects[t.files[toi]].meta.toi == toi
    {
      assert Unfinished(s, toi);
    }
  }

  /** A finished file is dropped, and its callback is due unless it is an FDT. */
  lemma MarkedFinishedIsReady(c: Config, s: Tx, f: Flight)
    requires Ready(c, s) && f in s.inFlight
    requires IsFlight(s, f) && Marked(c, s, f).objects[f.file].complete
    ensures Ready(c, Dropped(c, s, f))
  {
    AcknowledgedFile(c, s, f);
    var r := Dropped(c, s, f);
    assert ObjectGood(c, s, s.objects[f.file]);
    FinishedKeepsFiles(c, s, r, f.file, r.objects[f.file]);
    FlightsFollow(s, r, f.file, r.objects[f.file], PosOf(f.symbols[0]));
    FinishedCallback(s, r, f.file);
  }

  lemma FinishedCallback(s: Tx, r: Tx, h: nat)
    requires CallbacksMatch(s) && h < |s.objects| == |r.objects|
    requires r.objects == s.objects[h := r.objects[h]] && r.objects[h].meta == s.objects[h].meta
    requires !s.objects[h].complete && r.objects[h].complete
    requires r.callbacks == if s.objects[h].meta.toi == 0 then s.callbacks else s.callbacks + [h]
    ensures CallbacksMatch(r)
  {
    forall i: nat
      ensures multiset(r.callbacks)[i] == if IsFinishedFile(r, i) then 1 else 0
    {
      assert multiset(s.callbacks)[i] == if IsFinishedFile(s, i) then 1 else 0;
    }
  }

  /** The state after a finished file is dropped and reported, before the FDT is sent again. */
  ghost function Dropped(c: Config, s: Tx, f: Flight): Tx
    requires f.file < |s.objects|
  {
    var t, toi := Marked(c, s, f), s.objects[f.file].meta.toi;
    t.(files := t.files - {toi}, callbacks := if toi == 0 then t.callbacks else t.callbacks + [f.file])
  }

  lemma AcknowledgeShape(c: Config, s: Tx, f: Flight, now: U64)
    requires f.file < |s.objects|
    requires var r := MarkCompleted(c.md5, s.objects[f.file], f.symbols, true);
      r.Returned? && r.state.meta == s.objects[f.file].meta
    ensures Acknowledge(c, s, f, now) ==
            if !Marked(c, s, f).objects[f.file].complete then Marked(c, s, f)
            else if s.objects[f.file].meta.toi == 0 then Dropped(c, s, f)
            else SendFdt(c, Dropped(c, s, f).(fdt := RemoveEntry(s.fdt, s.objects[f.file].meta.toi)), now)
  {
  }

  /** If the acknowledgement finishes a file, the table without it can be announced. */
  ghost predicate AckAnnounceable(c: Config, s: Tx, f: Flight, now: U64) {
    f.file < |s.objects| && Marked(c, s, f).objects[f.file].complete && s.objects[f.file].meta.toi != 0 ==>
      Announceable(c, s.fecOti, RemoveEntry(s.fdt, s.objects[f.file].meta.toi), now)
  }

  lemma AcknowledgeKeepsReady(c: Config, s: Tx, f: Flight, now: U64)
    requires Ready(c, s) && f in s.inFlight && AckAnnounceable(c, s, f, now)
    ensures Ready(c, Acknowledge(c, s, f, now))
  {
    AcknowledgedFile(c, s, f);
    AcknowledgeShape(c, s, f, now);
    if !Marked(c, s, f).objects[f.file].complete {
      MarkedUnfinishedIsReady(c, s, f);
    } else {
      MarkedFinishedIsReady(c, s, f);
      if s.objects[f.file].meta.toi != 0 {
        DroppedThenSent(c, s, f, now);
      }
    }
  }

  lemma DroppedThenSent(c: Config, s: Tx, f: Flight, now: U64)
    requires f.file < |s.objects| && Ready(c, Dropped(c, s, f))
    requires Announceable(c, s.fecOti, RemoveEntry(s.fdt, s.objects[f.file].meta.toi), now)
    ensures Ready(c, SendFdt(c, Dropped(c, s, f).(fdt := RemoveEntry(s.fdt, s.objects[f.file].meta.toi)), now))
  {
    var removed := Dropped(c, s, f).(fdt := RemoveEntry(s.fdt, s.objects[f.file].meta.toi));
    ReadyIgnores(c, Dropped(c, s, f), removed);
    SendFdtKeepsReady(c, removed, now);
  }

  // ---------------------------------------------------------------------------------------------
  // The measure
  // ---------------------------------------------------------------------------------------------

  function Total(w: seq<nat>): nat {
    if w == [] then 0 else w[0] + Total(w[1..])
  }

  lemma {:induction false} TotalUpdate(w: seq<nat>, h: nat, v: nat)
    requires h < |w|
    ensures Total(w[h := v]) + w[h] == Total(w) + v
  {
    if h > 0 {
      assert w[h := v][1..] == w[1..][h - 1 := v];
      TotalUpdate(w[1..], h - 1, v);
    } else {
      assert w[0 := v][1..] == w[1..];
    }
  }

  lemma {:induction false} TotalAtMost(w: seq<nat>, v: seq<nat>)
    requires |w| == |v| && forall h :: 0 <= h < |w| ==> w[h] <= v[h]
    ensures Total(w) <= Total(v)
  {
    if w != [] {
      TotalAtMost(w[1..], v[1..]);
    }
  }

  lemma {:induction false} TotalAppend(w: seq<nat>, v: nat)
    ensures Total(w + [v]) == Total(w) + v
  {
    if w == [] {
      assert [v][1..] == [];
    } else {
      assert (w + [v])[1..] == w[1..] + [v];
      TotalAppend(w[1..], v);
    }
  }

  /** Two moves are left for an idle symbol, one for a queued one. */
  const PENDING: Symbol -> nat := (s: Symbol) => if s.complete then 0 else if s.queued then 1 else 2

  /** The moves left for the symbols of a file; an FDT counts elsewhere. */
  function FileWeight(f: FileState): nat {
    if f.meta.toi == 0 then 0 else SumBlocks(f.blocks, PENDING)
  }

  /** The moves left for an FDT: one that was replaced only has its packets in flight. */
  function FdtWeight(f: FileState, current: bool): nat {
    if f.meta.toi != 0 then 0
    else if current then SumBlocks(f.blocks, PENDING)
    else SumBlocks(f.blocks, QUEUED)
  }

  predicate IsCurrentFdt(files: map<U32, nat>, h: nat) {
    0 in files && files[0] == h
  }

  function FileWeights(s: Tx): (r: seq<nat>)
    ensures |r| == |s.objects|
  {
    seq(|s.objects|, h requires 0 <= h < |s.objects| => FileWeight(s.objects[h]))
  }

  function FdtWeights(s: Tx): (r: seq<nat>)
    ensures |r| == |s.objects|
  {
    seq(|s.objects|, h requires 0 <= h < |s.objects| => FdtWeight(s.objects[h], IsCurrentFdt(s.files, h)))
  }

  /** Outstanding file symbols first, outstanding FDT symbols second. */
  ghost predicate Closer(s: Tx, t: Tx) {
    || Total(FileWeights(t)) < Total(FileWeights(s))
    || (Total(FileWeights(t)) == Total(FileWeights(s)) && Total(FdtWeights(t)) < Total(FdtWeights(s)))
  }

  lemma {:induction false} QueuedAtMostPending(blocks: seq<SourceBlock>)
    requires forall k, j :: 0 <= k < |blocks| && 0 <= j < |blocks[k].symbols| ==>
               !(blocks[k].symbols[j].queued && blocks[k].symbols[j].complete)
    ensures SumBlocks(blocks, QUEUED) <= SumBlocks(blocks, PENDING)
  {
    if blocks != [] {
      QueuedAtMostPendingInBlock(blocks[0].symbols);
      forall k, j | 0 <= k < |blocks[1..]| && 0 <= j < |blocks[1..][k].symbols|
        ensures !(blocks[1..][k].symbols[j].queued && blocks[1..][k].symbols[j].complete)
      {
        assert blocks[1..][k] == blocks[k + 1];
      }
      QueuedAtMostPending(blocks[1..]);
    }
  }

  lemma {:induction false} QueuedAtMostPendingInBlock(symbols: seq<Symbol>)
    requires forall j :: 0 <= j < |symbols| ==> !(symbols[j].queued && symbols[j].complete)
    ensures SumSymbols(symbols, QUEUED) <= SumSymbols(symbols, PENDING)
  {
    if symbols != [] {
      QueuedAtMostPendingInBlock(symbols[1..]);
    }
  }

  /** One move on a file: its pending weight drops by one. */
  ghost predicate OneLess(f: FileState, g: FileState, current: bool) {
    && g.meta == f.meta
    && SumBlocks(g.blocks, PENDING) + 1 == SumBlocks(f.blocks, PENDING)
    && (current || SumBlocks(g.blocks, QUEUED) + 1 == SumBlocks(f.blocks, QUEUED))
  }

  lemma QueueIsOneLess(f: FileState, p: Pos)
    requires IdleAt(f, p)
    ensures OneLess(f, Queue(f, p.0, p.1), true)
  {
    var s := f.At(p.0, p.1).(queued := true);
    SumBlocksUpdate(f.blocks, PENDING, p.0, p.1, f.blocks[p.0].(symbols := f.blocks[p.0].symbols[p.1 := s]), s);
  }

  lemma MarkIsOneLess(f: FileState, g: FileState, p: Pos)
    requires f.Has(p.0, p.1) && f.At(p.0, p.1).queued && !f.At(p.0, p.1).complete && g.meta == f.meta
    requires g.blocks == Updated(f, p.0, p.1, f.At(p.0, p.1).(queued := false, complete := true)).blocks
    ensures OneLess(f, g, false) && OneLess(f, g, true)
  {
    var s := f.At(p.0, p.1).(queued := false, complete := true);
    var b := CheckBlock(f.blocks[p.0].(symbols := f.blocks[p.0].symbols[p.1 := s]));
    SumBlocksUpdate(f.blocks, PENDING, p.0, p.1, b, s);
    SumBlocksUpdate(f.blocks, QUEUED, p.0, p.1, b, s);
  }

  /** A move on one object brings the transmitter closer, whether the object is a file or an FDT. */
  lemma OneLessIsCloser(s: Tx, t: Tx, h: nat, g: FileState)
    requires h < |s.objects| && t.objects == s.objects[h := g] && t.files == s.files
    requires OneLess(s.objects[h], g, IsCurrentFdt(s.files, h) || s.objects[h].meta.toi != 0)
    ensures Closer(s, t)
    ensures s.objects[h].meta.toi != 0 ==> Total(FileWeights(t)) < Total(FileWeights(s))
  {
    assert FileWeights(t) == FileWeights(s)[h := FileWeight(g)];
    assert FdtWeights(t) == FdtWeights(s)[h := FdtWeight(g, IsCurrentFdt(s.files, h))];
    TotalUpdate(FileWeights(s), h, FileWeight(g));
    TotalUpdate(FdtWeights(s), h, FdtWeight(g, IsCurrentFdt(s.files, h)));
  }

  /** Dropping a key makes no FDT weigh more. */
  lemma DroppingIsNoFarther(c: Config, s: Tx, t: Tx, toi: U32)
    requires ObjectsGood(c, s) && t.objects == s.objects && t.files == s.files - {toi}
    ensures FileWeights(t) == FileWeights(s) && Total(FdtWeights(t)) <= Total(FdtWeights(s))
  {
    forall h | 0 <= h < |s.objects|
      ensures FdtWeights(t)[h] <= FdtWeights(s)[h]
    {
      var f := s.objects[h];
      assert ObjectGood(c, s, f);
      forall k, j | 0 <= k < |f.blocks| && 0 <= j < |f.blocks[k].symbols|
        ensures !(f.blocks[k].symbols[j].queued && f.blocks[k].symbols[j].complete)
      {
        assert NotBoth(f, (k, j));
      }
      QueuedAtMostPending(f.blocks);
    }
    TotalAtMost(FdtWeights(t), FdtWeights(s));
  }

  /** Sending the FDT again adds no file symbols. */
  lemma FdtAddsNoFileWeight(c: Config, s: Tx, now: U64)
    ensures Total(FileWeights(SendFdt(c, s, now))) == Total(FileWeights(s))
  {
    if s.fdt.entries != [] {
      var f := FdtFile(c, s.fecOti, s.fdt.(expires := ExpiryAt(now)));
      assert FileWeights(SendFdt(c, s, now)) == FileWeights(s) + [0];
      TotalAppend(FileWeights(s), 0);
    }
  }

  // ---------------------------------------------------------------------------------------------
  // Every move brings the transmitter closer to being empty
  // ---------------------------------------------------------------------------------------------

  /** The moves of a transmitter that is left alone: no new files, no timer ticks, no failed sends. */
  datatype Move = Sent | Acked(flight: Flight, now: U64)

  ghost predicate CanMove(c: Config, s: Tx, m: Move)
    requires s.maxPayload >= 4
  {
    match m
    case Sent => NextFlight(s).Some?
    case Acked(f, now) => f in s.inFlight && AckAnnounceable(c, s, f, now)
  }

  function MoveOn(c: Config, s: Tx, m: Move): Tx
    requires s.maxPayload >= 4
  {
    match m
    case Sent => SendTick(s)
    case Acked(f, now) => Acknowledge(c, s, f, now)
  }

  lemma SentIsCloser(c: Config, s: Tx)
    requires Ready(c, s) && NextFlight(s).Some?
    ensures Closer(s, SendTick(s))
  {
    SendTickShape(c, s);
    var f := NextFlight(s).value;
    var p := IdleFrom(s.objects[f.file].blocks, 0, 0).value;
    QueueIsOneLess(s.objects[f.file], p);
    assert Unfinished(s, Least(UnfinishedTois(s)));
    OneLessIsCloser(s, SendTick(s), f.file, Queue(s.objects[f.file], p.0, p.1));
  }

  lemma MarkedIsCloser(c: Config, s: Tx, f: Flight)
    requires Ready(c, s) && f in s.inFlight
    ensures f.file < |s.objects| && Closer(s, Marked(c, s, f))
    ensures s.objects[f.file].meta.toi != 0 ==> Total(FileWeights(Marked(c, s, f))) < Total(FileWeights(s))
    ensures ObjectsGood(c, Marked(c, s, f))
    ensures var r := MarkCompleted(c.md5, s.objects[f.file], f.symbols, true);
      r.Returned? && r.state.meta == s.objects[f.file].meta
  {
    AcknowledgedFile(c, s, f);
    var t := Marked(c, s, f);
    MarkIsOneLess(s.objects[f.file], t.objects[f.file], PosOf(f.symbols[0]));
    OneLessIsCloser(s, t, f.file, t.objects[f.file]);
    forall i | 0 <= i < |t.objects|
      ensures ObjectGood(c, t, t.objects[i])
    {
      assert ObjectGood(c, s, s.objects[i]);
    }
  }

  lemma AckedIsCloser(c: Config, s: Tx, f: Flight, now: U64)
    requires Ready(c, s) && f in s.inFlight
    ensures Closer(s, Acknowledge(c, s, f, now))
  {
    MarkedIsCloser(c, s, f);
    AcknowledgeShape(c, s, f, now);
    var t, toi := Marked(c, s, f), s.objects[f.file].meta.toi;
    if t.objects[f.file].complete {
      DroppingIsNoFarther(c, t, Dropped(c, s, f), toi);
      FdtAddsNoFileWeight(c, Dropped(c, s, f).(fdt := RemoveEntry(s.fdt, toi)), now);
    }
  }

  /**
   * Every move strictly decreases (outstanding file symbols, outstanding FDT symbols), although every finished
   * file queues another FDT.
   */
  lemma MoveIsCloser(c: Config, s: Tx, m: Move)
    requires Ready(c, s) && CanMove(c, s, m)
    ensures Ready(c, MoveOn(c, s, m)) && Closer(s, MoveOn(c, s, m))
  {
    match m {
      case Sent =>
        SendTickKeepsReady(c, s);
        SentIsCloser(c, s);
      case Acked(f, now) =>
        AcknowledgeKeepsReady(c, s, f, now);
        AckedIsCloser(c, s, f, now);
    }
  }

  /** An unfinished file has a symbol in flight or one to send. */
  lemma UnfinishedHasWork(md5: Md5, f: FileState) returns (p: Pos)
    requires Sending(md5, f) && !f.complete
    ensures f.Has(p.0, p.1) && (f.At(p.0, p.1).queued || IdleAt(f, p))
  {
    CompleteMeansAllSymbols(md5, f);
    var k: nat, j: nat :| f.Has(k, j) && !f.At(k, j).complete;
    p := (k, j);
    assert f.blocks[k].complete == SymbolsComplete(f.blocks[k]);
  }

  lemma IdleMeansNextFlight(c: Config, s: Tx, p: Pos)
    requires Ready(c, s) && s.active && UnfinishedTois(s) != {}
    requires var h := s.files[Least(UnfinishedTois(s))]; h < |s.objects| && IdleAt(s.objects[h], p)
    ensures NextFlight(s).Some?
  {
    var h := s.files[Least(UnfinishedTois(s))];
    assert ObjectGood(c, s, s.objects[h]);
    IdleFromIsFirst(s.objects[h], 0, 0);
    ConstructedSizeCarriesOne(s.maxPayload, EncodingSymbol(0, 0, []));
    assert RequestedIn(s, h) == 1;
    NextOneSymbol(s.objects[h]);
  }

  /** While a file is known, something can move: there is no deadlock. */
  lemma UnfinishedCanMove(c: Config, s: Tx)
    requires Ready(c, s) && s.active && s.files != map[]
    ensures NextFlight(s).Some? || s.inFlight != multiset{}
  {
    var toi :| toi in s.files;
    assert Unfinished(s, toi) && toi in UnfinishedTois(s);
    var h := s.files[Least(UnfinishedTois(s))];
    assert Unfinished(s, Least(UnfinishedTois(s))) && ObjectGood(c, s, s.objects[h]);
    var p := UnfinishedHasWork(c.md5, s.objects[h]);
    if s.objects[h].At(p.0, p.1).queued {
      assert IsFlight(s, TheFlight(s, h, p));
      assert s.inFlight[TheFlight(s, h, p)] == 1;
    } else {
      IdleMeansNextFlight(c, s, p);
    }
  }

  // ---------------------------------------------------------------------------------------------
  // The drain
  // ---------------------------------------------------------------------------------------------

  ghost predicate MovesPossible(c: Config, s: Tx, moves: seq<Move>)
    requires s.maxPayload >= 4
    decreases |moves|
  {
    moves != [] ==>
      && CanMove(c, s, moves[0]) && MoveOn(c, s, moves[0]).maxPayload >= 4
      && MovesPossible(c, MoveOn(c, s, moves[0]), moves[1..])
  }

  ghost function AfterMoves(c: Config, s: Tx, moves: seq<Move>): Tx
    requires s.maxPayload >= 4 && MovesPossible(c, s, moves)
    decreases |moves|
  {
    if moves == [] then s else AfterMoves(c, MoveOn(c, s, moves[0]), moves[1..])
  }

  lemma MoveKeepsSettings(c: Config, s: Tx, m: Move)
    requires s.maxPayload >= 4
    ensures var t := MoveOn(c, s, m);
      t.maxPayload == s.maxPayload && t.fecOti == s.fecOti && t.active == s.active && |t.objects| >= |s.objects|
  {
    if m.Acked? {
      AcknowledgeKeepsSettings(c, s, m.flight, m.now);
    } else {
      hide NextBatch, NextFlight;
    }
  }

  lemma AcknowledgeKeepsSettings(c: Config, s: Tx, f: Flight, now: U64)
    ensures var t := Acknowledge(c, s, f, now);
      t.maxPayload == s.maxPayload && t.fecOti == s.fecOti && t.active == s.active && |t.objects| >= |s.objects|
  {
    hide SendFdt, MarkCompleted;
    if f.file < |s.objects| {
      var file := MarkCompleted(c.md5, s.objects[f.file], f.symbols, true).state;
      var s2 := s.(inFlight := s.inFlight - multiset{f}, objects := s.objects[f.file := file]);
      var toi := file.meta.toi;
      SendFdtKeepsSettings(c, s2.(files := s2.files - {toi}, fdt := RemoveEntry(s2.fdt, toi)), now);
    }
  }

  /**
   * Left alone, an active transmitter drains: no run of moves can go on for ever (MoveIsCloser), and where a run
   * cannot go on, `_files` is empty, every file ever accepted is complete, and the callback was called exactly
   * once for each of them and for nothing else.
   */
  lemma {:induction false} RunsDrain(c: Config, s: Tx, moves: seq<Move>)
    requires Ready(c, s) && s.active && MovesPossible(c, s, moves)
    ensures var t := AfterMoves(c, s, moves);
      && Ready(c, t)
      && (NextFlight(t).None? && t.inFlight == multiset{} ==>
            && t.files == map[]
            && (forall h :: 0 <= h < |t.objects| && t.objects[h].meta.toi != 0 ==> t.objects[h].complete)
            && (forall h: nat :: multiset(t.callbacks)[h] ==
                  if h < |t.objects| && t.objects[h].meta.toi != 0 then 1 else 0))
    decreases |moves|
  {
    if moves == [] {
      if NextFlight(s).None? && s.inFlight == multiset{} {
        if s.files != map[] {
          UnfinishedCanMove(c, s);
        }
        forall h: nat
          ensures multiset(s.callbacks)[h] == if h < |s.objects| && s.objects[h].meta.toi != 0 then 1 else 0
        {
          assert multiset(s.callbacks)[h] == if IsFinishedFile(s, h) then 1 else 0;
        }
      }
    } else {
      MoveIsCloser(c, s, moves[0]);
      MoveKeepsSettings(c, s, moves[0]);
      RunsDrain(c, MoveOn(c, s, moves[0]), moves[1..]);
    }
  }

  /** A table that may be left of `whole` when some of its files are finished, and announced at `now`. */
  ghost predicate Remainder(whole: Table, t: Table, now: U64) {
    && |t.entries| <= |whole.entries| && (forall e :: e in t.entries ==> e in whole.entries)
    && t.globalOti == whole.globalOti && t.fdtNamespace == whole.fdtNamespace && t.expires == ExpiryAt(now)
  }

  ghost predicate RemaindersSupported(c: Config, s: Tx, now: U64) {
    forall t :: Remainder(s.fdt, t, now) ==> DocumentSupported(c, s.fecOti, t)
  }

  lemma {:induction false} WithoutIsShorter(entries: seq<FileEntry>, toi: U32)
    ensures |Without(entries, toi)| <= |entries|
  {
    if entries != [] {
      WithoutIsShorter(entries[1..], toi);
    }
  }

  lemma RemoveLeavesRemainder(t: Table, toi: U32, now: U64)
    ensures Remainder(t, RemoveEntry(t, toi).(expires := ExpiryAt(now)), now)
  {
    WithoutKeepsOthers(t.entries, toi);
    WithoutIsShorter(t.entries, toi);
  }

  /** An acknowledgement announces at most a remainder, and leaves a table with no more than remainders. */
  lemma AcknowledgeLeavesRemainders(c: Config, s: Tx, f: Flight, now: U64)
    requires RemaindersSupported(c, s, now)
    ensures AckAnnounceable(c, s, f, now) && RemaindersSupported(c, Acknowledge(c, s, f, now), now)
  {
    hide DocumentSupported, MarkCompleted, FdtFile;
    forall toi: U32
      ensures Announceable(c, s.fecOti, RemoveEntry(s.fdt, toi), now)
    {
      RemoveLeavesRemainder(s.fdt, toi, now);
    }
    var r := Acknowledge(c, s, f, now);
    if f.file < |s.objects| {
      var toi := MarkCompleted(c.md5, s.objects[f.file], f.symbols, true).state.meta.toi;
      RemoveLeavesRemainder(s.fdt, toi, now);
      assert r.fdt.entries == s.fdt.entries || r.fdt.entries == Without(s.fdt.entries, toi);
    }
    forall t | Remainder(r.fdt, t, now)
      ensures DocumentSupported(c, r.fecOti, t)
    {
      assert Remainder(s.fdt, t, now);
    }
  }

  /** A run of moves to the empty state always exists. */
  lemma {:induction false} Drain(c: Config, s: Tx, now: U64) returns (moves: seq<Move>)
    requires Ready(c, s) && s.active && RemaindersSupported(c, s, now)
    ensures MovesPossible(c, s, moves)
    ensures var t := AfterMoves(c, s, moves); t.files == map[] && t.inFlight == multiset{}
    decreases Total(FileWeights(s)), Total(FdtWeights(s))
  {
    if NextFlight(s).None? && s.inFlight == multiset{} {
      if s.files != map[] {
        UnfinishedCanMove(c, s);
      }
      moves := [];
    } else {
      var m := NextMove(c, s, now);
      MoveIsCloser(c, s, m);
      MoveKeepsSettings(c, s, m);
      var rest := Drain(c, MoveOn(c, s, m), now);
      moves := [m] + rest;
      assert moves[1..] == rest;
    }
  }

  lemma NextMove(c: Config, s: Tx, now: U64) returns (m: Move)
    requires Ready(c, s) && (NextFlight(s).Some? || s.inFlight != multiset{}) && RemaindersSupported(c, s, now)
    ensures CanMove(c, s, m) && RemaindersSupported(c, MoveOn(c, s, m), now)
  {
    hide DocumentSupported, Acknowledge, AckAnnounceable;
    if NextFlight(s).Some? {
      m := Sent;
      assert MoveOn(c, s, m).fdt == s.fdt && MoveOn(c, s, m).fecOti == s.fecOti;
    } else {
      var f :| f in s.inFlight;
      m := Acked(f, now);
      AcknowledgeLeavesRemainders(c, s, f, now);
    }
  }

  /** The acknowledged symbol finishes its file exactly when every other symbol was complete. */
  lemma LastSymbolFinishes(c: Config, s: Tx, f: Flight)
    requires Ready(c, s) && f in s.inFlight
    ensures f.file < |s.objects|
    ensures var file, p := s.objects[f.file], PosOf(f.symbols[0]);
      Marked(c, s, f).objects[f.file].complete <==>
      forall k: nat, j: nat :: file.Has(k, j) && (k, j) != p ==> file.At(k, j).complete
  {
    AcknowledgedFile(c, s, f);
    var file, p := s.objects[f.file], PosOf(f.symbols[0]);
    var g := Marked(c, s, f).objects[f.file];
    CompleteMeansAllSymbols(c.md5, g);
    forall k: nat, j: nat
      ensures g.Has(k, j) <==> file.Has(k, j)
      ensures file.Has(k, j) && (k, j) != p ==> g.At(k, j) == file.At(k, j)
    {
      assert SameBut(file, g, p, (k, j));
    }
  }

  /** The callback comes with the acknowledgement of the last symbol that was not complete, and with no other. */
  lemma CallbackAtLastSymbol(c: Config, s: Tx, f: Flight, now: U64)
    requires Ready(c, s) && f in s.inFlight
    ensures f.file < |s.objects|
    ensures var file, p := s.objects[f.file], PosOf(f.symbols[0]);
      Acknowledge(c, s, f, now).callbacks ==
      if file.meta.toi != 0 && forall k: nat, j: nat :: file.Has(k, j) && (k, j) != p ==> file.At(k, j).complete
      then s.callbacks + [f.file] else s.callbacks
  {
    hide SendFdt, MarkCompleted, Total;
    LastSymbolFinishes(c, s, f);
    AcknowledgedFile(c, s, f);
    AcknowledgeShape(c, s, f, now);
    var toi := s.objects[f.file].meta.toi;
    SendFdtKeepsSettings(c, Dropped(c, s, f).(fdt := RemoveEntry(s.fdt, toi)), now);
  }

  // ---------------------------------------------------------------------------------------------
  // Every orderly run leads to a state that drains
  // ---------------------------------------------------------------------------------------------

  ghost function DescriptionFile(s: Tx, d: Description): FileEntry {
    var entry := DescriptionEntry(s, d);
    entry.(fecOti := Sized(entry.fecOti, d.data))
  }

  /** What the drain asks of a file description, beyond being sendable. */
  ghost predicate AcceptableDescription(c: Config, s: Tx, d: Description) {
    var meta := DescriptionFile(s, d);
    && 0 < |d.data| < DOUBLE_PRECISION && Supported(meta.fecOti) && meta.fecOti.encodingSymbolLength == s.maxPayload
    && GenuineDigest(c.md5, meta, d.data) && meta.toi != 0 && meta.toi !in s.files
  }

  /**
   * No empty or clashing files, no failed sends, the payload size stays as constructed, and the table that is
   * about to be announced, if any, is supported.
   */
  ghost predicate Orderly(c: Config, s: Tx, e: Event) {
    match e
    case SendingData(location, contentType, expires, data, now) =>
      && Acceptable(s, data)
      && Announceable(c, s.fecOti, AddEntry(s.fdt, DataFile(c, s, location, contentType, expires, data).meta), now)
    case SendingDescription(d, now) =>
      && AcceptableDescription(c, s, d)
      && (DescriptionFile(s, d).fecOti.encodingId == COMPACT_NO_CODE ==>
            Announceable(c, s.fecOti, AddEntry(s.fdt, DescriptionFile(s, d)), now))
    case FdtTimer(now) => s.active ==> Announceable(c, s.fecOti, s.fdt, now)
    case Acknowledged(f, now) => f in s.inFlight ==> AckAnnounceable(c, s, f, now)
    case SendFailed(f) => f !in s.inFlight
    case Tunnel(on) => on == s.tunnelled
    case _ => true
  }

  ghost predicate AllOrderly(c: Config, s: Tx, events: seq<Event>)
    decreases |events|
  {
    events != [] ==> Orderly(c, s, events[0]) && AllOrderly(c, Step(c, s, events[0]), events[1..])
  }

  lemma SendDescriptionKeepsReady(c: Config, s: Tx, d: Description, now: U64)
    requires Ready(c, s) && AcceptableDescription(c, s, d)
    requires DescriptionFile(s, d).fecOti.encodingId == COMPACT_NO_CODE ==>
      Announceable(c, s.fecOti, AddEntry(s.fdt, DescriptionFile(s, d)), now)
    ensures Ready(c, SendDescription(c, s, d, now).0.state)
  {
    hide SendFdt, Layout, GenuineDigest, PartitionFor, Ready, Merged, AssignedToi, Announceable;
    if DescriptionEntry(s, d).fecOti.encodingId != COMPACT_NO_CODE {
      ReadyIgnores(c, s, AfterAssigning(s, d));
    } else {
      ListedIsReady(c, s, d);
      var listed := Listed(AfterAssigning(s, d), DescriptionFile(s, d).toi, NewFile(DescriptionFile(s, d), d.data));
      SendFdtKeepsReady(c, listed, now);
    }
  }

  lemma ListedIsReady(c: Config, s: Tx, d: Description)
    requires Ready(c, s) && AcceptableDescription(c, s, d)
    ensures Ready(c, Listed(AfterAssigning(s, d), DescriptionFile(s, d).toi, NewFile(DescriptionFile(s, d), d.data)))
  {
    hide Layout, GenuineDigest, PartitionFor, Ready, Merged, AssignedToi;
    var meta := DescriptionFile(s, d);
    var f := NewFile(meta, d.data);
    NewDataFileIsGood(c, s, meta, d.data);
    AddedIsReady(c, s, f, AfterAssigning(s, d));
  }

  lemma AddedIsReady(c: Config, s: Tx, f: FileState, counted: Tx)
    requires Ready(c, s) && ObjectGood(c, s, f) && Untouched(f) && f.meta.toi != 0 && f.meta.toi !in s.files
    requires counted == s || counted == ToiTaken(s)
    ensures Ready(c, Listed(counted, f.meta.toi, f))
  {
    hide Ready, ObjectGood, Untouched;
    AddObjectKeepsReady(c, s, f);
    ReadyIgnores(c, Added(s, f), Listed(counted, f.meta.toi, f));
  }

  lemma StepKeepsReady(c: Config, s: Tx, e: Event)
    requires Ready(c, s) && Orderly(c, s, e)
    ensures Ready(c, Step(c, s, e))
  {
    match e {
      case SendingData(location, contentType, expires, data, now) =>
        SendDataKeepsReady(c, s, location, contentType, expires, data, now);
      case SendingDescription(d, now) => SendDescriptionKeepsReady(c, s, d, now);
      case FdtTimer(now) =>
        if s.active {
          SendFdtKeepsReady(c, s, now);
        }
      case SendTimer => SendTickKeepsReady(c, s);
      case Acknowledged(f, now) =>
        if f in s.inFlight {
          AcknowledgeKeepsReady(c, s, f, now);
        }
      case SendFailed(f) =>
        assert s.inFlight - multiset{f} == s.inFlight;
        ReadyIgnores(c, s, Step(c, s, e));
      case Tunnel(on) =>
      case Activation(on) => ReadyIgnores(c, s, s.(active := on));
    }
  }

  lemma StepKeepsOti(c: Config, s: Tx, e: Event)
    ensures Step(c, s, e).fecOti == s.fecOti
  {
    hide SendFdt, Acknowledge, NextFlight, NextBatch;
    match e {
      case SendingData(location, contentType, expires, data, now) =>
        SendFdtKeepsSettings(
          c, Recorded(ToiTaken(s), DataFile(c, s, location, contentType, expires, data)), now);
      case SendingDescription(d, now) => SendDescriptionKeepsSettings(c, s, d, now);
      case FdtTimer(now) => SendFdtKeepsSettings(c, s, now);
      case Acknowledged(f, now) => AcknowledgeKeepsSettings(c, s, f, now);
      case _ =>
    }
  }

  lemma SendDescriptionKeepsSettings(c: Config, s: Tx, d: Description, now: U64)
    ensures var t := SendDescription(c, s, d, now).0.state;
      t.fecOti == s.fecOti && t.callbacks == s.callbacks && t.inFlight == s.inFlight && s.objects <= t.objects
  {
    hide SendFdt, NewFile;
    var entry := DescriptionEntry(s, d);
    if entry.fecOti.encodingId == COMPACT_NO_CODE {
      SendFdtKeepsSettings(c, Listed(AfterAssigning(s, d), entry.toi, DescribedFile(entry, d.data)), now);
    }
  }

  /** From construction on, every orderly run of sends, timers and acknowledgements reaches a state that drains. */
  lemma {:induction false} RunsStayReady(c: Config, s: Tx, events: seq<Event>)
    requires Ready(c, s) && AllOrderly(c, s, events)
    ensures Ready(c, Steps(c, s, events)) && Steps(c, s, events).fecOti == s.fecOti
    decreases |events|
  {
    if events != [] {
      StepKeepsReady(c, s, events[0]);
      StepKeepsOti(c, s, events[0]);
      RunsStayReady(c, Step(c, s, events[0]), events[1..]);
    }
  }

  /** What such a state hands to the socket is the packet of one symbol of one of its objects. */
  lemma SentPacketIsObjectPacket(c: Config, s: Tx)
    requires Ready(c, s) && NextFlight(s).Some?
    ensures var f := NextFlight(s).value;
      && f.file < |s.objects| && f.symbols != []
      && var file, p := s.objects[f.file], PosOf(f.symbols[0]);
      && HasSymbol(file.meta.fecOti, p.0, p.1)
      && FlightPacket(s, f) == ObjectPacket(s.tsi % 0x1_0000, file.meta.toi % 0x1_0000, file.meta.fecOti, file.buffer,
                                            p.0, p.1, file.fdtInstanceId)
  {
    SendTickShape(c, s);
    var f := NextFlight(s).value;
    var p := IdleFrom(s.objects[f.file].blocks, 0, 0).value;
    assert ObjectGood(c, s, s.objects[f.file]);
    NextSymbolIsObjectSymbol(s.objects[f.file], p.0, p.1);
  }
}
