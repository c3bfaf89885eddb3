/**
 * What the transmitter loses (src/Transmitter.cpp:711-785), and why the drain of module Draining asks for what it
 * asks: symbols whose packet could not be sent, tables overtaken by an older one, and empty files.
 */
module Losses {
  import opened Bytes
  import opened Arithmetic
  import opened Flute
  import opened Partitioning
  import opened EncodingSymbols
  import opened AlcPackets
  import opened Files
  import opened Completion
  import opened Conservation
  import opened EndToEnd
  import opened FdtXml
  import opened FdtObject
  import opened Transmitters
  import opened Draining
  import Base64

  // ---------------------------------------------------------------------------------------------
  // Failed sends
  // ---------------------------------------------------------------------------------------------

  ghost predicate Carries(f: Flight, p: Pos) {
    exists i :: 0 <= i < |f.symbols| && PosOf(f.symbols[i]) == p
  }

  /** The symbol counts as handed out, and the file is not complete. */
  ghost predicate Stranded(f: FileState, p: Pos) {
    && f.Has(p.0, p.1) && f.At(p.0, p.1).queued && !f.At(p.0, p.1).complete
    && !f.blocks[p.0].complete && !f.complete
  }

  /** A symbol that counts as handed out and that no packet carries any more; its file was not reported. */
  ghost predicate Lost(s: Tx, h: nat, p: Pos) {
    && h < |s.objects| && Stranded(s.objects[h], p) && h !in s.callbacks
    && forall f :: f in s.inFlight && f.file == h ==> !Carries(f, p)
  }

  lemma FailedSendLosesItsSymbol(c: Config, s: Tx, f: Flight)
    requires Ready(c, s) && f in s.inFlight
    ensures f.symbols != [] && Lost(Step(c, s, SendFailed(f)), f.file, PosOf(f.symbols[0]))
  {
    hide ObjectsGood, FilesGood, Tracked;
    assert s.inFlight[f] == if IsFlight(s, f) then 1 else 0;
    var p, t := PosOf(f.symbols[0]), Step(c, s, SendFailed(f));
    InFlightIsStranded(c, s, f);
    forall g | g in s.inFlight && g.file == f.file && Carries(g, p)
      ensures g == f
    {
      assert s.inFlight[g] == if IsFlight(s, g) then 1 else 0;
      assert g.symbols == [g.symbols[0]] && f.symbols == [f.symbols[0]];
    }
    assert t.inFlight[f] == 0;
  }

  lemma InFlightIsStranded(c: Config, s: Tx, f: Flight)
    requires Ready(c, s) && f in s.inFlight
    ensures |f.symbols| == 1 && f.file < |s.objects|
    ensures Stranded(s.objects[f.file], PosOf(f.symbols[0])) && f.file !in s.callbacks
  {
    assert s.inFlight[f] == if IsFlight(s, f) then 1 else 0;
    var file, p := s.objects[f.file], PosOf(f.symbols[0]);
    assert ObjectGood(c, s, file) && NotBoth(file, p);
    CompleteMeansAllSymbols(c.md5, file);
    assert file.blocks[p.0].complete == SymbolsComplete(file.blocks[p.0]);
    assert multiset(s.callbacks)[f.file] == if IsFinishedFile(s, f.file) then 1 else 0;
  }

  lemma {:induction false} TakeLeavesStranded(f: FileState, n: nat, p: Pos)
    requires Stranded(f, p)
    ensures var (g, batch) := NextBatch(f, n);
      Stranded(g, p) && forall i :: 0 <= i < |batch| ==> PosOf(batch[i]) != p
    decreases n
  {
    IdleFromExists(f.blocks, 0, 0);
    var first := IdleFrom(f.blocks, 0, 0);
    if n > 0 && first.Some? {
      TakeLeavesStranded(Queue(f, first.value.0, first.value.1), n - 1, p);
    }
  }

  lemma MarkOneLeavesStranded(md5: Md5, f: FileState, s: EncodingSymbol, p: Pos)
    requires Stranded(f, p) && PosOf(s) != p
    ensures MarkOne(md5, f, s, true).Returned? && Stranded(MarkOne(md5, f, s, true).state, p)
  {
    var k := s.sourceBlockNumber;
    if k < |f.blocks| {
      var symbols := if s.id < |f.blocks[k].symbols|
                     then f.blocks[k].symbols[s.id := f.At(k, s.id).(queued := false, complete := true)]
                     else f.blocks[k].symbols;
      var g := f.(blocks := f.blocks[k := CheckBlock(f.blocks[k].(symbols := symbols))]);
      assert k == p.0 ==> !symbols[p.1].complete;
      assert !g.blocks[p.0].complete;
      assert CheckFile(md5, g) == Returned(g.(complete := false));
    }
  }

  lemma {:induction false} MarkingLeavesStranded(md5: Md5, f: FileState, symbols: seq<EncodingSymbol>, p: Pos)
    requires Stranded(f, p) && forall i :: 0 <= i < |symbols| ==> PosOf(symbols[i]) != p
    ensures MarkCompleted(md5, f, symbols, true).Returned? && Stranded(MarkCompleted(md5, f, symbols, true).state, p)
    decreases |symbols|
  {
    hide MarkOne, Stranded;
    if symbols != [] {
      MarkOneLeavesStranded(md5, f, symbols[0], p);
      MarkingLeavesStranded(md5, MarkOne(md5, f, symbols[0], true).state, symbols[1..], p);
    }
  }

  lemma TickLeavesLost(s: Tx, h: nat, p: Pos)
    requires Lost(s, h, p) && s.maxPayload >= 4
    ensures Lost(SendTick(s), h, p)
  {
    hide Stranded, NextBatch;
    TakeLeavesStranded(s.objects[h], RequestedIn(s, h), p);
    var t := SendTick(s);
    forall f | f in t.inFlight && f.file == h
      ensures !Carries(f, p)
    {
      assert f in s.inFlight ==> !Carries(f, p);
    }
  }

  /** What an acknowledgement does to the objects, the packets in flight and the callbacks. */
  lemma AcknowledgeEffect(c: Config, s: Tx, f: Flight, now: U64)
    requires f.file < |s.objects|
    ensures var file, t := MarkCompleted(c.md5, s.objects[f.file], f.symbols, true).state, Acknowledge(c, s, f, now);
      && s.objects[f.file := file] <= t.objects && t.inFlight == s.inFlight - multiset{f}
      && (t.callbacks == s.callbacks || (file.complete && t.callbacks == s.callbacks + [f.file]))
  {
    hide SendFdt, MarkCompleted;
    var file := MarkCompleted(c.md5, s.objects[f.file], f.symbols, true).state;
    var s2 := s.(inFlight := s.inFlight - multiset{f}, objects := s.objects[f.file := file]);
    SendFdtKeepsSettings(
      c, s2.(files := s2.files - {file.meta.toi}, fdt := RemoveEntry(s2.fdt, file.meta.toi)), now);
  }

  lemma AcknowledgeLeavesLost(c: Config, s: Tx, f: Flight, now: U64, h: nat, p: Pos)
    requires Lost(s, h, p) && f in s.inFlight
    ensures Lost(Acknowledge(c, s, f, now), h, p)
  {
    hide MarkCompleted;
    if f.file < |s.objects| {
      hide Acknowledge;
      AcknowledgeEffect(c, s, f, now);
      if f.file == h {
        assert !Carries(f, p);
        MarkingLeavesStranded(c.md5, s.objects[h], f.symbols, p);
      }
    }
  }

  lemma StepLeavesLost(c: Config, s: Tx, e: Event, h: nat, p: Pos)
    requires Lost(s, h, p)
    ensures Lost(Step(c, s, e), h, p)
  {
    hide SendFdt, SendTick, Acknowledge, Stranded;
    match e {
      case SendingData(location, contentType, expires, data, now) =>
        SendFdtKeepsSettings(
          c, Recorded(ToiTaken(s), DataFile(c, s, location, contentType, expires, data)), now);
      case SendingDescription(d, now) => SendDescriptionKeepsSettings(c, s, d, now);
      case FdtTimer(now) => SendFdtKeepsSettings(c, s, now);
      case SendTimer =>
        if s.maxPayload >= 4 {
          TickLeavesLost(s, h, p);
        }
      case Acknowledged(f, now) =>
        if f in s.inFlight {
          AcknowledgeLeavesLost(c, s, f, now, h, p);
        }
      case _ =>
    }
  }

  lemma {:induction false} LostForEver(c: Config, s: Tx, events: seq<Event>, h: nat, p: Pos)
    requires Lost(s, h, p)
    ensures Lost(Steps(c, s, events), h, p)
    decreases |events|
  {
    hide Lost, Step;
    if events != [] {
      StepLeavesLost(c, s, events[0], h, p);
      LostForEver(c, Step(c, s, events[0]), events[1..], h, p);
    }
  }

  /**
   * A symbol whose packet could not be sent is never handed out again: whatever happens next, its file stays
   * incomplete and its callback does not come.
   */
  lemma FailedSendNeverFinishes(c: Config, s: Tx, f: Flight, events: seq<Event>)
    requires Ready(c, s) && f in s.inFlight
    ensures var t := Steps(c, Step(c, s, SendFailed(f)), events);
      f.file < |t.objects| && !t.objects[f.file].complete && f.file !in t.callbacks
  {
    hide Ready, Step, Steps;
    FailedSendLosesItsSymbol(c, s, f);
    LostForEver(c, Step(c, s, SendFailed(f)), events, f.file, PosOf(f.symbols[0]));
  }

  // ---------------------------------------------------------------------------------------------
  // Overtaken tables
  // ---------------------------------------------------------------------------------------------

  /** An acknowledgement that completes an FDT which another one has replaced in `_files`. */
  ghost predicate FinishesReplacedFdt(c: Config, s: Tx, f: Flight)
    requires f.file < |s.objects|
  {
    && s.objects[f.file].meta.toi == 0 && Marked(c, s, f).objects[f.file].complete
    && 0 in s.files && s.files[0] != f.file
  }

  ghost predicate DropsUnfinished(s: Tx, t: Tx) {
    exists toi :: toi in s.files && toi !in t.files && s.files[toi] < |t.objects| && !t.objects[s.files[toi]].complete
  }

  /** An acknowledgement drops a file that is not finished exactly when it finishes an FDT that was replaced. */
  lemma OldFdtDropsNewOne(c: Config, s: Tx, f: Flight, now: U64)
    requires Ready(c, s) && f in s.inFlight
    ensures f.file < |s.objects|
    ensures DropsUnfinished(s, Acknowledge(c, s, f, now)) <==> FinishesReplacedFdt(c, s, f)
  {
    hide SendFdt, MarkCompleted, ObjectsGood, FlightsMatch, CallbacksMatch, Acknowledge;
    AcknowledgedFile(c, s, f);
    AcknowledgeShape(c, s, f, now);
    var toi, dropped := s.objects[f.file].meta.toi, Dropped(c, s, f);
    SendFdtKeepsFiles(c, dropped.(fdt := RemoveEntry(s.fdt, toi)), now);
    if FinishesReplacedFdt(c, s, f) {
      assert Unfinished(s, 0);
      assert 0 in s.files && 0 !in dropped.files && !dropped.objects[s.files[0]].complete;
    } else if Marked(c, s, f).objects[f.file].complete && toi in s.files {
      assert s.files[toi] == f.file;
    }
  }

  /** A repetition of the FDT while the last packet of the one before is in flight leads there. */
  lemma RepetitionReplaces(c: Config, s: Tx, f: Flight, now: U64)
    requires Ready(c, s) && s.active && f in s.inFlight && f.file < |s.objects|
    requires s.objects[f.file].meta.toi == 0 && Marked(c, s, f).objects[f.file].complete
    requires s.fdt.entries != [] && Announceable(c, s.fecOti, s.fdt, now)
    ensures var t := Step(c, s, FdtTimer(now)); Ready(c, t) && f in t.inFlight && FinishesReplacedFdt(c, t, f)
  {
    hide Ready, MarkCompleted, FdtFile, Announceable, MarkSent;
    SendFdtKeepsReady(c, s, now);
    SendFdtKeepsSettings(c, s, now);
  }

  /** The table with a file just sent, as it is announced. */
  ghost function FirstTable(
    c: Config, s: Tx, location: string, contentType: string, expires: U32, data: seq<Byte>, now: U64): Table
  {
    AddEntry(s.fdt, DataFile(c, s, location, contentType, expires, data).meta).(expires := ExpiryAt(now))
  }

  lemma ThreeSteps(c: Config, s: Tx, e0: Event, e1: Event, e2: Event)
    ensures Steps(c, s, [e0, e1, e2]) == Step(c, Step(c, Step(c, s, e0), e1), e2)
  {
    hide Step;
    assert [e0, e1, e2][1..] == [e1, e2] && [e1, e2][1..] == [e2] && [e2][1..] == [];
    assert Steps(c, Step(c, Step(c, s, e0), e1), [e2]) == Steps(c, Step(c, Step(c, Step(c, s, e0), e1), e2), []);
  }

  lemma ConstructedFacts(c: Config, tsi: U64, mtu: U16, tunnelled: bool, ns: FdtNamespace)
    requires MaxPayload(mtu, tunnelled) > 4
    ensures var s := Constructed(tsi, mtu, tunnelled, ns, true);
      && Ready(c, s) && s.active && s.objects == [] && s.files == map[] && s.fdt.entries == []
      && s.maxPayload == MaxPayload(mtu, tunnelled) && s.nextToi == 1
  {
    ConstructedIsReady(c, tsi, mtu, tunnelled, ns, true);
  }

  /** Sending a file adds it and the FDT that announces it. */
  lemma SendAnnounces(
    c: Config, s: Tx, location: string, contentType: string, expires: U32, data: seq<Byte>, now: U64)
    requires Ready(c, s) && Acceptable(s, data)
    requires DocumentSupported(c, s.fecOti, FirstTable(c, s, location, contentType, expires, data, now))
    ensures var t := FirstTable(c, s, location, contentType, expires, data, now);
      var r := SendData(c, s, location, contentType, expires, data, now);
      && Ready(c, r) && r.objects == s.objects + [DataFile(c, s, location, contentType, expires, data),
                                                  FdtFile(c, s.fecOti, t)]
      && 0 in r.files && r.files[0] == |s.objects| + 1 && r.fdt == MarkSent(t) && t.entries != []
      && r.active == s.active && r.fecOti == s.fecOti && r.maxPayload == s.maxPayload && r.tsi == s.tsi
      && r.announced == s.announced + [t] && r.nextToi == NextToi(s.nextToi)
      && r.files == s.files[0 := |s.objects| + 1][s.nextToi as U32 := |s.objects|]
      && r.inFlight == s.inFlight && r.callbacks == s.callbacks
  {
    hide Ready, FdtFile, DocumentSupported, DataFile;
    SendDataKeepsReady(c, s, location, contentType, expires, data, now);
    var file, t := DataFile(c, s, location, contentType, expires, data),
                   FirstTable(c, s, location, contentType, expires, data, now);
    assert s.objects + [file] + [FdtFile(c, s.fecOti, t)] == s.objects + [file, FdtFile(c, s.fecOti, t)];
  }

  lemma SingleSymbolFdt(c: Config, s: Tx, t: Table)
    requires SizesMatch(s) && DocumentSupported(c, s.fecOti, t) && |c.render(ToXml(t))| <= s.maxPayload
    ensures var f := FdtFile(c, s.fecOti, t);
      && f.meta.toi == 0 && IdleAt(f, (0, 0)) && forall k: nat, j: nat :: f.Has(k, j) <==> k == 0 && j == 0
  {
    hide ToXml, Supported, Base64.Encode;
    var f := FdtFile(c, s.fecOti, t);
    SizeIsExact(s.fecOti, c.render(ToXml(t)));
    FdtFileIsGood(c, s, t);
    forall k: nat, j: nat
      ensures f.Has(k, j) <==> k == 0 && j == 0
    {
      FileHasSymbol(f, k, j);
      OneSymbol(f.meta.fecOti, k, j);
    }
    FreshIsIdle(f.meta.fecOti);
    assert f.Has(0, 0);
  }

  lemma FreshIsIdle(oti: FecOti)
    requires oti.encodingSymbolLength > 0 && oti.maxSourceBlockLength > 0
    ensures forall k: nat, j: nat :: k < |Layout(oti)| && j < |Layout(oti)[k].symbols| ==> Idle(Layout(oti), k, j)
  {
    hide PartitionFor, Offset, SymbolLength;
  }

  /** The packet of an FDT of one symbol, if it is the FDT to be sent. */
  lemma FirstPacketIsOfFdt(c: Config, s: Tx, t: Table) returns (f: Flight)
    requires Ready(c, s) && s.active && |s.objects| == 2 && 0 in s.files && s.files[0] == 1
    requires s.objects[1] == FdtFile(c, s.fecOti, t)
    requires DocumentSupported(c, s.fecOti, t) && |c.render(ToXml(t))| <= s.maxPayload
    ensures var r := SendTick(s);
      && f in r.inFlight && f.file == 1 && |r.objects| == 2 && r.objects[1].meta.toi == 0
      && r.fdt == s.fdt && r.active && r.fecOti == s.fecOti && Marked(c, r, f).objects[1].complete
  {
    hide FdtFile, DocumentSupported, MarkCompleted, Tracked, FlightsMatch, CallbacksMatch, ObjectsGood, NextBatch;
    SingleSymbolFdt(c, s, t);
    assert Unfinished(s, 0) && 0 in UnfinishedTois(s);
    assert Least(UnfinishedTois(s)) == 0;
    IdleMeansNextFlight(c, s, (0, 0));
    SendTickShape(c, s);
    f := NextFlight(s).value;
    var r := SendTick(s);
    SendTickKeepsReady(c, s);
    QueueChangesAt(s.objects[1], 0, 0);
    LastSymbolFinishes(c, r, f);
    forall k: nat, j: nat | r.objects[1].Has(k, j)
      ensures k == 0 && j == 0
    {
      assert SameBut(s.objects[1], r.objects[1], (0, 0), (k, j));
    }
  }

  /**
   * Such a state is reached by any transmitter whose first FDT is one packet: a file is sent, the packet of its FDT
   * leaves, and the repeat timer ticks before the packet is acknowledged.  By OldFdtDropsNewOne the acknowledgement
   * then drops the repetition before any of it was sent.
   */
  lemma OldFdtIsOvertaken(
    c: Config, tsi: U64, mtu: U16, tunnelled: bool, ns: FdtNamespace, location: string, contentType: string,
    expires: U32, data: seq<Byte>, now: U64, later: U64)
    returns (f: Flight)
    requires MaxPayload(mtu, tunnelled) > 4
    requires var s := Constructed(tsi, mtu, tunnelled, ns, true);
      var t := FirstTable(c, s, location, contentType, expires, data, now);
      && Acceptable(s, data) && DocumentSupported(c, s.fecOti, t) && |c.render(ToXml(t))| <= s.maxPayload
      && DocumentSupported(c, s.fecOti, MarkSent(FirstTable(c, s, location, contentType, expires, data, later)))
    ensures var s := Steps(c, Constructed(tsi, mtu, tunnelled, ns, true),
                           [SendingData(location, contentType, expires, data, now), SendTimer, FdtTimer(later)]);
      && Ready(c, s) && f in s.inFlight && f.file < |s.objects| && FinishesReplacedFdt(c, s, f)
      && DropsUnfinished(s, Acknowledge(c, s, f, later))
  {
    hide Ready, MarkCompleted, FdtFile, DocumentSupported, Acceptable, SendData, SendTick, Acknowledge, DataFile,
         FinishesReplacedFdt, DropsUnfinished, NextFlight, Marked, Constructed, Steps;
    var s0 := Constructed(tsi, mtu, tunnelled, ns, true);
    ConstructedFacts(c, tsi, mtu, tunnelled, ns);
    SendAnnounces(c, s0, location, contentType, expires, data, now);
    var s1 := SendData(c, s0, location, contentType, expires, data, now);
    var t := FirstTable(c, s0, location, contentType, expires, data, now);
    f := FirstPacketIsOfFdt(c, s1, t);
    var s2 := SendTick(s1);
    SendTickKeepsReady(c, s1);
    assert s2.fdt == MarkSent(t);
    RepetitionReplaces(c, s2, f, later);
    OldFdtDropsNewOne(c, Step(c, s2, FdtTimer(later)), f, later);
    ThreeSteps(c, s0, SendingData(location, contentType, expires, data, now), SendTimer, FdtTimer(later));
  }

  lemma SendFdtKeepsFiles(c: Config, s: Tx, now: U64)
    ensures var t := SendFdt(c, s, now); s.files.Keys <= t.files.Keys && s.objects <= t.objects
  {
    hide FdtFile, MarkSent, ExpiryAt;
  }

  // ---------------------------------------------------------------------------------------------
  // Empty files
  // ---------------------------------------------------------------------------------------------

  lemma {:induction false} NothingToMark(md5: Md5, f: FileState, symbols: seq<EncodingSymbol>)
    requires f.blocks == []
    ensures MarkCompleted(md5, f, symbols, true) == Returned(f)
    decreases |symbols|
  {
    if symbols != [] {
      NothingToMark(md5, f, symbols[1..]);
    }
  }

  /** Sending no data makes such a file. */
  lemma EmptyDataNeverFinishes(
    c: Config, s: Tx, location: string, contentType: string, expires: U32, now: U64, events: seq<Event>)
    ensures IsEmptyFile(
              Steps(c, Step(c, s, SendingData(location, contentType, expires, [], now)), events), |s.objects|)
  {
    hide SendFdt, Steps;
    var file := DataFile(c, s, location, contentType, expires, []);
    NothingToCut(file.meta.fecOti);
    SendFdtKeepsSettings(c, Recorded(ToiTaken(s), file), now);
    EmptyFileNeverFinishes(c, Step(c, s, SendingData(location, contentType, expires, [], now)), events, |s.objects|);
  }

  lemma NothingToCut(oti: FecOti)
    requires oti.encodingSymbolLength > 0 && oti.maxSourceBlockLength > 0 && oti.transferLength == 0
    ensures Layout(oti) == []
  {
    CeilDivBounds(0, oti.encodingSymbolLength);
    CeilDivBounds(0, oti.maxSourceBlockLength);
  }

  ghost predicate IsEmptyFile(s: Tx, h: nat) {
    h < |s.objects| && s.objects[h].blocks == [] && !s.objects[h].complete
  }

  /** A file without symbols is never finished, whatever happens; the drain has to ask for non-empty files. */
  lemma {:induction false} EmptyFileNeverFinishes(c: Config, s: Tx, events: seq<Event>, h: nat)
    requires IsEmptyFile(s, h)
    ensures IsEmptyFile(Steps(c, s, events), h)
    decreases |events|
  {
    if events != [] {
      StepKeepsEmptyFile(c, s, events[0], h);
      EmptyFileNeverFinishes(c, Step(c, s, events[0]), events[1..], h);
    }
  }

  lemma StepKeepsEmptyFile(c: Config, s: Tx, e: Event, h: nat)
    requires IsEmptyFile(s, h)
    ensures IsEmptyFile(Step(c, s, e), h)
  {
    hide SendFdt, SendTick, Acknowledge, NextBatch, MarkCompleted;
    match e {
      case SendingData(location, contentType, expires, data, now) =>
        SendFdtKeepsSettings(
          c, Recorded(ToiTaken(s), DataFile(c, s, location, contentType, expires, data)), now);
      case SendingDescription(d, now) => SendDescriptionKeepsSettings(c, s, d, now);
      case FdtTimer(now) => SendFdtKeepsSettings(c, s, now);
      case SendTimer =>
        if s.maxPayload >= 4 {
          TickKeepsEmptyFile(s, h);
        }
      case Acknowledged(f, now) => AcknowledgeKeepsEmptyFile(c, s, f, now, h);
      case _ =>
    }
  }

  lemma TickKeepsEmptyFile(s: Tx, h: nat)
    requires IsEmptyFile(s, h) && s.maxPayload >= 4
    ensures IsEmptyFile(SendTick(s), h)
  {
    hide NextBatch;
    NothingToTake(s.objects[h], RequestedIn(s, h));
  }

  lemma NothingToTake(f: FileState, n: nat)
    requires f.blocks == []
    ensures NextBatch(f, n) == (f, [])
  {
  }

  lemma AcknowledgeKeepsEmptyFile(c: Config, s: Tx, f: Flight, now: U64, h: nat)
    requires IsEmptyFile(s, h)
    ensures IsEmptyFile(Acknowledge(c, s, f, now), h)
  {
    hide MarkCompleted;
    if f.file < |s.objects| {
      hide Acknowledge;
      AcknowledgeEffect(c, s, f, now);
      if f.file == h {
        NothingToMark(c.md5, s.objects[h], f.symbols);
      }
    }
  }

  /** While an empty file is the lowest unfinished one, nothing is sent at all. */
  lemma EmptyFileBlocksSending(s: Tx)
    requires s.maxPayload >= 4 && UnfinishedTois(s) != {}
    requires IsEmptyFile(s, s.files[Least(UnfinishedTois(s))])
    ensures SendTick(s) == s
  {
  }

  // ---------------------------------------------------------------------------------------------
  // The tunnel
  // ---------------------------------------------------------------------------------------------

  /** What is left of a payload of one symbol: the FEC payload ID, and the symbol if it fits. */
  lemma PayloadOfOne(symbol: EncodingSymbol, room: nat)
    ensures Payload([symbol], room) ==
            Be16(symbol.sourceBlockNumber) + Be16(symbol.id) + if |symbol.data| <= room then symbol.data else []
  {
    var rest := [symbol][1..];
    assert rest == [];
    assert |symbol.data| <= room ==> Body(rest, room - |symbol.data|) == [] && symbol.data + [] == symbol.data;
  }

  /**
   * The packet of a flight carries all its symbols, if and only if their lengths add up to no more than the payload
   * size.
   */
  lemma FlightCarriesAll(s: Tx, f: Flight)
    requires f.file < |s.objects| && f.symbols != []
    ensures FlightPacket(s, f) == PacketStart(s, f) + AllData(f.symbols) <==> |AllData(f.symbols)| <= s.maxPayload
  {
    hide AllData, PacketStart;
    BodyCarriesAll(f.symbols, s.maxPayload);
    PacketIsStartAndBody(s, f);
    SameTail(PacketStart(s, f), Body(f.symbols, s.maxPayload), AllData(f.symbols));
  }

  /** A packet up to its symbols. */
  function PacketStart(s: Tx, f: Flight): seq<Byte>
    requires f.file < |s.objects| && f.symbols != []
  {
    var file := s.objects[f.file];
    HeaderBytes(s.tsi % 0x1_0000, file.meta.toi % 0x1_0000, file.meta.fecOti, file.fdtInstanceId)
    + (Be16(f.symbols[0].sourceBlockNumber) + Be16(f.symbols[0].id))
  }

  lemma PacketIsStartAndBody(s: Tx, f: Flight)
    requires f.file < |s.objects| && f.symbols != []
    ensures FlightPacket(s, f) == PacketStart(s, f) + Body(f.symbols, s.maxPayload)
  {
    hide HeaderBytes, Body;
  }

  lemma SameTail(head: seq<Byte>, a: seq<Byte>, b: seq<Byte>)
    ensures head + a == head + b <==> a == b
  {
    if head + a == head + b {
      assert a == (head + a)[|head|..] == (head + b)[|head|..] == b;
    }
  }

  ghost predicate AllComplete(f: FileState, batch: seq<EncodingSymbol>) {
    forall i :: 0 <= i < |batch| ==>
      f.Has(batch[i].sourceBlockNumber, batch[i].id) && f.At(batch[i].sourceBlockNumber, batch[i].id).complete
  }

  /** Marking a run of symbols completes each of them, and undoes none. */
  lemma {:induction false} MarkingCompletes(md5: Md5, f: FileState, batch: seq<EncodingSymbol>)
    requires Sending(md5, f) && InRange(f, batch)
    ensures var r := MarkCompleted(md5, f, batch, true);
      && r.Returned? && (forall q: Pos :: r.state.Has(q.0, q.1) <==> f.Has(q.0, q.1))
      && (forall q: Pos :: f.Has(q.0, q.1) && f.At(q.0, q.1).complete ==> r.state.At(q.0, q.1).complete)
      && AllComplete(r.state, batch)
    decreases |batch|
  {
    hide MarkOne, Sending;
    if batch != [] {
      var s, g := batch[0], MarkOne(md5, f, batch[0], true).state;
      MarkOneMarks(md5, f, s, true);
      assert forall q: Pos :: MarkedAt(f, g, PosOf(s), true, q);
      forall i | 0 <= i < |batch[1..]|
        ensures g.Has(batch[1..][i].sourceBlockNumber, batch[1..][i].id)
      {
        assert f.Has(batch[i + 1].sourceBlockNumber, batch[i + 1].id);
        assert MarkedAt(f, g, PosOf(s), true, PosOf(batch[i + 1]));
      }
      MarkingCompletes(md5, g, batch[1..]);
      var r := MarkCompleted(md5, g, batch[1..], true).state;
      forall q: Pos
        ensures r.Has(q.0, q.1) <==> f.Has(q.0, q.1)
        ensures f.Has(q.0, q.1) && f.At(q.0, q.1).complete ==> r.At(q.0, q.1).complete
      {
        assert MarkedAt(f, g, PosOf(s), true, q);
      }
      assert MarkedAt(f, g, PosOf(s), true, PosOf(s));
      assert forall i :: 0 < i < |batch| ==> batch[i] == batch[1..][i - 1];
    }
  }

  /** Whatever the packet carried, the acknowledgement of what was taken for it marks every symbol complete. */
  lemma AcknowledgedCountComplete(c: Config, s: Tx, now: U64)
    requires s.maxPayload >= 4 && NextFlight(s).Some?
    requires Sending(c.md5, s.objects[NextFlight(s).value.file])
    ensures var f := NextFlight(s).value;
      var r := Acknowledge(c, SendTick(s), f, now);
      f.file < |r.objects| && AllComplete(r.objects[f.file], f.symbols)
  {
    hide Acknowledge, Sending, NextBatch, MarkCompleted, AllComplete;
    var f := NextFlight(s).value;
    var file, n := s.objects[f.file], RequestedIn(s, f.file);
    var g := NextBatch(file, n).0;
    NextBatchIsBatch(file, n);
    NextBatchKeepsSending(c.md5, file, n);
    forall i | 0 <= i < |f.symbols|
      ensures g.Has(f.symbols[i].sourceBlockNumber, f.symbols[i].id)
    {
      assert BatchAt(file, g, f.symbols, PosOf(f.symbols[i]));
    }
    MarkingCompletes(c.md5, g, f.symbols);
    AcknowledgeEffect(c, SendTick(s), f, now);
  }

  /** After the tunnel is switched on the same symbol is sent next, as long as there is room for any. */
  lemma TunnelKeepsNextFlight(c: Config, s: Tx)
    requires Ready(c, s) && !s.tunnelled && s.maxPayload >= 32
    ensures var t := Step(c, s, Tunnel(true));
      && t.maxPayload == s.maxPayload - 28 >= 4
      && (s.maxPayload > 32 ==> NextFlight(t) == NextFlight(s))
      && (s.maxPayload == 32 ==> NextFlight(t).None?)
  {
    hide NextBatch, FilesGood, Tracked, FlightsMatch, CallbacksMatch, Sending;
    var t := Step(c, s, Tunnel(true));
    assert UnfinishedTois(t) == UnfinishedTois(s);
    if UnfinishedTois(s) != {} {
      var h := s.files[Least(UnfinishedTois(s))];
      assert ObjectGood(c, s, s.objects[h]);
      var e: nat := s.maxPayload;
      CeilDivUnique(e - 4, e, 1);
      CeilDivBounds(0, e);
      if e > 32 {
        CeilDivUnique(e - 32, e, 1);
      }
      NothingTakenForNothing(s.objects[h]);
    }
  }

  lemma NothingTakenForNothing(f: FileState)
    ensures NextBatch(f, 0) == (f, [])
  {
  }

  /** The acknowledgement of a symbol just taken marks it complete. */
  lemma TakenThenAcknowledged(c: Config, t: Tx, h: nat, p: Pos, now: U64)
    requires h < |t.objects| && Sending(c.md5, t.objects[h]) && IdleAt(t.objects[h], p)
    ensures var u := t.(objects := t.objects[h := Queue(t.objects[h], p.0, p.1)],
                        inFlight := t.inFlight + multiset{TheFlight(t, h, p)});
      var r := Acknowledge(c, u, TheFlight(t, h, p), now);
      h < |r.objects| && r.objects[h].Has(p.0, p.1) && r.objects[h].At(p.0, p.1).complete
  {
    hide Acknowledge, SymbolToSend, MarkOne, Sending;
    var f, g := TheFlight(t, h, p), Queue(t.objects[h], p.0, p.1);
    var symbol := f.symbols[0];
    SymbolIsAt(t.objects[h], p);
    QueueKeepsSending(c.md5, t.objects[h], p.0, p.1);
    QueueChangesAt(t.objects[h], p.0, p.1);
    assert SameBut(t.objects[h], g, p, p);
    MarkOneMarks(c.md5, g, symbol, true);
    assert MarkedAt(g, MarkOne(c.md5, g, symbol, true).state, p, true, p);
    MarkedSingly(c.md5, g, symbol);
    AcknowledgeEffect(
      c, t.(objects := t.objects[h := g], inFlight := t.inFlight + multiset{f}), f, now);
  }

  lemma SymbolIsAt(f: FileState, p: Pos)
    requires f.Has(p.0, p.1)
    ensures PosOf(SymbolToSend(f, p.0, p.1)) == p
  {
  }

  lemma MarkedSingly(md5: Md5, f: FileState, symbol: EncodingSymbol)
    requires MarkOne(md5, f, symbol, true).Returned?
    ensures MarkCompleted(md5, f, [symbol], true) == MarkOne(md5, f, symbol, true)
  {
    hide MarkOne;
    assert [symbol][1..] == [];
  }

  /**
   * After the tunnel is switched on, with room for anything at all, the next packet carries its symbol if and only if
   * that is no longer than the payload less the 28 bytes of the tunnel, so never a symbol of full length; its
   * acknowledgement marks the symbol complete either way.
   */
  lemma TunnelledSymbolCountsUnsent(c: Config, s: Tx, now: U64)
    requires Ready(c, s) && !s.tunnelled && s.maxPayload > 32
    requires NextFlight(Step(c, s, Tunnel(true))).Some?
    ensures var t := Step(c, s, Tunnel(true));
      var f := NextFlight(t).value;
      && f.file < |t.objects| && |f.symbols| == 1
      && var symbol, file := f.symbols[0], t.objects[f.file];
      && FlightPacket(t, f) ==
         HeaderBytes(t.tsi % 0x1_0000, file.meta.toi % 0x1_0000, file.meta.fecOti, file.fdtInstanceId)
         + (Be16(symbol.sourceBlockNumber) + Be16(symbol.id)
            + if |symbol.data| <= s.maxPayload - 28 then symbol.data else [])
      && var r := Acknowledge(c, SendTick(t), f, now);
      && f.file < |r.objects| && r.objects[f.file].Has(symbol.sourceBlockNumber, symbol.id)
      && r.objects[f.file].At(symbol.sourceBlockNumber, symbol.id).complete
  {
    hide FilesGood, Tracked, FlightsMatch, CallbacksMatch, Sending, Acknowledge, HeaderBytes, Payload, NextFlight;
    var t := Step(c, s, Tunnel(true));
    var h, p := TunnelledTick(c, s);
    assert ObjectGood(c, s, s.objects[h]);
    PayloadOfOne(TheFlight(t, h, p).symbols[0], t.maxPayload);
    SymbolIsAt(t.objects[h], p);
    TakenThenAcknowledged(c, t, h, p, now);
  }

  /** The send tick takes the same symbol as without the tunnel. */
  lemma TunnelledTick(c: Config, s: Tx) returns (h: nat, p: Pos)
    requires Ready(c, s) && !s.tunnelled && s.maxPayload > 32
    requires NextFlight(Step(c, s, Tunnel(true))).Some?
    ensures h < |s.objects| && IdleAt(s.objects[h], p)
    ensures var t := Step(c, s, Tunnel(true));
      && NextFlight(t) == Some(TheFlight(t, h, p))
      && SendTick(t) == t.(objects := t.objects[h := Queue(t.objects[h], p.0, p.1)],
                           inFlight := t.inFlight + multiset{TheFlight(t, h, p)})
  {
    hide FilesGood, Tracked, FlightsMatch, CallbacksMatch, Sending, NextFlight, NextBatch;
    TunnelKeepsNextFlight(c, s);
    SendTickShape(c, s);
    h := NextFlight(s).value.file;
    p := IdleFrom(s.objects[h].blocks, 0, 0).value;
    assert ObjectGood(c, s, s.objects[h]);
    var e: nat := s.maxPayload;
    CeilDivUnique(e - 32, e, 1);
    NextOneSymbol(s.objects[h]);
  }

  /**
   * After the tunnel is switched off, two symbols are taken for a packet, which carries both if and only if they are
   * together no longer than the payload with the 28 bytes of the tunnel, and otherwise the first alone; its
   * acknowledgement marks both complete either way.
   */
  lemma UntunnelledSymbolCountsUnsent(c: Config, s: Tx, now: U64)
    requires Ready(c, s) && s.tunnelled && 24 <= s.maxPayload < 0x1_0000_0000 - 28
    requires NextFlight(Step(c, s, Tunnel(false))).Some?
    ensures var t := Step(c, s, Tunnel(false));
      var f := NextFlight(t).value;
      && f.file < |t.objects| && 1 <= |f.symbols| <= 2
      && FlightPacket(t, f) ==
         PacketStart(t, f)
         + (if |AllData(f.symbols)| <= s.maxPayload + 28 then AllData(f.symbols) else f.symbols[0].data)
      && var r := Acknowledge(c, SendTick(t), f, now);
      f.file < |r.objects| && AllComplete(r.objects[f.file], f.symbols)
  {
    hide FilesGood, Tracked, FlightsMatch, CallbacksMatch, Sending, Acknowledge, FlightPacket, NextBatch, AllData,
         SendTick, PacketStart, AllComplete;
    var t := Step(c, s, Tunnel(false));
    var f := NextFlight(t).value;
    var file := t.objects[f.file];
    assert ObjectGood(c, s, file);
    AcknowledgedCountComplete(c, t, now);
    var e: nat := s.maxPayload;
    UntunnelledSizeDropsSecondSymbol(
      e, EncodingSymbol(0, 0, seq<Byte>(e, i => 0)), EncodingSymbol(0, 0, seq<Byte>(29, i => 0)));
    assert RequestedIn(t, f.file) == 2;
    NextBatchIsBatch(file, 2);
    FirstAlone(c.md5, file, f.symbols, e);
    PacketIsStartAndBody(t, f);
  }

  /** Of at most two symbols of a file, a payload with room for more than one carries both or the first. */
  lemma FirstAlone(md5: Md5, f: FileState, symbols: seq<EncodingSymbol>, e: nat)
    requires Sending(md5, f) && f.meta.fecOti.encodingSymbolLength == e && 1 <= |symbols| <= 2
    requires forall i :: 0 <= i < |symbols| ==>
               && IdleAt(f, PosOf(symbols[i]))
               && symbols[i] == SymbolToSend(f, symbols[i].sourceBlockNumber, symbols[i].id)
    ensures Body(symbols, e + 28) ==
            if |AllData(symbols)| <= e + 28 then AllData(symbols) else symbols[0].data
  {
    BodyCarriesAll(symbols, e + 28);
    PlaceOf(f, symbols[0].sourceBlockNumber, symbols[0].id);
    assert |symbols[0].data| <= e;
    var rest := symbols[1..];
    if |symbols| == 1 {
      assert rest == [] && AllData(rest) == [];
    } else {
      assert rest == [symbols[1]] && rest[1..] == [];
      assert AllData(rest) == symbols[1].data + [];
    }
  }
}
