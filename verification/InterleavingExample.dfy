/**
 * A run of the transmitter whose packets, delivered in order with nothing lost, leave a receiver with a table that was
 * never sent: a second file is sent while the FDT of the first is half sent (src/Transmitter.cpp:643-670).
 */
module InterleavingExample {
  import opened Bytes
  import opened Arithmetic
  import opened Flute
  import opened AlcPackets
  import opened Files
  import opened EndToEnd
  import opened Xml
  import opened FdtXml
  import opened FdtObject
  import opened FdtRoundTrip
  import opened Transmitters
  import opened Draining
  import opened Losses
  import opened Interleaving
  import Base64
  import Receivers

  // ---------------------------------------------------------------------------------------------
  // What the transmitter sends
  // ---------------------------------------------------------------------------------------------

  ghost function TextOf(c: Config, oti: FecOti, t: Table): Text {
    var doc := c.render(ToXml(t));
    Text(Sized(oti, doc), doc, WireId(t))
  }

  /** The file carries the table. */
  ghost predicate Carries(c: Config, s: Tx, f: FileState, t: Table) {
    && f.meta.toi == 0 && !f.complete && var text := TextOf(c, s.fecOti, t);
    f.meta.fecOti == text.oti && f.buffer == text.data && f.fdtInstanceId == text.id
  }

  /** The next packet is that of the first idle symbol of the FDT. */
  lemma NextFdtPacket(c: Config, s: Tx, h: nat, t: Table, k: nat, j: nat)
    requires Ready(c, s) && s.active && 0 in s.files && s.files[0] == h < |s.objects| && Carries(c, s, s.objects[h], t)
    requires IdleFrom(s.objects[h].blocks, 0, 0) == Some((k, j))
    ensures var text := TextOf(c, s.fecOti, t);
      && Receivers.CanCut(text.oti)
      && SentBy(s, SendTimer) == [ObjectPacket(s.tsi % 0x1_0000, 0, text.oti, text.data, k, j, text.id)]
    ensures s.objects[h].Has(k, j)
    ensures SendTick(s) == s.(objects := s.objects[h := Queue(s.objects[h], k, j)],
                              inFlight := s.inFlight + multiset{TheFlight(s, h, (k, j))})
    ensures Ready(c, SendTick(s))
  {
    hide Tracked, FlightsMatch, CallbacksMatch, ObjectsGood, NextBatch, ObjectPacket, FlightPacket, ToXml;
    IdleFromExists(s.objects[h].blocks, 0, 0);
    assert Unfinished(s, 0) && 0 in UnfinishedTois(s);
    assert Least(UnfinishedTois(s)) == 0;
    IdleMeansNextFlight(c, s, (k, j));
    SendTickShape(c, s);
    SentPacketIsObjectPacket(c, s);
    SendTickKeepsReady(c, s);
  }

  /** The first two idle symbols of a file of more than one. */
  lemma FirstIdle(f: FileState)
    requires Receivers.CanCut(f.meta.fecOti) && f.blocks == Layout(f.meta.fecOti) && f.Has(0, 0) && f.Has(0, 1)
    ensures IdleFrom(f.blocks, 0, 0) == Some((0, 0))
    ensures IdleFrom(Queue(f, 0, 0).blocks, 0, 0) == Some((0, 1))
  {
    hide PartitionFor, Layout;
    FreshIsIdle(f.meta.fecOti);
    assert Idle(f.blocks, 0, 0) && Idle(f.blocks, 0, 1);
    var g := Queue(f, 0, 0);
    assert !Idle(g.blocks, 0, 0) && Idle(g.blocks, 0, 1);
    assert IdleFrom(g.blocks, 0, 1) == Some((0, 1));
  }

  /** The text of a table takes more than one symbol. */
  ghost predicate LongText(c: Config, oti: CutOti, t: Table) {
    && DocumentSupported(c, oti, t) && oti.encodingSymbolLength < |c.render(ToXml(t))| && oti.maxSourceBlockLength >= 2
  }

  lemma LongFdtFile(c: Config, s: Tx, t: Table)
    requires SizesMatch(s) && LongText(c, s.fecOti, t)
    ensures var f := FdtFile(c, s.fecOti, t);
      && Carries(c, s, f, t) && f.Has(0, 0) && f.Has(0, 1)
      && IdleFrom(f.blocks, 0, 0) == Some((0, 0)) && IdleFrom(Queue(f, 0, 0).blocks, 0, 0) == Some((0, 1))
      && Carries(c, s, Queue(f, 0, 0), t)
  {
    hide ToXml, Layout, Supported, Base64.Encode, HasSymbol;
    var f := FdtFile(c, s.fecOti, t);
    SizeIsExact(s.fecOti, c.render(ToXml(t)));
    FdtFileIsGood(c, s, t);
    SecondSymbol(f.meta.fecOti);
    FileHasSymbol(f, 0, 0);
    FileHasSymbol(f, 0, 1);
    FirstIdle(f);
  }

  /** The table announced when the file of an event is sent. */
  ghost function TableWith(c: Config, s: Tx, e: Event): Table
    requires e.SendingData?
  {
    FirstTable(c, s, e.location, e.contentType, e.expires, e.data, e.now)
  }

  /** A state in which the first symbol of the FDT at `h` was the last packet. */
  ghost predicate Begun(c: Config, s: Tx, h: nat, t: Table) {
    && Ready(c, s) && s.active && 0 in s.files && s.files[0] == h < |s.objects|
    && s.fdt == MarkSent(t) && var f := FdtFile(c, s.fecOti, t);
    f.Has(0, 0) && s.objects[h] == Queue(f, 0, 0)
  }

  /** A file is sent and the first packet of its FDT leaves. */
  lemma SendThenTick(c: Config, s: Tx, e: Event)
    requires e.SendingData? && Ready(c, s) && s.active && Acceptable(s, e.data)
    requires LongText(c, s.fecOti, TableWith(c, s, e))
    ensures var t, r := TableWith(c, s, e), Step(c, s, e);
      var text := TextOf(c, s.fecOti, t);
      && Orderly(c, s, e) && Receivers.CanCut(text.oti)
      && SentBy(r, SendTimer) == [ObjectPacket(s.tsi % 0x1_0000, 0, text.oti, text.data, 0, 0, text.id)]
      && r.maxPayload >= 4 && var q := SendTick(r);
      && Begun(c, q, |s.objects| + 1, t) && |q.objects| == |s.objects| + 2
      && q.fecOti == s.fecOti && q.maxPayload == s.maxPayload && q.tsi == s.tsi && q.announced == s.announced + [t]
      && q.nextToi == NextToi(s.nextToi) && q.files.Keys == s.files.Keys + {0, s.nextToi as U32}
  {
    hide Ready, FdtFile, DocumentSupported, DataFile, SentBy, SendTick, IdleFrom, ObjectPacket, ToXml;
    var t, r := TableWith(c, s, e), Step(c, s, e);
    ReadyMatchesSizes(c, s);
    SendAnnounces(c, s, e.location, e.contentType, e.expires, e.data, e.now);
    LongFdtFile(c, s, t);
    assert r.objects[|s.objects| + 1] == FdtFile(c, s.fecOti, t);
    NextFdtPacket(c, r, |s.objects| + 1, t, 0, 0);
  }

  lemma ReadyMatchesSizes(c: Config, s: Tx)
    requires Ready(c, s)
    ensures SizesMatch(s)
  {
  }

  lemma SecondPacket(c: Config, s: Tx, h: nat, t: Table)
    requires LongText(c, s.fecOti, t) && Begun(c, s, h, t)
    ensures var text := TextOf(c, s.fecOti, t);
      && Receivers.CanCut(text.oti)
      && SentBy(s, SendTimer) == [ObjectPacket(s.tsi % 0x1_0000, 0, text.oti, text.data, 0, 1, text.id)]
      && s.maxPayload >= 4 && SendTick(s).announced == s.announced
  {
    hide Ready, FdtFile, DocumentSupported, SentBy, IdleFrom, SendTick, ObjectPacket, ToXml;
    ReadyMatchesSizes(c, s);
    LongFdtFile(c, s, t);
    NextFdtPacket(c, s, h, t, 0, 1);
  }

  // ---------------------------------------------------------------------------------------------
  // Two files, one after the other
  // ---------------------------------------------------------------------------------------------

  ghost function OwnEntry(md5: Md5, toi: U16, oti: CutOti, e: Event): FileEntry
    requires e.SendingData?
  {
    DataEntry(md5, toi, oti, e.location, e.contentType, e.expires, e.data)
  }

  /** The first table of a transmitter, ... */
  ghost function FirstOf(md5: Md5, oti: CutOti, ns: FdtNamespace, e: Event): Table
    requires e.SendingData?
  {
    AddEntry(NewTable(1, oti, ns), OwnEntry(md5, 1, oti, e)).(expires := ExpiryAt(e.now))
  }

  /** ... and the one after it. */
  ghost function SecondOf(md5: Md5, oti: CutOti, ns: FdtNamespace, e: Event, e': Event): Table
    requires e.SendingData? && e'.SendingData?
  {
    AddEntry(MarkSent(FirstOf(md5, oti, ns, e)), OwnEntry(md5, 2, oti, e')).(expires := ExpiryAt(e'.now))
  }

  function TwoFiles(e: Event, e': Event): seq<Event> {
    [e, SendTimer, e', SendTimer, SendTimer]
  }

  /** Files that can be sent, the first of which has an FDT of two symbols and the second a longer one than one. */
  ghost predicate TwoSends(c: Config, oti: CutOti, ns: FdtNamespace, e: Event, e': Event) {
    && e.SendingData? && e'.SendingData? && e.data != [] && e'.data != []
    && SupportedData(oti, e.data) && SupportedData(oti, e'.data)
    && var t, u := FirstOf(c.md5, oti, ns, e), SecondOf(c.md5, oti, ns, e, e');
    && LongText(c, oti, t) && LongText(c, oti, u)
    && |c.render(ToXml(t))| <= oti.encodingSymbolLength as int + oti.encodingSymbolLength
    && |c.render(ToXml(t))| < 0x1_0000 && |c.render(ToXml(u))| < 0x1_0000
  }

  lemma TextsAreGood(c: Config, oti: CutOti, ns: FdtNamespace, e: Event, e': Event)
    requires TwoSends(c, oti, ns, e, e')
    ensures var t, u := TextOf(c, oti, FirstOf(c.md5, oti, ns, e)), TextOf(c, oti, SecondOf(c.md5, oti, ns, e, e'));
      TwoSymbolText(t) && LongerText(t, u)
  {
    hide ToXml, Supported, FirstOf, SecondOf;
    SizeIsExact(oti, c.render(ToXml(FirstOf(c.md5, oti, ns, e))));
    SizeIsExact(oti, c.render(ToXml(SecondOf(c.md5, oti, ns, e, e'))));
  }

  /**
   * A constructed transmitter sends a file, the first of two packets of its FDT, a second file, and two packets of the
   * FDT of both.
   */
  lemma TwoFilesSend(c: Config, tsi: U64, mtu: U16, tunnelled: bool, ns: FdtNamespace, e: Event, e': Event)
    requires MaxPayload(mtu, tunnelled) > 4 && TwoSends(c, ConstructedOti(mtu, tunnelled), ns, e, e')
    ensures var s, oti := Constructed(tsi, mtu, tunnelled, ns, true), ConstructedOti(mtu, tunnelled);
      var first, second := FirstOf(c.md5, oti, ns, e), SecondOf(c.md5, oti, ns, e, e');
      var t, u := TextOf(c, oti, first), TextOf(c, oti, second);
      && Receivers.CanCut(t.oti) && Receivers.CanCut(u.oti)
      && AllOrderly(c, s, TwoFiles(e, e')) && Steps(c, s, TwoFiles(e, e')).announced == [first, second]
      && SentPackets(c, s, TwoFiles(e, e')) ==
         [ObjectPacket(tsi % 0x1_0000, 0, t.oti, t.data, 0, 0, t.id),
          ObjectPacket(tsi % 0x1_0000, 0, u.oti, u.data, 0, 0, u.id),
          ObjectPacket(tsi % 0x1_0000, 0, u.oti, u.data, 0, 1, u.id)]
  {
    hide Ready, FdtFile, LongText, SentBy, SendTick, ObjectPacket, ToXml, SupportedData, TextOf, AddEntry, DataEntry,
         SendData, Orderly, SentPackets, Steps, AllOrderly;
    var s, oti := Constructed(tsi, mtu, tunnelled, ns, true), ConstructedOti(mtu, tunnelled);
    var first, second := FirstOf(c.md5, oti, ns, e), SecondOf(c.md5, oti, ns, e, e');
    ConstructedFacts(c, tsi, mtu, tunnelled, ns);
    assert TableWith(c, s, e) == first;
    SendThenTick(c, s, e);
    var s1 := Step(c, s, e);
    var s2 := SendTick(s1);
    assert TableWith(c, s2, e') == second;
    SendThenTick(c, s2, e');
    var s3 := Step(c, s2, e');
    var s4 := SendTick(s3);
    SecondPacket(c, s4, 3, second);
    FiveEvents(c, s, TwoFiles(e, e'));
    SendingIsNotSent(s, e);
    SendingIsNotSent(s2, e');
    TimerIsOrderly(c, s1);
    TimerIsOrderly(c, s3);
    TimerIsOrderly(c, s4);
  }

  lemma SendingIsNotSent(s: Tx, e: Event)
    requires e.SendingData?
    ensures SentBy(s, e) == []
  {
  }

  lemma TimerIsOrderly(c: Config, s: Tx)
    ensures Orderly(c, s, SendTimer)
  {
  }

  lemma FiveEvents(c: Config, s: Tx, events: seq<Event>)
    requires |events| == 5
    ensures var s1 := Step(c, s, events[0]);
      var s2 := Step(c, s1, events[1]);
      var s3 := Step(c, s2, events[2]);
      var s4 := Step(c, s3, events[3]);
      && Steps(c, s, events) == Step(c, s4, events[4])
      && SentPackets(c, s, events) ==
         SentBy(s, events[0]) + SentBy(s1, events[1]) + SentBy(s2, events[2]) + SentBy(s3, events[3])
         + SentBy(s4, events[4])
      && (AllOrderly(c, s, events) <==>
            && Orderly(c, s, events[0]) && Orderly(c, s1, events[1]) && Orderly(c, s2, events[2])
            && Orderly(c, s3, events[3]) && Orderly(c, s4, events[4]))
  {
    hide Step, SentBy, Orderly;
    var b, d := events[1..], events[2..];
    var f, g := events[3..], events[4..];
    assert b[1..] == d && d[1..] == f && f[1..] == g && g[1..] == [];
    var s1 := Step(c, s, events[0]);
    var s2 := Step(c, s1, events[1]);
    var s3 := Step(c, s2, events[2]);
    var s4 := Step(c, s3, events[3]);
    assert Steps(c, s, events) == Steps(c, s1, b) == Steps(c, s2, d) == Steps(c, s3, f) == Steps(c, s4, g);
    assert Steps(c, s4, g) == Step(c, s4, events[4]) && SentPackets(c, s4, g) == SentBy(s4, events[4]);
    assert AllOrderly(c, s4, g) <==> Orderly(c, s4, events[4]);
    assert AllOrderly(c, s3, f) <==> Orderly(c, s3, events[3]) && AllOrderly(c, s4, g);
    assert AllOrderly(c, s2, d) <==> Orderly(c, s2, events[2]) && AllOrderly(c, s3, f);
    assert AllOrderly(c, s1, b) <==> Orderly(c, s1, events[1]) && AllOrderly(c, s2, d);
    assert SentPackets(c, s3, f) == SentBy(s3, events[3]) + SentPackets(c, s4, g);
    assert SentPackets(c, s2, d) == SentBy(s2, events[2]) + SentPackets(c, s3, f);
    assert SentPackets(c, s1, b) == SentBy(s1, events[1]) + SentPackets(c, s2, d);
  }

  // ---------------------------------------------------------------------------------------------
  // What the receiver makes of it
  // ---------------------------------------------------------------------------------------------

  /** Packets in receive buffers that hold something else behind them. */
  ghost function InBuffers(packets: seq<seq<Byte>>, stale: seq<Byte>): seq<Receivers.Datagram> {
    seq(|packets|, i requires 0 <= i < |packets| => Receivers.Datagram(packets[i] + stale, |packets[i]|))
  }

  /**
   * Delivered in order with nothing lost, these packets make the receiver read the first symbol of the one text and the
   * second symbol of the other as one text, under the instance ID of the other, whose packets it then ignores.
   */
  lemma OvertakenTextIsParsed(
    c: Config, rc: Receivers.RxConfig, tsi: U64, mtu: U16, tunnelled: bool, ns: FdtNamespace, e: Event, e': Event,
    stale: seq<Byte>)
    requires MaxPayload(mtu, tunnelled) > 4 && TwoSends(c, ConstructedOti(mtu, tunnelled), ns, e, e')
    requires |stale| >= MAX_HEADER_BYTES
    ensures var oti := ConstructedOti(mtu, tunnelled);
      var t, u := TextOf(c, oti, FirstOf(c.md5, oti, ns, e)), TextOf(c, oti, SecondOf(c.md5, oti, ns, e, e'));
      var sent := InBuffers(SentPackets(c, Constructed(tsi, mtu, tunnelled, ns, true), TwoFiles(e, e')), stale);
      && TwoSymbolText(t) && LongerText(t, u) && Receivers.Receivable(sent)
      && var r := Receivers.Heard(rc, Receivers.NewReceiver(tsi % 0x1_0000), sent).state;
      ReadsAs(rc, r, u.id, Mixed(rc, t, u)) && !Receivers.OpensFdt(r, ReceivedHeader(tsi % 0x1_0000, 0, u.oti, u.id))
  {
    hide TextOf, FirstOf, SecondOf, SentPackets, Mixed, Receivers.Heard, ReadsAs, TwoSymbolText, LongerText,
         Constructed, ObjectPacket, ReceivedHeader, LongText, SupportedData, ToXml, AllOrderly, Steps;
    var oti := ConstructedOti(mtu, tunnelled);
    var t, u := TextOf(c, oti, FirstOf(c.md5, oti, ns, e)), TextOf(c, oti, SecondOf(c.md5, oti, ns, e, e'));
    TextsAreGood(c, oti, ns, e, e');
    TwoFilesSend(c, tsi, mtu, tunnelled, ns, e, e');
    var sent := InBuffers(SentPackets(c, Constructed(tsi, mtu, tunnelled, ns, true), TwoFiles(e, e')), stale);
    assert sent == Overtaking(tsi % 0x1_0000, t, u, stale);
    MixedTextIsParsed(rc, tsi % 0x1_0000, t, u, stale);
    LongerIsGood(t, u);
    TextHeader(tsi % 0x1_0000, u);
    ReadIsSkipped(rc, Receivers.Heard(rc, Receivers.NewReceiver(tsi % 0x1_0000), sent).state, u.id, Mixed(rc, t, u),
                  ReceivedHeader(tsi % 0x1_0000, 0, u.oti, u.id));
  }

  lemma LongerIsGood(t: Text, u: Text)
    requires LongerText(t, u)
    ensures TextGood(u)
  {
  }

  lemma ReadIsSkipped(rc: Receivers.RxConfig, r: Receivers.Rx, id: U32, text: seq<Byte>, alc: Alc)
    requires ReadsAs(rc, r, id, text) && alc.fdtInstanceId == id
    ensures !Receivers.OpensFdt(r, alc)
  {
  }

  // ---------------------------------------------------------------------------------------------
  // A printer
  // ---------------------------------------------------------------------------------------------

  ghost function Halves(e: nat, a: Byte, b: Byte): seq<Byte> {
    seq<Byte>(e, i => a) + seq<Byte>(e, i => b)
  }

  lemma HalvesDiffer(e: nat)
    requires e > 0
    ensures Halves(e, 0, 0) != Halves(e, 1, 1)
    ensures Halves(e, 0, 0) != Halves(e, 0, 1) && Halves(e, 1, 1) != Halves(e, 0, 1)
    ensures Halves(e, 0, 0)[..e] + Halves(e, 1, 1)[e..] == Halves(e, 0, 1)
  {
    assert Halves(e, 0, 0)[0] == 0 && Halves(e, 1, 1)[0] == 1 && Halves(e, 0, 1)[0] == 0;
    assert Halves(e, 0, 0)[e] == 0 && Halves(e, 0, 1)[e] == 1;
  }

  /** Prints three trees in two halves, and every other one as a given printer does, behind a longer head. */
  ghost function Printer(x: Element, y: Element, z: Element, e: nat, write: Element -> seq<Byte>)
    : Element -> seq<Byte>
  {
    tree =>
      if tree == x then Halves(e, 0, 0)
      else if tree == y then Halves(e, 1, 1)
      else if tree == z then Halves(e, 0, 1)
      else seq<Byte>(2 * e + 1, i => 0) + write(tree)
  }

  ghost function Reader(x: Element, y: Element, z: Element, e: nat, read: seq<Byte> -> Option<Element>)
    : seq<Byte> -> Option<Element>
  {
    doc =>
      if doc == Halves(e, 0, 0) then Some(x)
      else if doc == Halves(e, 1, 1) then Some(y)
      else if doc == Halves(e, 0, 1) then Some(z)
      else if |doc| > 2 * e then read(doc[2 * e + 1..])
      else None
  }

  /** The reader reads what the printer prints. */
  ghost predicate Lossless(write: Element -> seq<Byte>, read: seq<Byte> -> Option<Element>) {
    forall tree :: read(write(tree)) == Some(tree)
  }

  lemma PrinterIsLossless(
    x: Element, y: Element, z: Element, e: nat, write: Element -> seq<Byte>, read: seq<Byte> -> Option<Element>)
    requires x != y && x != z && y != z && e > 0 && Lossless(write, read)
    ensures Lossless(Printer(x, y, z, e, write), Reader(x, y, z, e, read))
  {
    HalvesDiffer(e);
    forall tree
      ensures Reader(x, y, z, e, read)(Printer(x, y, z, e, write)(tree)) == Some(tree)
    {
      var head := seq<Byte>(2 * e + 1, i => 0);
      assert (head + write(tree))[2 * e + 1..] == write(tree);
      assert read(write(tree)) == Some(tree);
    }
  }

  // ---------------------------------------------------------------------------------------------
  // The example
  // ---------------------------------------------------------------------------------------------

  const MTU: U16 := 1500

  ghost function ExampleOti(): CutOti {
    ConstructedOti(MTU, false)
  }

  /** Non-empty files that can be cut. */
  ghost predicate ExampleSends(e: Event, e': Event) {
    && e.SendingData? && e'.SendingData? && e.data != [] && e'.data != []
    && SupportedData(ExampleOti(), e.data) && SupportedData(ExampleOti(), e'.data)
  }

  ghost function ExampleTrees(md5: Md5, ns: FdtNamespace, e: Event, e': Event): (Element, Element)
    requires ExampleSends(e, e')
  {
    (ToXml(FirstOf(md5, ExampleOti(), ns, e)), ToXml(SecondOf(md5, ExampleOti(), ns, e, e')))
  }

  lemma TreesDiffer(md5: Md5, ns: FdtNamespace, e: Event, e': Event)
    requires ExampleSends(e, e')
    ensures ExampleTrees(md5, ns, e, e').0 != ExampleTrees(md5, ns, e, e').1
    ensures WireId(SecondOf(md5, ExampleOti(), ns, e, e')) == 2
  {
    hide Base64.Encode, DefaultNamespace, RootFields, FileElement;
    var (x, y) := ExampleTrees(md5, ns, e, e');
    assert |x.children| == 1 && |y.children| == 2;
  }

  lemma TwoSymbolsSupported(data: seq<Byte>)
    requires |data| == 2 * 1436
    ensures SupportedData(ExampleOti(), data)
  {
    CeilDivUnique(2 * 1436, 1436, 2);
    CeilDivUnique(2, 64, 1);
    CeilDivUnique(2, 1, 2);
  }

  /** What the printer makes of the two tables. */
  lemma ExampleTexts(c: Config, ns: FdtNamespace, e: Event, e': Event)
    requires ExampleSends(e, e')
    requires c.render(ExampleTrees(c.md5, ns, e, e').0) == Halves(1436, 0, 0)
    requires c.render(ExampleTrees(c.md5, ns, e, e').1) == Halves(1436, 1, 1)
    ensures MaxPayload(MTU, false) == 1436 && TwoSends(c, ExampleOti(), ns, e, e')
    ensures TextOf(c, ExampleOti(), FirstOf(c.md5, ExampleOti(), ns, e)).data == Halves(1436, 0, 0)
    ensures TextOf(c, ExampleOti(), SecondOf(c.md5, ExampleOti(), ns, e, e')).data == Halves(1436, 1, 1)
  {
    hide ToXml, FirstOf, SecondOf, SupportedData;
    TwoSymbolsSupported(Halves(1436, 0, 0));
    TwoSymbolsSupported(Halves(1436, 1, 1));
  }

  lemma MixedIsThird(rc: Receivers.RxConfig, t: Text, u: Text)
    requires TwoSymbolText(t) && LongerText(t, u) && t.oti.encodingSymbolLength == 1436
    requires t.data == Halves(1436, 0, 0) && u.data == Halves(1436, 1, 1)
    ensures Mixed(rc, t, u) == Halves(1436, 0, 1)
  {
    hide Mixed, Halves, TwoSymbolText, LongerText;
    HalvesDiffer(1436);
    SameHalves();
    MixedHalves(rc, t, u);
    assert Mixed(rc, t, u) == Mixed(rc, t, u)[..1436] + Mixed(rc, t, u)[1436..];
  }

  lemma SameHalves()
    ensures |Halves(1436, 0, 0)| == |Halves(1436, 1, 1)| == 2 * 1436
  {
  }

  lemma ReadsAsTable(rc: Receivers.RxConfig, r: Receivers.Rx, id: U32, text: seq<Byte>, table: Table)
    requires ReadsAs(rc, r, id, text) && rc.tokenise(text) == Some(ToXml(table))
    ensures r.fdt == Some(NormalTable(id, table))
  {
    hide ToXml, ReadTable, NormalTable;
    TableRoundTrip(id, table);
  }

  ghost function ExampleReceiver(md5: Md5, tokenise: seq<Byte> -> Option<Element>): Receivers.RxConfig {
    Receivers.RxConfig(md5, tokenise, f => Returned(f), key => i => 0, true)
  }

  lemma ExamplePrints(
    md5: Md5, write: Element -> seq<Byte>, read: seq<Byte> -> Option<Element>, ns: FdtNamespace, e: Event, e': Event,
    third: Table)
    requires Lossless(write, read) && ExampleSends(e, e')
    requires var (x, y) := ExampleTrees(md5, ns, e, e'); ToXml(third) != x && ToXml(third) != y
    ensures var (x, y) := ExampleTrees(md5, ns, e, e');
      var c := Config(md5, Printer(x, y, ToXml(third), 1436, write));
      var rc := ExampleReceiver(md5, Reader(x, y, ToXml(third), 1436, read));
      && Lossless(c.render, rc.tokenise) && rc.tokenise(Halves(1436, 0, 1)) == Some(ToXml(third))
      && MaxPayload(MTU, false) == 1436 && TwoSends(c, ExampleOti(), ns, e, e')
      && TextOf(c, ExampleOti(), FirstOf(md5, ExampleOti(), ns, e)).data == Halves(1436, 0, 0)
      && TextOf(c, ExampleOti(), SecondOf(md5, ExampleOti(), ns, e, e')).data == Halves(1436, 1, 1)
  {
    hide ToXml, FirstOf, SecondOf, TwoSends, Lossless, Halves;
    var (x, y) := ExampleTrees(md5, ns, e, e');
    TreesDiffer(md5, ns, e, e');
    PrinterIsLossless(x, y, ToXml(third), 1436, write, read);
    HalvesDiffer(1436);
    ExampleTexts(Config(md5, Printer(x, y, ToXml(third), 1436, write)), ns, e, e');
  }

  /**
   * Given any lossless printer, there is another one, lossless too, with which a transmitter that sends any two files
   * and a receiver that gets all its packets in order end with any third table one names installed, which was never
   * announced.
   */
  lemma InterleavedRunGoesWrong(
    md5: Md5, write: Element -> seq<Byte>, read: seq<Byte> -> Option<Element>, tsi: U64, ns: FdtNamespace, e: Event,
    e': Event, third: Table, stale: seq<Byte>)
    returns (c: Config, rc: Receivers.RxConfig)
    requires Lossless(write, read) && ExampleSends(e, e') && |stale| >= MAX_HEADER_BYTES
    requires var (x, y) := ExampleTrees(md5, ns, e, e'); ToXml(third) != x && ToXml(third) != y
    ensures c.md5 == rc.md5 == md5 && Lossless(c.render, rc.tokenise)
    ensures var s := Constructed(tsi, MTU, false, ns, true);
      var first, second := FirstOf(md5, ExampleOti(), ns, e), SecondOf(md5, ExampleOti(), ns, e, e');
      && AllOrderly(c, s, TwoFiles(e, e')) && Steps(c, s, TwoFiles(e, e')).announced == [first, second]
      && var sent := InBuffers(SentPackets(c, s, TwoFiles(e, e')), stale);
      && Receivers.Receivable(sent)
      && Receivers.Heard(rc, Receivers.NewReceiver(tsi % 0x1_0000), sent).state.fdt == Some(NormalTable(2, third))
  {
    hide Lossless, Printer, Reader, ToXml, TwoSends, SentPackets, Receivers.Heard, AllOrderly, Steps, Mixed, FirstOf,
         SecondOf, ReadTable, Halves, NormalTable, ReadsAs, TwoSymbolText, LongerText, Constructed, SupportedData;
    var (x, y) := ExampleTrees(md5, ns, e, e');
    c := Config(md5, Printer(x, y, ToXml(third), 1436, write));
    rc := ExampleReceiver(md5, Reader(x, y, ToXml(third), 1436, read));
    ExamplePrints(md5, write, read, ns, e, e', third);
    TreesDiffer(md5, ns, e, e');
    TwoFilesSend(c, tsi, MTU, false, ns, e, e');
    OvertakenTextIsParsed(c, rc, tsi, MTU, false, ns, e, e', stale);
    var oti := ExampleOti();
    var t, u := TextOf(c, oti, FirstOf(md5, oti, ns, e)), TextOf(c, oti, SecondOf(md5, oti, ns, e, e'));
    MixedIsThird(rc, t, u);
    var sent := InBuffers(SentPackets(c, Constructed(tsi, MTU, false, ns, true), TwoFiles(e, e')), stale);
    ReadsAsTable(rc, Receivers.Heard(rc, Receivers.NewReceiver(tsi % 0x1_0000), sent).state, 2, Mixed(rc, t, u), third);
  }
}
