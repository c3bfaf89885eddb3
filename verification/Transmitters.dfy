/**
 * The transmitter as a machine (src/Transmitter.cpp:459-805).  Its shared files live in a store and are named
 * by handles, so that a packet in flight keeps naming the file it was cut from after `_files` has dropped it.
 */
module Transmitters {
  import opened Bytes
  import opened Flute
  import opened EncodingSymbols
  import opened AlcPackets
  import opened Files
  import opened Xml
  import opened FdtXml
  import opened FdtObject

  /** FEC values that can cut a file. */
  type CutOti = o: FecOti | o.encodingSymbolLength > 0 && o.maxSourceBlockLength > 0 witness FecOti(0, 0, 0, 1, 1, 0)

  /** The surroundings: the hash, and the printer that turns an element tree into text. */
  datatype Config = Config(md5: Md5, render: Element -> seq<Byte>)

  /** A packet handed to the socket and not yet acknowledged. */
  datatype Flight = Flight(file: nat, symbols: seq<EncodingSymbol>)

  datatype Tx = Tx(
    tsi: U64,
    files: map<U32, nat>,
    objects: seq<FileState>,
    fdt: Table,
    nextToi: U16,
    maxPayload: U32,
    fecOti: CutOti,
    active: bool,
    tunnelled: bool,
    inFlight: multiset<Flight>,
    // observed: the tables queued for sending, and the handles the completion callback was called for
    announced: seq<Table>,
    callbacks: seq<nat>)

  const FDT_REPEAT_INTERVAL: nat := 5

  /** The bytes of the headers a UDP tunnel adds. */
  const TUNNEL_OVERHEAD := 28

  /**
   * The payload size of the constructor: the MTU less IPv4, UDP, ALC and FEC headers (and the tunnel's), which
   * wraps around for a smaller MTU.
   */
  function MaxPayload(mtu: U16, tunnelled: bool): U32 {
    (mtu - 20 - 8 - 32 - 4 - (if tunnelled then TUNNEL_OVERHEAD else 0)) % 0x1_0000_0000
  }

  function ConstructedOti(mtu: U16, tunnelled: bool): CutOti
    requires MaxPayload(mtu, tunnelled) != 0
  {
    FecOti(COMPACT_NO_CODE, 0, 0, MaxPayload(mtu, tunnelled), 64, 0)
  }

  function Constructed(tsi: U64, mtu: U16, tunnelled: bool, ns: FdtNamespace, active: bool): Tx
    requires MaxPayload(mtu, tunnelled) != 0
  {
    var oti := ConstructedOti(mtu, tunnelled);
    Tx(tsi, map[], [], NewTable(1, oti, ns), 1, MaxPayload(mtu, tunnelled), oti, active, tunnelled, multiset{}, [], [])
  }

  // ---------------------------------------------------------------------------------------------
  // Announcing
  // ---------------------------------------------------------------------------------------------

  function ExpiryAt(now: U64): U64 {
    (now + 2 * FDT_REPEAT_INTERVAL) % 0x1_0000_0000_0000_0000
  }

  /** The file that carries a table. */
  function FdtFile(c: Config, oti: CutOti, t: Table): FileState {
    var doc := c.render(ToXml(t));
    NewFile(DataEntry(c.md5, 0, oti, "", "", t.expires, doc), doc).(fdtInstanceId := WireId(t))
  }

  /** `send_fdt`: replaces whatever is queued as TOI 0. */
  function SendFdt(c: Config, s: Tx, now: U64): Tx {
    if s.fdt.entries == [] then s
    else
      var t := s.fdt.(expires := ExpiryAt(now));
      Announced(s, t, FdtFile(c, s.fecOti, t))
  }

  /** The text of a table can be cut within the widths of the source. */
  ghost predicate TableSupported(c: Config, oti: CutOti, t: Table) {
    SupportedData(oti, c.render(ToXml(t)))
  }

  function Announced(s: Tx, t: Table, file: FileState): Tx {
    s.(files := s.files[0 := |s.objects|],
       objects := s.objects + [file],
       fdt := MarkSent(t),
       announced := s.announced + [t])
  }

  // ---------------------------------------------------------------------------------------------
  // Sending
  // ---------------------------------------------------------------------------------------------

  function NextToi(toi: U16): U16 {
    if toi + 1 == 0x1_0000 then 1 else toi + 1
  }

  /** `std::map::insert`: an existing key keeps its value. */
  function Inserted(files: map<U32, nat>, toi: U32, h: nat): map<U32, nat> {
    if toi in files then files else files[toi := h]
  }

  /** A new file and its entry in the table; the file is not yet known under a TOI. */
  function Recorded(s: Tx, file: FileState): Tx {
    s.(objects := s.objects + [file], fdt := AddEntry(s.fdt, file.meta))
  }

  /** `_toi` handed out and moved on. */
  function ToiTaken(s: Tx): Tx {
    s.(nextToi := NextToi(s.nextToi))
  }

  function DataFile(c: Config, s: Tx, location: string, contentType: string, expires: U32, data: seq<Byte>): FileState {
    NewFile(DataEntry(c.md5, s.nextToi, s.fecOti, location, contentType, expires, data), data)
  }

  /** `send` of a data buffer. */
  function SendData(c: Config, s: Tx, location: string, contentType: string, expires: U32, data: seq<Byte>, now: U64)
    : Tx
  {
    var file := DataFile(c, s, location, contentType, expires, data);
    var sent := SendFdt(c, Recorded(ToiTaken(s), file), now);
    sent.(files := Inserted(sent.files, s.nextToi, |s.objects|))
  }

  /** A file description: the session it was last sent in, its entry and its content. */
  datatype Description = Description(tsi: Option<U64>, entry: FileEntry, data: seq<Byte>)

  /** `merge_fec_oti` takes over what is not set. */
  function Merged(own: FecOti, default: FecOti): FecOti {
    FecOti(
      if own.encodingId == 0 then default.encodingId else own.encodingId,
      if own.instanceId == 0 then default.instanceId else own.instanceId,
      if own.transferLength == 0 then default.transferLength else own.transferLength,
      if own.encodingSymbolLength == 0 then default.encodingSymbolLength else own.encodingSymbolLength,
      if own.maxSourceBlockLength == 0 then default.maxSourceBlockLength else own.maxSourceBlockLength,
      if own.maxNumberOfEncodingSymbols == 0 then default.maxNumberOfEncodingSymbols
      else own.maxNumberOfEncodingSymbols)
  }

  /** The TOI of a description is kept within its session and assigned anew in another one. */
  function AssignedToi(s: Tx, d: Description): U32 {
    var kept := if d.tsi.Some? && d.tsi.value != s.tsi then 0 else d.entry.toi;
    if kept == 0 then s.nextToi else kept
  }

  function DescriptionEntry(s: Tx, d: Description): FileEntry {
    d.entry.(toi := AssignedToi(s, d), fecOti := Merged(d.entry.fecOti, s.fecOti))
  }

  predicate NeedsToi(s: Tx, d: Description) {
    (d.tsi.Some? && d.tsi.value != s.tsi) || d.entry.toi == 0
  }

  function AfterAssigning(s: Tx, d: Description): Tx {
    if NeedsToi(s, d) then ToiTaken(s) else s
  }

  /** A new file known under a TOI, unless that is in use, and its entry in the table. */
  function Listed(s: Tx, toi: U32, file: FileState): Tx {
    Recorded(s, file).(files := Inserted(s.files, toi, |s.objects|))
  }

  function DescribedFile(entry: FileEntry, data: seq<Byte>): FileState
    requires entry.fecOti.encodingSymbolLength > 0 && entry.fecOti.maxSourceBlockLength > 0
  {
    NewFile(entry.(fecOti := Sized(entry.fecOti, data)), data)
  }

  /** `send` of a file description; the description comes back with its session, TOI and FEC values set. */
  function SendDescription(c: Config, s: Tx, d: Description, now: U64): (Outcome<Tx>, Description) {
    var entry := DescriptionEntry(s, d);
    var s1 := AfterAssigning(s, d);
    var d1 := Description(Some(s.tsi), entry, d.data);
    if entry.fecOti.encodingId != COMPACT_NO_CODE then (Threw(s1, "Unsupported FEC scheme"), d1)
    else (Returned(SendFdt(c, Listed(s1, entry.toi, DescribedFile(entry, d.data)), now)), d1)
  }

  // ---------------------------------------------------------------------------------------------
  // Packets
  // ---------------------------------------------------------------------------------------------

  /** A handle in use and its file not complete. */
  predicate Unfinished(s: Tx, toi: U32) {
    toi in s.files && s.files[toi] < |s.objects| && !s.objects[s.files[toi]].complete
  }

  function UnfinishedTois(s: Tx): set<U32> {
    set t | t in s.files && Unfinished(s, t)
  }

  lemma {:induction false} LeastOf(ts: set<U32>) returns (least: U32)
    requires ts != {}
    ensures least in ts && forall u :: u in ts ==> least <= u
  {
    var t :| t in ts;
    least := t;
    var rest := ts - {t};
    assert ts == {t} + rest;
    if rest != {} {
      var u := LeastOf(rest);
      least := if t < u then t else u;
    }
  }

  lemma LeastExists(ts: set<U32>)
    requires ts != {}
    ensures exists t :: t in ts && forall u :: u in ts ==> t <= u
  {
    var t := LeastOf(ts);
  }

  function Least(ts: set<U32>): (t: U32)
    requires ts != {}
    ensures t in ts && forall u :: u in ts ==> t <= u
  {
    LeastExists(ts);
    var t :| t in ts && forall u :: u in ts ==> t <= u;
    t
  }

  /** What the send tick hands to the socket: the next symbols of the unfinished file with the lowest TOI. */
  function NextFlight(s: Tx): Option<Flight>
    requires s.maxPayload >= 4
  {
    if !s.active || UnfinishedTois(s) == {} then None
    else
      var h := s.files[Least(UnfinishedTois(s))];
      var batch := NextBatch(s.objects[h], RequestedIn(s, h)).1;
      if batch == [] then None else Some(Flight(h, batch))
  }

  function RequestedIn(s: Tx, h: nat): nat
    requires s.maxPayload >= 4 && h < |s.objects|
  {
    var e := s.objects[h].meta.fecOti.encodingSymbolLength;
    if e == 0 then 0 else RequestedSymbols(s.maxPayload, e)
  }

  /** `send_next_packet`, without the timer it sets for the next one. */
  function SendTick(s: Tx): Tx
    requires s.maxPayload >= 4
  {
    match NextFlight(s)
    case None => s
    case Some(f) =>
      s.(objects := s.objects[f.file := NextBatch(s.objects[f.file], RequestedIn(s, f.file)).0],
         inFlight := s.inFlight + multiset{f})
  }

  /** The packet of a flight. */
  function FlightPacket(s: Tx, f: Flight): seq<Byte>
    requires f.file < |s.objects| && f.symbols != []
  {
    var file := s.objects[f.file];
    PacketBytes(s.tsi % 0x1_0000, file.meta.toi % 0x1_0000, file.meta.fecOti, f.symbols, s.maxPayload,
        file.fdtInstanceId)
  }

  // ---------------------------------------------------------------------------------------------
  // Acknowledgements
  // ---------------------------------------------------------------------------------------------

  /** `file_transmitted`: whatever sits at the key is erased. */
  function FileTransmitted(c: Config, s: Tx, h: nat, toi: U32, now: U64): Tx {
    var s1 := s.(files := s.files - {toi});
    if toi == 0 then s1
    else
      var s2 := SendFdt(c, s1.(fdt := RemoveEntry(s1.fdt, toi)), now);
      s2.(callbacks := s2.callbacks + [h])
  }

  /** The completion handler of a packet that was sent. */
  function Acknowledge(c: Config, s: Tx, f: Flight, now: U64): Tx {
    var s1 := s.(inFlight := s.inFlight - multiset{f});
    if f.file >= |s.objects| then s1
    else
      var marked := MarkCompleted(c.md5, s.objects[f.file], f.symbols, true);
      var file := marked.state;
      var s2 := s1.(objects := s1.objects[f.file := file]);
      if marked.Returned? && file.complete then FileTransmitted(c, s2, f.file, file.meta.toi, now) else s2
  }

  // ---------------------------------------------------------------------------------------------
  // Runs
  // ---------------------------------------------------------------------------------------------

  datatype Event =
    | SendingData(location: string, contentType: string, expires: U32, data: seq<Byte>, now: U64)
    | SendingDescription(description: Description, now: U64)
    | FdtTimer(now: U64)
    | SendTimer
    | Acknowledged(flight: Flight, now: U64)
    | SendFailed(flight: Flight)
    | Tunnel(on: bool)
    | Activation(on: bool)

  /** Toggling the tunnel changes the payload size, not the symbol length; the size wraps around. */
  function SetTunnel(s: Tx, on: bool): Tx {
    if on == s.tunnelled then s
    else
      var change := if on then -TUNNEL_OVERHEAD else TUNNEL_OVERHEAD;
      s.(tunnelled := on, maxPayload := (s.maxPayload + change) % 0x1_0000_0000)
  }

  function Step(c: Config, s: Tx, e: Event): Tx {
    match e
    case SendingData(location, contentType, expires, data, now) =>
      SendData(c, s, location, contentType, expires, data, now)
    case SendingDescription(d, now) => SendDescription(c, s, d, now).0.state
    case FdtTimer(now) => if s.active then SendFdt(c, s, now) else s
    case SendTimer => if s.maxPayload >= 4 then SendTick(s) else s
    case Acknowledged(f, now) => if f in s.inFlight then Acknowledge(c, s, f, now) else s
    case SendFailed(f) => s.(inFlight := s.inFlight - multiset{f})
    case Tunnel(on) => SetTunnel(s, on)
    case Activation(on) => s.(active := on)
  }

  function Steps(c: Config, s: Tx, events: seq<Event>): Tx
    decreases |events|
  {
    if events == [] then s else Steps(c, Step(c, s, events[0]), events[1..])
  }

  /** What an event hands to the socket. */
  function SentBy(s: Tx, e: Event): seq<seq<Byte>> {
    if e.SendTimer? && s.maxPayload >= 4 && NextFlight(s).Some? then [FlightPacket(s, NextFlight(s).value)] else []
  }

  /** The packets handed to the socket over a run, in order. */
  function SentPackets(c: Config, s: Tx, events: seq<Event>): seq<seq<Byte>>
    decreases |events|
  {
    if events == [] then [] else SentBy(s, events[0]) + SentPackets(c, Step(c, s, events[0]), events[1..])
  }
}
