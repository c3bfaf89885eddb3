/** The receiver as a machine over packets (src/Receiver.cpp). */
module Receivers {
  import opened Bytes
  import opened Flute
  import opened EncodingSymbols
  import opened AlcPackets
  import opened Files
  import opened Completion
  import opened EndToEnd
  import opened Xml
  import opened FdtXml

  /**
   * The surroundings: the hash, the XML tokenizer, the decoder of encoded contents, what freshly allocated memory
   * holds for each object, and whether a completion callback is registered.
   */
  datatype RxConfig = RxConfig(
    md5: Md5,
    tokenise: seq<Byte> -> Option<Element>,
    decode: FileState -> Outcome<FileState>,
    memory: U64 -> nat -> Byte,
    hasCallback: bool)

  /** What can be observed: a table was installed, or a file was handed to the callback. */
  datatype Observed = Installed(table: Table) | Delivered(toi: U64, file: FileState)

  datatype Rx = Rx(
    tsi: U64,
    files: map<U64, FileState>,
    fdt: Option<Table>,
    log: seq<Observed>)

  function NewReceiver(tsi: U64): Rx {
    Rx(tsi, map[], None, [])
  }

  /** A file for an entry, over freshly allocated memory. */
  function ReceivingFile(c: RxConfig, key: U64, entry: FileEntry): FileState
    requires entry.fecOti.encodingSymbolLength > 0 && entry.fecOti.maxSourceBlockLength > 0
  {
    NewFile(entry, Fill(entry.fecOti.transferLength, c.memory(key)))
  }

  predicate CanCut(oti: FecOti) {
    oti.encodingSymbolLength > 0 && oti.maxSourceBlockLength > 0
  }

  // ---------------------------------------------------------------------------------------------
  // Starting to receive
  // ---------------------------------------------------------------------------------------------

  /** The entry made up for an FDT that is announced by its own header. */
  function FdtEntry(alc: Alc): FileEntry {
    FileEntry(0, "", alc.fecOti.transferLength % 0x1_0000_0000, "", "", 0, alc.fecOti, false, None, "", "")
  }

  /** A packet of another FDT instance than the installed one opens a file at TOI 0, unless there is one. */
  predicate OpensFdt(r: Rx, alc: Alc) {
    alc.toi == 0 && (r.fdt.None? || r.fdt.value.instanceId != alc.fdtInstanceId) && 0 !in r.files
  }

  function Opened(c: RxConfig, r: Rx, alc: Alc): Rx
    requires OpensFdt(r, alc) ==> CanCut(alc.fecOti)
  {
    if OpensFdt(r, alc) then
      r.(files := r.files[0 := ReceivingFile(c, 0, FdtEntry(alc))])
    else r
  }

  /** Starts reception of every listed object that is not tracked yet. */
  function StartAll(c: RxConfig, files: map<U64, FileState>, entries: seq<FileEntry>): Outcome<map<U64, FileState>>
    decreases |entries|
  {
    if entries == [] then Returned(files)
    else
      var e := entries[0];
      if e.toi in files then StartAll(c, files, entries[1..])
      else if !CanCut(e.fecOti) then Threw(files, "undefined")
      else StartAll(c, files[e.toi := ReceivingFile(c, e.toi, e)], entries[1..])
  }

  // ---------------------------------------------------------------------------------------------
  // Completing
  // ---------------------------------------------------------------------------------------------

  /** Any other file with the content location of the completed one is replaced by it. */
  function Replaced(files: map<U64, FileState>, toi: U64): map<U64, FileState>
    requires toi in files
  {
    map t | t in files && (t == toi || files[t].meta.contentLocation != files[toi].meta.contentLocation) :: files[t]
  }

  /** What the decoder leaves behind: buffer, content length and, where the digest does not match, flags. */
  function Recoded(f: FileState, decoded: FileState): FileState {
    decoded.(meta := f.meta.(contentLength := decoded.meta.contentLength))
  }

  /** `decode`, which leaves a file without content encoding alone. */
  function DecodedContent(c: RxConfig, f: FileState): Outcome<FileState> {
    if f.meta.contentEncoding == "" then Returned(f)
    else
      match c.decode(f)
      case Returned(g) => Returned(Recoded(f, g))
      case Threw(g, what) => Threw(Recoded(f, g), what)
  }

  /** A complete FDT is parsed and its objects are received; a text that is not XML has no root, which is undefined. */
  function Install(c: RxConfig, r: Rx, instanceId: U32): Outcome<Rx>
    requires 0 in r.files
  {
    var root := c.tokenise(r.files[0].buffer);
    if root.None? then Threw(r, "undefined")
    else
      var table := ReadTable(instanceId, root.value);
      if table.Err? then Threw(r, table.what)
      else
        var started := StartAll(c, r.files - {0}, table.value.entries);
        var r1 := r.(files := started.state, fdt := Some(table.value),
                     log := r.log + [Installed(table.value)]);
        if started.Threw? then Threw(r1, started.what) else Returned(r1)
  }

  function Deliver(r: Rx, toi: U64): Rx
    requires toi in r.files
  {
    r.(files := r.files - {toi}, log := r.log + [Delivered(toi, r.files[toi])])
  }

  /** What becomes of a complete file: an FDT is installed, an object handed to the callback, if any. */
  function HandedOver(c: RxConfig, r: Rx, alc: Alc): Outcome<Rx>
    requires alc.toi in r.files
  {
    if alc.toi == 0 then Install(c, r, alc.fdtInstanceId)
    else if c.hasCallback then Returned(Deliver(r, alc.toi))
    else Returned(r)
  }

  /** Other files with its content location go, then its content is decoded. */
  function Prepared(c: RxConfig, r: Rx, toi: U64): (p: Outcome<Rx>)
    requires toi in r.files
    ensures toi in p.state.files
  {
    var kept := Replaced(r.files, toi);
    var decoded := DecodedContent(c, kept[toi]);
    var r1 := r.(files := kept[toi := decoded.state]);
    if decoded.Threw? then Threw(r1, decoded.what) else Returned(r1)
  }

  /** What follows the symbol that completes a file. */
  function Completed(c: RxConfig, r: Rx, alc: Alc): Outcome<Rx>
    requires alc.toi in r.files
  {
    var prepared := Prepared(c, r, alc.toi);
    if prepared.Threw? then prepared else HandedOver(c, prepared.state, alc)
  }

  // ---------------------------------------------------------------------------------------------
  // One packet
  // ---------------------------------------------------------------------------------------------

  /** The symbols of a packet go to a file that is tracked. */
  function Fed(c: RxConfig, r: Rx, alc: Alc, symbols: seq<EncodingSymbol>): Outcome<Rx>
    requires alc.toi in r.files
  {
    var put := PutAll(c.md5, r.files[alc.toi], symbols);
    var r1 := r.(files := r.files[alc.toi := put.state]);
    if put.Threw? then Threw(r1, put.what)
    else if put.state.complete then Completed(c, r1, alc)
    else Returned(r1)
  }

  /** A packet for a file that is tracked and not complete; others are discarded. */
  function Accepted(c: RxConfig, r: Rx, data: seq<Byte>, len: nat, alc: Alc): Outcome<Rx>
    requires alc.HeaderLength() <= |data|
  {
    if alc.toi !in r.files || r.files[alc.toi].complete then Returned(r)
    else
      var symbols := PayloadSymbols(data, len, alc, r.files[alc.toi].meta.fecOti);
      if symbols.Err? then Threw(r, symbols.what) else Fed(c, r, alc, symbols.value)
  }

  /** A packet whose header was parsed, for this session. */
  function Handle(c: RxConfig, r: Rx, data: seq<Byte>, len: nat, alc: Alc): Outcome<Rx>
    requires alc.HeaderLength() <= |data|
  {
    if OpensFdt(r, alc) && !CanCut(alc.fecOti) then Threw(r, "undefined")
    else Accepted(c, Opened(c, r, alc), data, len, alc)
  }

  /** `handle_receive_from`, for the first `len` bytes of the receive buffer. */
  function Receive(c: RxConfig, r: Rx, data: seq<Byte>, len: nat): Outcome<Rx>
    requires |data| >= MAX_HEADER_BYTES
  {
    var parsed := ParsePacket(data, len);
    if !parsed.Parsed? then Threw(r, "not a packet")
    else if parsed.alc.tsi != r.tsi then Returned(r)
    else
      ParseEndsAtHeaderLength(data, len);
      Handle(c, r, data, len, parsed.alc)
  }

  // ---------------------------------------------------------------------------------------------
  // Runs
  // ---------------------------------------------------------------------------------------------

  /** What is thrown as a `std::exception`; everything else is thrown as a string literal. */
  predicate IsException(what: string) {
    || what == "stoull: invalid argument" || what == "stoull: out of range"
    || what == "Input is not valid base64-encoded data."
  }

  /**
   * The handler asks for the next packet, unless something that is not an exception got out of it
   * (src/Receiver.cpp:134-142).
   */
  predicate ListensOn(o: Outcome<Rx>) {
    o.Returned? || IsException(o.what)
  }

  /** A receive buffer and the number of bytes received. */
  datatype Datagram = Datagram(data: seq<Byte>, len: nat)

  ghost predicate Receivable(datagrams: seq<Datagram>) {
    forall i :: 0 <= i < |datagrams| ==> |datagrams[i].data| >= MAX_HEADER_BYTES
  }

  /** The outcome of a run of packets, which ends where the receiver does not listen on. */
  ghost function Heard(c: RxConfig, r: Rx, datagrams: seq<Datagram>): Outcome<Rx>
    requires Receivable(datagrams)
    decreases |datagrams|
  {
    if datagrams == [] then Returned(r)
    else
      var o := Receive(c, r, datagrams[0].data, datagrams[0].len);
      if ListensOn(o) then Heard(c, o.state, datagrams[1..]) else o
  }

  // ---------------------------------------------------------------------------------------------
  // Removals
  // ---------------------------------------------------------------------------------------------

  /** `remove_file_with_content_location` */
  function RemoveLocation(r: Rx, location: string): Rx {
    r.(files := map t | t in r.files && r.files[t].meta.contentLocation != location :: r.files[t])
  }

  const BOOTSTRAP := "bootstrap.multipart"

  /** `remove_expired_files`, with the files that are older than the given age given as their TOIs. */
  function RemoveExpired(r: Rx, expired: set<U64>): Rx {
    r.(files := map t | t in r.files && (t !in expired || r.files[t].meta.contentLocation == BOOTSTRAP) :: r.files[t])
  }
}
