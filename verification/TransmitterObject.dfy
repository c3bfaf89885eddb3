/**
 * The mutable `Transmitter` of src/Transmitter.cpp over `File` objects; each method is proved to take the step
 * module Transmitters describes.  Ghost fields number the files and remember what was observed.
 */
module TransmitterObject {
  import opened Bytes
  import opened Arithmetic
  import opened Flute
  import opened EncodingSymbols
  import opened AlcPackets
  import opened Files
  import opened FileObject
  import opened FdtXml
  import opened FdtObject
  import opened Transmitters

  /** The part of a file description the transmitter reads and changes. */
  class FileDescription {
    var tsi: Option<U64>
    var entry: FileEntry
    const data: seq<Byte>

    ghost function State(): Description
      reads this
    {
      Description(tsi, entry, data)
    }

    constructor (entry: FileEntry, data: seq<Byte>)
      ensures State() == Description(None, entry, data)
    {
      this.tsi, this.entry, this.data := None, entry, data;
    }

    method MergeFecOti(default: FecOti)
      modifies this`entry
      ensures State() == old(State()).(entry := old(entry).(fecOti := Merged(old(entry).fecOti, default)))
    {
      var own := entry.fecOti;
      if own.encodingId == 0 {
        own := own.(encodingId := default.encodingId);
      }
      if own.instanceId == 0 {
        own := own.(instanceId := default.instanceId);
      }
      if own.transferLength == 0 {
        own := own.(transferLength := default.transferLength);
      }
      if own.encodingSymbolLength == 0 {
        own := own.(encodingSymbolLength := default.encodingSymbolLength);
      }
      if own.maxSourceBlockLength == 0 {
        own := own.(maxSourceBlockLength := default.maxSourceBlockLength);
      }
      if own.maxNumberOfEncodingSymbols == 0 {
        own := own.(maxNumberOfEncodingSymbols := default.maxNumberOfEncodingSymbols);
      }
      entry := entry.(fecOti := own);
    }
  }

  class Transmitter {
    const config: Config
    const tsi: U64
    const doubles: Division
    const floats: Division
    var files: map<U32, File>
    const fdt: FileDeliveryTable
    var nextToi: U16
    var maxPayload: U32
    const fecOti: CutOti
    var active: bool
    var tunnelled: bool

    ghost var objects: seq<File>
    ghost var states: seq<FileState>
    ghost var handles: map<U32, nat>
    ghost var inFlight: multiset<Flight>
    ghost var announced: seq<Table>
    ghost var callbacks: seq<nat>

    ghost predicate Valid()
      reads `objects, `states, `files, `handles, objects, set f | f in objects :: f.buffer
    {
      Stored() && Named() && Fixed()
    }

    /** The files are distinct and in the states the machine remembers. */
    ghost predicate Stored()
      reads `objects, `states, objects, set f | f in objects :: f.buffer
    {
      && |states| == |objects|
      && (forall i, j :: 0 <= i < j < |objects| ==> objects[i] != objects[j])
      && (forall i :: 0 <= i < |objects| ==> FileFits(objects[i]) && objects[i].State() == states[i])
    }

    /** The handles name the files of the map. */
    ghost predicate Named()
      reads `objects, `files, `handles
    {
      && handles.Keys == files.Keys
      && (forall t :: t in files ==> handles[t] < |objects| && objects[handles[t]] == files[t])
    }

    ghost predicate Fixed() {
      && fecOti.encodingId == COMPACT_NO_CODE
      && Faithful(doubles, DOUBLE_PRECISION) && Faithful(floats, FLOAT_PRECISION)
    }

    ghost predicate FileFits(f: File)
      reads f`meta
    {
      f.md5 == config.md5 && f.meta.fecOti.encodingSymbolLength > 0 && f.meta.fecOti.encodingId == COMPACT_NO_CODE
    }

    ghost function State(): Tx
      reads this, fdt
    {
      Tx(tsi, handles, states, fdt.State(), nextToi, maxPayload, fecOti, active, tunnelled, inFlight, announced,
          callbacks)
    }

    /** As the source constructs it, before the first timers. */
    constructor (
      config: Config, tsi: U64, mtu: U16, tunnelled: bool, ns: FdtNamespace, active: bool, doubles: Division,
      floats: Division)
      requires MaxPayload(mtu, tunnelled) != 0
      requires Faithful(doubles, DOUBLE_PRECISION) && Faithful(floats, FLOAT_PRECISION)
      ensures Valid() && fresh(fdt) && this.config == config
      ensures State() == Constructed(tsi, mtu, tunnelled, ns, active)
    {
      var oti := ConstructedOti(mtu, tunnelled);
      var table := new FileDeliveryTable(1, oti, ns);
      this.config, this.tsi, this.doubles, this.floats := config, tsi, doubles, floats;
      files, fdt, nextToi := map[], table, 1;
      maxPayload, fecOti, this.active, this.tunnelled := MaxPayload(mtu, tunnelled), oti, active, tunnelled;
      objects, states, handles, inFlight, announced, callbacks := [], [], map[], multiset{}, [], [];
    }

    // -------------------------------------------------------------------------------------------
    // Announcing and sending
    // -------------------------------------------------------------------------------------------

    /** The table as it would be sent now is within the widths of the source. */
    ghost predicate CanAnnounce(t: Table, now: U64) {
      t.entries != [] ==> TableSupported(config, fecOti, t.(expires := ExpiryAt(now)))
    }

    /** A new file gets a handle of its own. */
    ghost method Number(file: File)
      requires Valid() && file !in objects && FileFits(file)
      modifies this`objects, this`states
      ensures Valid() && objects == old(objects) + [file] && states == old(states) + [file.State()]
    {
      objects, states := objects + [file], states + [file.State()];
    }

    /** A new file becomes known under a handle of its own, and under a TOI. */
    method Insert(toi: U32, file: File)
      requires Valid() && file !in objects && FileFits(file)
      modifies this`files, this`objects, this`states, this`handles
      ensures Valid() && objects == old(objects) + [file] && states == old(states) + [file.State()]
      ensures handles == old(handles)[toi := |old(objects)|]
    {
      hide Stored;
      Number(file);
      files, handles := files[toi := file], handles[toi := |objects| - 1];
    }

    /** The file that carries the table. */
    method FdtFileFor(now: U64) returns (file: File)
      requires Valid() && fdt.fileEntries != [] && CanAnnounce(fdt.State(), now)
      modifies fdt
      ensures Valid() && fdt.State() == old(fdt.State()).(expires := ExpiryAt(now))
      ensures fresh(file) && fresh(file.buffer) && FileFits(file)
      ensures file.State() == FdtFile(config, fecOti, fdt.State())
    {
      fdt.SetExpires(ExpiryAt(now));
      var root := fdt.Print();
      var doc := config.render(root);
      file := new File.Send(0, fecOti, "", "", ExpiryAt(now), doc, config.md5, doubles);
      file.SetFdtInstanceId(fdt.instanceId);
    }

    method SendFdt(now: U64)
      requires Valid() && CanAnnounce(fdt.State(), now)
      modifies this`files, this`objects, this`states, this`handles, this`announced, fdt
      ensures Valid() && State() == Transmitters.SendFdt(config, old(State()), now)
      ensures old(objects) <= objects
    {
      if |fdt.fileEntries| == 0 {
        return;
      }
      var file := FdtFileFor(now);
      Announce(file);
    }

    /** The FDT becomes the file at TOI 0 and counts as sent. */
    method Announce(file: File)
      requires Valid() && file !in objects && FileFits(file)
      modifies this`files, this`objects, this`states, this`handles, this`announced, fdt
      ensures Valid() && objects == old(objects) + [file]
      ensures State() == Announced(old(State()), old(fdt.State()), file.State())
    {
      Insert(0, file);
      announced := announced + [fdt.State()];
      fdt.Sent();
    }

    /** A new file, not yet known under a TOI, and its entry in the table. */
    method Record(file: File)
      requires Valid() && file !in objects && FileFits(file)
      modifies this`objects, this`states, fdt
      ensures Valid() && objects == old(objects) + [file]
      ensures State() == Recorded(old(State()), file.State())
    {
      hide Valid;
      Number(file);
      fdt.Add(file.meta);
    }

    /** `std::map::insert` */
    method InsertIfAbsent(toi: U32, file: File, ghost h: nat)
      requires Valid() && h < |objects| && objects[h] == file
      modifies this`files, this`handles
      ensures Valid() && State() == old(State()).(files := Inserted(old(handles), toi, h))
    {
      if toi !in files {
        files, handles := files[toi := file], handles[toi := h];
      }
    }

    method TakeToi() returns (toi: U16)
      modifies this`nextToi
      ensures toi == old(nextToi) && State() == ToiTaken(old(State()))
    {
      toi := nextToi;
      nextToi := if nextToi + 1 == 0x1_0000 then 1 else nextToi + 1;
    }

    /** A new file of data, to be sent under `toi`. */
    method NewDataFile(toi: U16, location: string, contentType: string, expires: U32, data: seq<Byte>)
      returns (file: File)
      requires Fixed() && SupportedData(fecOti, data)
      ensures fresh(file) && fresh(file.buffer) && FileFits(file)
      ensures file.State() == NewFile(DataEntry(config.md5, toi, fecOti, location, contentType, expires, data), data)
    {
      file := new File.Send(toi, fecOti, location, contentType, expires, data, config.md5, doubles);
    }

    /** `send` of a data buffer. */
    method Send(location: string, contentType: string, expires: U32, data: seq<Byte>, now: U64) returns (toi: U16)
      requires Valid() && SupportedData(fecOti, data)
      requires CanAnnounce(Recorded(State(), DataFile(config, State(), location, contentType, expires, data)).fdt, now)
      modifies this`files, this`objects, this`states, this`handles, this`announced, this`nextToi, fdt
      ensures Valid() && toi == old(nextToi) && old(objects) <= objects
      ensures State() == SendData(config, old(State()), location, contentType, expires, data, now)
    {
      hide Transmitters.SendFdt, DataEntry, NewFile, SupportedData, CanAnnounce, Named;
      toi := TakeToi();
      var file := NewDataFile(toi, location, contentType, expires, data);
      ghost var h := |objects|;
      Record(file);
      SendFdt(now);
      InsertIfAbsent(toi, file, h);
    }

    /** `send` of a file description without content encoding; the description is changed in place. */
    method SendFile(d: FileDescription, now: U64) returns (thrown: Option<string>)
      requires Valid() && d.entry.contentEncoding == ""
      requires var entry := DescriptionEntry(State(), d.State());
        && SupportedData(entry.fecOti, d.data)
        && CanAnnounce(Recorded(State(), DescribedFile(entry, d.data)).fdt, now)
      modifies this`files, this`objects, this`states, this`handles, this`announced, this`nextToi, fdt, d
      ensures Valid() && old(objects) <= objects
      ensures (TxOutcome(State(), thrown), d.State()) == SendDescription(config, old(State()), old(d.State()), now)
      ensures d.tsi == Some(tsi)
      ensures old(d.entry.toi == 0 || (d.tsi.Some? && d.tsi.value != tsi)) ==>
                d.entry.toi == old(nextToi) && nextToi == if old(nextToi) == 65535 then 1 else old(nextToi) + 1
      ensures !old(d.entry.toi == 0 || (d.tsi.Some? && d.tsi.value != tsi)) ==>
                d.entry.toi == old(d.entry.toi) && nextToi == old(nextToi)
    {
      hide Transmitters.SendFdt, NewFile, CanAnnounce;
      Assign(d);
      d.MergeFecOti(fecOti);
      if d.entry.fecOti.encodingId != COMPACT_NO_CODE {
        return Some("Unsupported FEC scheme");
      }
      List(d.entry, d.data, now);
      return None;
    }

    /** A new file of a description's data. */
    method NewDescribedFile(entry: FileEntry, data: seq<Byte>) returns (file: File)
      requires Fixed() && entry.contentEncoding == "" && entry.fecOti.encodingId == COMPACT_NO_CODE
      requires SupportedData(entry.fecOti, data)
      ensures fresh(file) && fresh(file.buffer) && FileFits(file)
      ensures file.State() == DescribedFile(entry, data)
    {
      file := new File.SendDescribed(entry, data, config.md5, doubles);
    }

    /** The file of an accepted description: known under its TOI, entered in the table and announced. */
    method List(entry: FileEntry, data: seq<Byte>, now: U64)
      requires Valid() && entry.contentEncoding == "" && entry.fecOti.encodingId == COMPACT_NO_CODE
      requires SupportedData(entry.fecOti, data)
      requires CanAnnounce(Recorded(State(), DescribedFile(entry, data)).fdt, now)
      modifies this`files, this`objects, this`states, this`handles, this`announced, fdt
      ensures Valid() && old(objects) <= objects
      ensures State() == Transmitters.SendFdt(config, Listed(old(State()), entry.toi, DescribedFile(entry, data)), now)
    {
      hide Transmitters.SendFdt, NewFile, CanAnnounce, Named;
      var file := NewDescribedFile(entry, data);
      ghost var h := |objects|;
      Record(file);
      InsertIfAbsent(entry.toi, file, h);
      SendFdt(now);
    }

    /** Gives a description this session and, unless it has one here already, a TOI. */
    method Assign(d: FileDescription)
      modifies this`nextToi, d
      ensures d.State() == old(d.State()).(tsi := Some(tsi),
          entry := old(d.entry).(toi := AssignedToi(old(State()), old(d.State()))))
      ensures State() == AfterAssigning(old(State()), old(d.State()))
      ensures d.tsi == Some(tsi)
      ensures old(d.entry.toi == 0 || (d.tsi.Some? && d.tsi.value != tsi)) ==>
                d.entry.toi == old(nextToi) && nextToi == if old(nextToi) == 65535 then 1 else old(nextToi) + 1
      ensures !old(d.entry.toi == 0 || (d.tsi.Some? && d.tsi.value != tsi)) ==>
                d.entry.toi == old(d.entry.toi) && nextToi == old(nextToi)
    {
      if d.tsi.Some? && d.tsi.value != tsi {
        d.entry := d.entry.(toi := 0);
      }
      d.tsi := Some(tsi);
      if d.entry.toi == 0 {
        var toi := TakeToi();
        d.entry := d.entry.(toi := toi);
      }
    }

    method FdtSendTick(now: U64)
      requires Valid() && (active ==> CanAnnounce(fdt.State(), now))
      modifies this`files, this`objects, this`states, this`handles, this`announced, fdt
      ensures Valid() && old(objects) <= objects && State() == Step(config, old(State()), FdtTimer(now))
    {
      if active {
        SendFdt(now);
      }
    }

    /** `udp_tunnel_address`, as far as the payload size is concerned; unsigned arithmetic wraps around. */
    method UdpTunnelAddress(on: bool)
      requires Valid()
      modifies this`tunnelled, this`maxPayload
      ensures Valid() && State() == SetTunnel(old(State()), on)
    {
      if on == tunnelled {
        return;
      }
      if tunnelled {
        maxPayload := (maxPayload + 20 + 8) % 0x1_0000_0000;
      } else {
        maxPayload := (maxPayload - (20 + 8)) % 0x1_0000_0000;
      }
      tunnelled := on;
    }

    // -------------------------------------------------------------------------------------------
    // Acknowledgements
    // -------------------------------------------------------------------------------------------

    /** The completion handler of a packet that was sent. */
    method HandleSent(file: File, symbols: seq<EncodingSymbol>, now: U64, ghost h: nat)
      requires Valid() && h < |objects| && objects[h] == file
      requires var marked := MarkCompleted(config.md5, states[h], symbols, true);
        marked.Returned? && marked.state.complete && file.meta.toi != 0 ==>
          CanAnnounce(RemoveEntry(fdt.State(), file.meta.toi), now)
      modifies this`files, this`objects, this`states, this`handles, this`announced, this`inFlight, this`callbacks, fdt
      modifies file`sourceBlocks, file`complete
      ensures Valid() && old(objects) <= objects
      ensures State() == Acknowledge(config, old(State()), Flight(h, symbols), now)
    {
      hide Transmitters.FileTransmitted, CanAnnounce, Files.MarkCompleted;
      inFlight := inFlight - multiset{Flight(h, symbols)};
      var thrown := Mark(file, symbols, h);
      if thrown.None? && file.complete {
        FileTransmitted(file.meta.toi, now, h);
      }
    }

    /** `mark_completed` of a file the machine knows. */
    method Mark(file: File, symbols: seq<EncodingSymbol>, ghost h: nat) returns (thrown: Option<string>)
      requires Valid() && h < |objects| && objects[h] == file
      modifies this`states, file`sourceBlocks, file`complete
      ensures Valid() && State() == old(State()).(objects := old(states)[h := file.State()])
      ensures OutcomeOf(file.State(), thrown) == MarkCompleted(config.md5, old(states[h]), symbols, true)
    {
      thrown := file.MarkCompleted(symbols, true);
      Restate(h);
    }

    /** The machine takes note of the state of a file that alone has changed. */
    ghost method Restate(h: nat)
      requires |states| == |objects| && h < |objects| && Named() && Fixed()
      requires forall i, j :: 0 <= i < j < |objects| ==> objects[i] != objects[j]
      requires forall i :: 0 <= i < |objects| ==> FileFits(objects[i]) && (i == h || objects[i].State() == states[i])
      modifies this`states
      ensures Valid() && states == old(states)[h := objects[h].State()]
    {
      states := states[h := objects[h].State()];
    }

    method Erase(toi: U32)
      requires Valid()
      modifies this`files, this`handles
      ensures Valid() && State() == old(State()).(files := old(handles) - {toi})
    {
      files, handles := files - {toi}, handles - {toi};
    }

    /** `file_transmitted` */
    method FileTransmitted(toi: U32, now: U64, ghost h: nat)
      requires Valid() && (toi != 0 ==> CanAnnounce(RemoveEntry(fdt.State(), toi), now))
      modifies this`files, this`objects, this`states, this`handles, this`announced, this`callbacks, fdt
      ensures Valid() && old(objects) <= objects
      ensures State() == Transmitters.FileTransmitted(config, old(State()), h, toi, now)
    {
      hide Transmitters.SendFdt, CanAnnounce;
      Erase(toi);
      if toi != 0 {
        fdt.Remove(toi);
        SendFdt(now);
        callbacks := callbacks + [h];
      }
    }

    // -------------------------------------------------------------------------------------------
    // Sending packets
    // -------------------------------------------------------------------------------------------

    /** The unfinished file with the lowest TOI: the map is walked in the order of its keys. */
    method FirstUnfinished() returns (toi: Option<U32>)
      requires Valid()
      ensures toi == if UnfinishedTois(State()) == {} then None else Some(Least(UnfinishedTois(State())))
      ensures toi.Some? ==> toi.value in files
    {
      var rest := files.Keys;
      while rest != {}
        invariant rest <= files.Keys && UnfinishedTois(State()) <= rest
        decreases rest
      {
        var t := Least(rest);
        if !files[t].complete {
          assert t in UnfinishedTois(State());
          return Some(t);
        }
        rest := rest - {t};
      }
      return None;
    }

    /** `get_next_symbols` of a file the machine knows. */
    method Take(file: File, ghost h: nat) returns (symbols: seq<EncodingSymbol>)
      requires Valid() && 4 <= maxPayload < FLOAT_PRECISION && h < |objects| && objects[h] == file
      modifies this`states, file`sourceBlocks
      ensures Valid() && State() == old(State()).(objects := old(states)[h := file.State()])
      ensures (file.State(), symbols) == NextBatch(old(states[h]), RequestedIn(old(State()), h))
    {
      symbols := file.GetNextSymbols(maxPayload, floats);
      Restate(h);
    }

    /** The packet of symbols just taken, which is from now on in flight. */
    method Launch(file: File, symbols: seq<EncodingSymbol>, ghost h: nat) returns (packet: seq<Byte>)
      requires Valid() && maxPayload >= 4 && symbols != [] && h < |objects| && objects[h] == file
      modifies this`inFlight
      ensures State() == old(State()).(inFlight := old(inFlight) + multiset{Flight(h, symbols)})
      ensures packet == FlightPacket(State(), Flight(h, symbols))
    {
      hide PacketBytes;
      var buffer, len := BuildPacket(tsi % 0x1_0000, file.meta.toi % 0x1_0000, file.meta.fecOti, symbols, maxPayload,
                                     file.fdtInstanceId);
      inFlight := inFlight + multiset{Flight(h, symbols)};
      packet := buffer[..len.value];
    }

    /** The part of `send_next_packet` for the file it chose. */
    method SendFrom(file: File, ghost h: nat) returns (packet: Option<seq<Byte>>, symbols: seq<EncodingSymbol>)
      requires Valid() && 4 <= maxPayload < FLOAT_PRECISION && h < |objects| && objects[h] == file
      modifies this`states, this`inFlight, file`sourceBlocks
      ensures Valid() && symbols == NextBatch(old(states[h]), RequestedIn(old(State()), h)).1
      ensures symbols == [] ==> packet.None? && State() == old(State())
      ensures symbols != [] ==>
        && packet == Some(FlightPacket(State(), Flight(h, symbols)))
        && State() == old(State()).(
             objects := old(states)[h := NextBatch(old(states[h]), RequestedIn(old(State()), h)).0],
             inFlight := old(inFlight) + multiset{Flight(h, symbols)})
    {
      hide NextBatch, FlightPacket;
      packet := None;
      symbols := Take(file, h);
      NothingTaken(old(states[h]), RequestedIn(old(State()), h));
      if symbols != [] {
        var bytes := Launch(file, symbols, h);
        packet := Some(bytes);
      }
    }

    /** `send_next_packet` up to the socket: the packet, and the file and symbols its handler will be called with. */
    method SendNextPacket() returns (packet: Option<seq<Byte>>, file: File?, symbols: seq<EncodingSymbol>)
      requires Valid() && 4 <= maxPayload < FLOAT_PRECISION
      modifies this`states, this`inFlight, (set f | f in objects)`sourceBlocks
      ensures Valid() && State() == SendTick(old(State()))
      ensures NextFlight(old(State())).None? <==> packet.None?
      ensures packet.Some? ==>
        var f := NextFlight(old(State())).value;
        && f.file < |objects| && objects[f.file] == file && symbols == f.symbols
        && packet.value == FlightPacket(State(), f)
    {
      hide NextBatch, FlightPacket, UnfinishedTois, Least, RequestedIn;
      packet, file, symbols := None, null, [];
      if !active {
        return;
      }
      var toi := FirstUnfinished();
      if toi.None? {
        return;
      }
      file := files[toi.value];
      ghost var h := handles[toi.value];
      packet, symbols := SendFrom(file, h);
    }
  }

  function TxOutcome(s: Tx, thrown: Option<string>): Outcome<Tx> {
    if thrown.Some? then Threw(s, thrown.value) else Returned(s)
  }

  lemma NothingTaken(f: FileState, n: nat)
    ensures NextBatch(f, n).1 == [] ==> NextBatch(f, n).0 == f
  {
  }
}
