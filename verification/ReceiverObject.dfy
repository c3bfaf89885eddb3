/** The mutable `Receiver` of src/Receiver.cpp over `File` objects; a packet does what module Receivers says. */
module ReceiverObject {
  import opened Bytes
  import opened Arithmetic
  import opened Flute
  import opened EncodingSymbols
  import opened AlcPackets
  import opened Files
  import opened FileObject
  import opened Completion
  import opened EndToEnd
  import opened FdtXml
  import opened FdtObject
  import opened Receivers

  /** FEC values that can cut an object do so within the widths of the source. */
  ghost predicate Fits(oti: FecOti) {
    CanCut(oti) ==> Supported(oti)
  }

  ghost predicate EntriesFit(entries: seq<FileEntry>) {
    forall i :: 0 <= i < |entries| ==> Fits(entries[i].fecOti)
  }

  /** The table in a document, if it is one, lists objects that fit. */
  ghost predicate DocumentFits(c: RxConfig, instanceId: U32, doc: seq<Byte>) {
    c.tokenise(doc).Some? && ReadTable(instanceId, c.tokenise(doc).value).Ok? ==>
      EntriesFit(ReadTable(instanceId, c.tokenise(doc).value).value.entries)
  }

  /** So does the table in the FDT that the symbols of a packet may complete. */
  ghost predicate CompletedFits(c: RxConfig, r: Rx, alc: Alc, symbols: seq<EncodingSymbol>) {
    alc.toi == 0 && 0 in r.files ==>
      DocumentFits(c, alc.fdtInstanceId, DecodedContent(c, PutAll(c.md5, r.files[0], symbols).state).state.buffer)
  }

  ghost predicate AcceptedFits(c: RxConfig, r: Rx, data: seq<Byte>, len: nat, alc: Alc)
    requires alc.HeaderLength() <= |data|
  {
    alc.toi in r.files ==>
      var symbols := PayloadSymbols(data, len, alc, r.files[alc.toi].meta.fecOti);
      symbols.Ok? ==> CompletedFits(c, r, alc, symbols.value)
  }

  /** What a packet announces, in its header or by completing an FDT, fits. */
  ghost predicate PacketFits(c: RxConfig, r: Rx, data: seq<Byte>, len: nat, alc: Alc)
    requires alc.HeaderLength() <= |data|
  {
    Fits(alc.fecOti) && (OpensFdt(r, alc) ==> CanCut(alc.fecOti)) ==>
      AcceptedFits(c, Opened(c, r, alc), data, len, alc)
  }

  class Receiver {
    const config: RxConfig
    const tsi: U64
    const doubles: Division
    const floats: Division
    var files: map<U64, File>
    var fdt: FileDeliveryTable?

    ghost var states: map<U64, FileState>
    ghost var log: seq<Observed>

    ghost predicate Valid()
      reads `files, `states, files.Values, set t | t in files :: files[t].buffer
    {
      && states.Keys == files.Keys
      && (forall t :: t in files ==> files[t].md5 == config.md5 && files[t].State() == states[t])
      && (forall t, u :: t in files && u in files && t != u ==>
            files[t] != files[u] && files[t].buffer != files[u].buffer)
    }

    ghost predicate Fixed() {
      Faithful(doubles, DOUBLE_PRECISION) && Faithful(floats, FLOAT_PRECISION)
    }

    ghost function Fdt(): Option<Table>
      reads `fdt, fdt
    {
      if fdt == null then None else Some(fdt.State())
    }

    ghost function State(): Rx
      reads this, fdt
    {
      Rx(tsi, states, Fdt(), log)
    }

    constructor (config: RxConfig, tsi: U64, doubles: Division, floats: Division)
      requires Faithful(doubles, DOUBLE_PRECISION) && Faithful(floats, FLOAT_PRECISION)
      ensures Valid() && Fixed() && this.config == config
      ensures State() == NewReceiver(tsi)
    {
      this.config, this.tsi, this.doubles, this.floats := config, tsi, doubles, floats;
      files, fdt := map[], null;
      states, log := map[], [];
    }

    // -------------------------------------------------------------------------------------------
    // Tracking files
    // -------------------------------------------------------------------------------------------

    /** A new file under a key. */
    method Insert(key: U64, file: File)
      requires Valid() && file.md5 == config.md5
      requires forall t :: t in files ==> files[t] != file && files[t].buffer != file.buffer
      modifies `files, `states
      ensures Valid() && files == old(files)[key := file] && states == old(states)[key := file.State()]
    {
      files, states := files[key := file], states[key := file.State()];
    }

    lemma StateKept(key: U64)
      requires Valid()
      ensures key in files <==> key in states
      ensures key in files ==> files[key].State() == states[key]
    {
    }

    lemma KeysKept()
      requires Valid()
      ensures files.Keys == states.Keys
    {
    }

    /** Starts the reception of an object. */
    method Start(key: U64, entry: FileEntry, now: U64)
      requires Valid() && Fixed() && CanCut(entry.fecOti) && Fits(entry.fecOti)
      modifies `files, `states
      ensures Valid() && states == old(states)[key := ReceivingFile(config, key, entry)]
      ensures key in files && files == old(files)[key := files[key]] && fresh(files[key]) && fresh(files[key].buffer)
      ensures forall t :: t in files ==>
                (t in old(files) && files[t] == old(files)[t]) || files[t].receivedAt == now
    {
      var file := new File.Receive(entry, config.md5, doubles, config.memory(key), now);
      Insert(key, file);
    }

    /** Stops tracking a file. */
    method Erase(key: U64)
      requires Valid()
      modifies `files, `states
      ensures Valid() && files == old(files) - {key} && states == old(states) - {key}
    {
      files, states := files - {key}, states - {key};
    }

    /** The machine takes note of the state of a file that alone has changed. */
    ghost method Restate(key: U64)
      requires key in files && states.Keys == files.Keys && files[key].md5 == config.md5
      requires forall t :: t in files && t != key ==> files[t].md5 == config.md5 && files[t].State() == states[t]
      requires forall t, u :: t in files && u in files && t != u ==>
                 files[t] != files[u] && files[t].buffer != files[u].buffer
      modifies `states
      ensures Valid() && states == old(states)[key := files[key].State()]
    {
      states := states[key := files[key].State()];
    }

    // -------------------------------------------------------------------------------------------
    // One packet
    // -------------------------------------------------------------------------------------------

    /** `handle_receive_from`, for the first `len` bytes of the receive buffer. */
    method HandleReceiveFrom(data: seq<Byte>, len: nat, now: U64) returns (thrown: Option<string>)
      requires Valid() && Fixed() && MAX_HEADER_BYTES <= |data| && len <= |data| && len < FLOAT_PRECISION
      requires var parsed := ParsePacket(data, len);
        parsed.Parsed? && parsed.alc.tsi == tsi && parsed.alc.HeaderLength() <= |data| ==>
          Fits(parsed.alc.fecOti) && PacketFits(config, State(), data, len, parsed.alc)
      modifies this, files.Values, set t | t in files :: files[t].buffer
      ensures Valid() && RxOutcome(State(), thrown) == Receive(config, old(State()), data, len)
      ensures var parsed := ParsePacket(data, len);
        parsed.Parsed? && parsed.alc.tsi != tsi ==> thrown.None? && State() == old(State())
      ensures forall t :: t in files ==>
                (t in old(files) && files[t] == old(files)[t]) || files[t].receivedAt == now
    {
      hide Receivers.Handle, ParsePacket, PacketFits;
      var parsed := ParseAlcPacket(data, len);
      if !parsed.Parsed? {
        return Some("not a packet");
      }
      thrown := None;
      ParseEndsAtHeaderLength(data, len);
      if parsed.alc.tsi == tsi {
        thrown := Handle(data, len, parsed.alc, now);
      }
    }

    /** A packet of this session. */
    method Handle(data: seq<Byte>, len: nat, alc: Alc, now: U64) returns (thrown: Option<string>)
      requires Valid() && Fixed() && alc.HeaderLength() <= |data| && len <= |data| && len < FLOAT_PRECISION
      requires Fits(alc.fecOti) && PacketFits(config, State(), data, len, alc)
      modifies this, files.Values, set t | t in files :: files[t].buffer
      ensures Valid() && RxOutcome(State(), thrown) == Receivers.Handle(config, old(State()), data, len, alc)
      ensures forall t :: t in files ==>
                (t in old(files) && files[t] == old(files)[t]) || files[t].receivedAt == now
    {
      hide Receivers.Accepted, OpensFdt, Receivers.Opened, CanCut, AcceptedFits;
      thrown := OpenFdt(alc, now);
      if thrown.None? {
        thrown := Accept(data, len, alc, now);
      }
    }

    /** A packet for a file that is tracked and not complete; others are discarded. */
    method Accept(data: seq<Byte>, len: nat, alc: Alc, now: U64) returns (thrown: Option<string>)
      requires Valid() && Fixed() && alc.HeaderLength() <= |data| && len <= |data| && len < FLOAT_PRECISION
      requires AcceptedFits(config, State(), data, len, alc)
      modifies this, files.Values, set t | t in files :: files[t].buffer
      ensures Valid() && RxOutcome(State(), thrown) == Accepted(config, old(State()), data, len, alc)
      ensures forall t :: t in files ==>
                (t in old(files) && files[t] == old(files)[t]) || files[t].receivedAt == now
    {
      hide Fed, PayloadSymbols, CompletedFits;
      if alc.toi !in files || files[alc.toi].complete {
        return None;
      }
      var symbols := PayloadOf(data, len, alc, files[alc.toi].meta.fecOti);
      if symbols.Err? {
        return Some(symbols.what);
      }
      thrown := Feed(alc, files[alc.toi], symbols.value, now);
    }

    /** The symbols of a packet go to a file that is tracked. */
    method Feed(alc: Alc, file: File, symbols: seq<EncodingSymbol>, now: U64) returns (thrown: Option<string>)
      requires Valid() && Fixed() && alc.toi in files && files[alc.toi] == file
      requires CompletedFits(config, State(), alc, symbols)
      modifies this, file, file.buffer
      ensures Valid() && RxOutcome(State(), thrown) == Fed(config, old(State()), alc, symbols)
      ensures forall t :: t in files ==>
                (t in old(files) && files[t] == old(files)[t]) || files[t].receivedAt == now
    {
      hide Completed, PutAll, DocumentFits, DecodedContent, Fixed;
      thrown := PutSymbols(alc.toi, file, symbols);
      if thrown.None? && file.complete {
        thrown := Complete(alc, now);
      }
    }

    /** A packet of an FDT instance that is not installed opens the file at TOI 0. */
    method OpenFdt(alc: Alc, now: U64) returns (thrown: Option<string>)
      requires Valid() && Fixed() && Fits(alc.fecOti)
      modifies `files, `states
      ensures Valid()
      ensures old(OpensFdt(State(), alc) && !CanCut(alc.fecOti)) ==>
                thrown == Some("undefined") && State() == old(State())
      ensures !old(OpensFdt(State(), alc) && !CanCut(alc.fecOti)) ==>
                thrown.None? && State() == Opened(config, old(State()), alc)
      ensures forall t :: t in files ==>
                (t in old(files) && files[t] == old(files)[t]) || (fresh(files[t]) && fresh(files[t].buffer))
      ensures forall t :: t in files ==>
                (t in old(files) && files[t] == old(files)[t]) || files[t].receivedAt == now
    {
      hide Valid, Supported;
      StateKept(0);
      thrown := None;
      if alc.toi == 0 && (fdt == null || fdt.instanceId != alc.fdtInstanceId) {
        if 0 !in files {
          if !CanCut(alc.fecOti) {
            return Some("undefined");
          }
          Start(0, FdtEntry(alc), now);
        }
      }
    }

    /** The symbols of a payload; reading in front of its end, or cutting it into nothing, is undefined. */
    method PayloadOf(data: seq<Byte>, len: nat, alc: Alc, oti: FecOti) returns (r: Result<seq<EncodingSymbol>>)
      requires Fixed() && alc.HeaderLength() <= |data| && len <= |data| && len < FLOAT_PRECISION
      ensures r == PayloadSymbols(data, len, alc, oti)
    {
      hide ParsedSymbols;
      var header := alc.HeaderLength();
      if len < header + 4 || oti.encodingSymbolLength == 0 {
        return PayloadSymbols(data, len, alc, oti);
      }
      r := FromPayload(data[header..], len - header, oti, alc.contentEncoding, floats);
      if r.Err? {
        r := PayloadSymbols(data, len, alc, oti);
      }
    }

    /** `put_symbol` for every symbol of a packet. */
    method PutSymbols(toi: U64, file: File, symbols: seq<EncodingSymbol>) returns (thrown: Option<string>)
      requires Valid() && toi in files && files[toi] == file
      modifies file`sourceBlocks, file`complete, file.buffer, `states
      ensures Valid() && State() == old(State()).(files := old(states)[toi := file.State()])
      ensures OutcomeOf(file.State(), thrown) == PutAll(config.md5, old(states[toi]), symbols)
    {
      hide PutAll;
      thrown := PutEach(file, symbols);
      Restate(toi);
    }

    static method PutEach(file: File, symbols: seq<EncodingSymbol>) returns (thrown: Option<string>)
      modifies file`sourceBlocks, file`complete, file.buffer
      ensures OutcomeOf(file.State(), thrown) == PutAll(file.md5, old(file.State()), symbols)
    {
      thrown := None;
      var i := 0;
      while i < |symbols|
        invariant 0 <= i <= |symbols| && thrown.None?
        invariant PutAll(file.md5, old(file.State()), symbols) == PutAll(file.md5, file.State(), symbols[i..])
      {
        assert symbols[i..][0] == symbols[i] && symbols[i..][1..] == symbols[i + 1..];
        thrown := file.PutSymbol(symbols[i]);
        if thrown.Some? {
          return;
        }
        i := i + 1;
      }
    }

    // -------------------------------------------------------------------------------------------
    // A complete file
    // -------------------------------------------------------------------------------------------

    /** What follows the symbol that completes a file. */
    method Complete(alc: Alc, now: U64) returns (thrown: Option<string>)
      requires Valid() && Fixed() && alc.toi in files
      requires alc.toi == 0 ==>
        DocumentFits(config, alc.fdtInstanceId, DecodedContent(config, states[0]).state.buffer)
      modifies this, files[alc.toi]
      ensures Valid() && RxOutcome(State(), thrown) == Completed(config, old(State()), alc)
      ensures forall t :: t in files ==>
                (t in old(files) && files[t] == old(files)[t]) || files[t].receivedAt == now
    {
      hide HandedOver, Prepared, DocumentFits, DecodedContent;
      thrown := Prepare(alc.toi);
      PreparedDecodes(config, old(State()), alc.toi);
      if thrown.None? {
        thrown := HandOver(alc, now);
      }
    }

    /** Other files with its content location go, then its content is decoded. */
    method Prepare(toi: U64) returns (thrown: Option<string>)
      requires Valid() && toi in files
      modifies `files, `states, files[toi]
      ensures Valid() && RxOutcome(State(), thrown) == Prepared(config, old(State()), toi)
      ensures forall t :: t in files ==> t in old(files) && files[t] == old(files)[t]
    {
      hide Replaced, DecodedContent, Valid;
      EraseReplaced(toi);
      thrown := Decode(toi);
    }

    /** What becomes of a complete file. */
    method HandOver(alc: Alc, now: U64) returns (thrown: Option<string>)
      requires Valid() && Fixed() && alc.toi in files
      requires alc.toi == 0 ==> DocumentFits(config, alc.fdtInstanceId, states[0].buffer)
      modifies this
      ensures Valid() && RxOutcome(State(), thrown) == HandedOver(config, old(State()), alc)
      ensures forall t :: t in files ==>
                (t in old(files) && files[t] == old(files)[t]) || files[t].receivedAt == now
    {
      hide Receivers.Install, DocumentFits;
      thrown := None;
      if alc.toi != 0 && config.hasCallback {
        log := log + [Delivered(alc.toi, states[alc.toi])];
        Erase(alc.toi);
      }
      if alc.toi == 0 {
        thrown := Install(alc.fdtInstanceId, now);
      }
    }

    /** The loop that erases every other file with the content location of the completed one. */
    method EraseReplaced(toi: U64)
      requires Valid() && toi in files
      modifies `files, `states
      ensures Valid() && toi in files && files[toi] == old(files)[toi]
      ensures states == Replaced(old(states), toi)
      ensures forall t :: t in files ==> t in old(files) && files[t] == old(files)[t]
    {
      var location := files[toi].meta.contentLocation;
      var rest := files.Keys;
      ghost var erased: set<U64> := {};
      while rest != {}
        invariant Valid() && rest + erased <= old(files).Keys && rest !! erased && toi !in erased
        invariant files == old(files) - erased && states == old(states) - erased
        invariant forall t :: t in old(files).Keys - rest ==>
                    (t in erased <==> t != toi && old(states)[t].meta.contentLocation == location)
        decreases rest
      {
        var t :| t in rest;
        rest := rest - {t};
        if files[t] != files[toi] && files[t].meta.contentLocation == location {
          Erase(t);
          EraseTwice(old(files), erased, t);
          EraseTwice(old(states), erased, t);
          erased := erased + {t};
        }
      }
    }

    /** `decode`: a file without content encoding is left alone. */
    method Decode(toi: U64) returns (thrown: Option<string>)
      requires Valid() && toi in files
      modifies `states, files[toi]
      ensures Valid() && toi in files && files == old(files)
      ensures OutcomeOf(files[toi].State(), thrown) == DecodedContent(config, old(states[toi]))
      ensures states == old(states)[toi := files[toi].State()]
    {
      thrown := None;
      var file := files[toi];
      if file.meta.contentEncoding != "" {
        var current := file.Snapshot();
        var decoded := config.decode(current);
        file.Become(Recoded(current, decoded.state));
        thrown := if decoded.Threw? then Some(decoded.what) else None;
      }
      Restate(toi);
    }

    /** A complete FDT is parsed and reception of its objects starts. */
    method Install(instanceId: U32, now: U64) returns (thrown: Option<string>)
      requires Valid() && Fixed() && 0 in files && DocumentFits(config, instanceId, states[0].buffer)
      modifies this
      ensures Valid() && RxOutcome(State(), thrown) == Receivers.Install(config, old(State()), instanceId)
      ensures forall t :: t in files ==>
                (t in old(files) && files[t] == old(files)[t]) || files[t].receivedAt == now
    {
      hide ReadTable, Receivers.StartAll, DocumentFits, EntriesFit, Valid;
      var table := ParseFdt(instanceId);
      if table.Err? {
        return Some(table.what);
      }
      var installed := new FileDeliveryTable.Of(table.value);
      fdt := installed;
      Erase(0);
      log := log + [Installed(table.value)];
      thrown := StartAll(installed.fileEntries, now);
    }

    /** The table in a complete FDT. */
    method ParseFdt(instanceId: U32) returns (table: Result<Table>)
      requires Valid() && 0 in files && DocumentFits(config, instanceId, states[0].buffer)
      ensures var root := config.tokenise(states[0].buffer);
        table == if root.None? then Err("undefined") else ReadTable(instanceId, root.value)
      ensures table.Ok? ==> EntriesFit(table.value.entries)
    {
      hide ReadTable, EntriesFit;
      var root := config.tokenise(files[0].buffer[..]);
      if root.None? {
        return Err("undefined");
      }
      table := FileDeliveryTable.Parse(instanceId, root.value);
    }

    /** The loop that starts reception of every listed object not tracked yet. */
    method StartAll(entries: seq<FileEntry>, now: U64) returns (thrown: Option<string>)
      requires Valid() && Fixed() && EntriesFit(entries)
      modifies `files, `states
      ensures Valid()
      ensures (if thrown.Some? then Threw(states, thrown.value) else Returned(states)) ==
              Receivers.StartAll(config, old(states), entries)
      ensures forall t :: t in files ==>
                (t in old(files) && files[t] == old(files)[t]) || files[t].receivedAt == now
    {
      hide Supported;
      thrown := None;
      var i := 0;
      while i < |entries|
        invariant 0 <= i <= |entries| && Valid()
        invariant forall t :: t in files ==>
                    (t in old(files) && files[t] == old(files)[t]) || files[t].receivedAt == now
        invariant Receivers.StartAll(config, old(states), entries) == Receivers.StartAll(config, states, entries[i..])
      {
        assert entries[i..][0] == entries[i] && entries[i..][1..] == entries[i + 1..];
        var e := entries[i];
        if e.toi !in files {
          if !CanCut(e.fecOti) {
            return Some("undefined");
          }
          Start(e.toi, e, now);
        }
        i := i + 1;
      }
    }

    // -------------------------------------------------------------------------------------------
    // Removals
    // -------------------------------------------------------------------------------------------

    /** `remove_file_with_content_location` */
    method RemoveFileWithContentLocation(location: string)
      requires Valid()
      modifies `files, `states
      ensures Valid() && State() == RemoveLocation(old(State()), location)
      ensures forall t :: t in files ==> t in old(files) && files[t] == old(files)[t]
      ensures forall t :: t in old(files) ==> (t in files <==> old(states)[t].meta.contentLocation != location)
    {
      hide Valid;
      KeysKept();
      var rest := files.Keys;
      ghost var erased: set<U64> := {};
      while rest != {}
        invariant Valid() && rest + erased <= old(files).Keys && rest !! erased
        invariant files == old(files) - erased && states == old(states) - erased
        invariant forall t :: t in old(files).Keys - rest ==>
                    (t in erased <==> old(states)[t].meta.contentLocation == location)
        decreases rest
      {
        var t :| t in rest;
        rest := rest - {t};
        StateKept(t);
        if files[t].meta.contentLocation == location {
          Erase(t);
          EraseTwice(old(files), erased, t);
          EraseTwice(old(states), erased, t);
          erased := erased + {t};
        }
      }
      assert states == RemoveLocation(old(State()), location).files;
    }

    /** The files older than an age, by the time they were created at. */
    ghost function OlderThan(maxAge: U32, now: U64): set<U64>
      reads `files
    {
      set t | t in files && (now - files[t].receivedAt) % 0x1_0000_0000_0000_0000 > maxAge
    }

    /** `remove_expired_files`, with one reading of the clock. */
    method RemoveExpiredFiles(maxAge: U32, now: U64)
      requires Valid()
      modifies `files, `states
      ensures Valid() && State() == RemoveExpired(old(State()), old(OlderThan(maxAge, now)))
      ensures forall t :: t in files ==> t in old(files) && files[t] == old(files)[t]
      ensures forall t :: t in old(files) ==>
                (t in files <==>
                  || old(states)[t].meta.contentLocation == "bootstrap.multipart"
                  || (now - old(files)[t].receivedAt) % 0x1_0000_0000_0000_0000 <= maxAge)
    {
      hide Valid;
      KeysKept();
      ghost var expired := OlderThan(maxAge, now);
      var rest := files.Keys;
      ghost var erased: set<U64> := {};
      while rest != {}
        invariant Valid() && rest + erased <= old(files).Keys && rest !! erased
        invariant files == old(files) - erased && states == old(states) - erased
        invariant forall t :: t in old(files).Keys - rest ==>
                    (t in erased <==> t in expired && old(states)[t].meta.contentLocation != BOOTSTRAP)
        decreases rest
      {
        var t :| t in rest;
        rest := rest - {t};
        StateKept(t);
        var age := (now - files[t].receivedAt) % 0x1_0000_0000_0000_0000;
        if files[t].meta.contentLocation != BOOTSTRAP && age > maxAge {
          Erase(t);
          EraseTwice(old(files), erased, t);
          EraseTwice(old(states), erased, t);
          erased := erased + {t};
        }
      }
      assert states == RemoveExpired(old(State()), expired).files;
    }
  }

  /** The decoded content is what the file is left with. */
  lemma PreparedDecodes(c: RxConfig, r: Rx, toi: U64)
    requires toi in r.files
    ensures Prepared(c, r, toi).state.files[toi] == DecodedContent(c, r.files[toi]).state
  {
  }

  lemma EraseTwice<V>(m: map<U64, V>, erased: set<U64>, t: U64)
    ensures m - erased - {t} == m - (erased + {t})
  {
  }

  function RxOutcome(s: Rx, thrown: Option<string>): Outcome<Rx> {
    if thrown.Some? then Threw(s, thrown.value) else Returned(s)
  }
}
