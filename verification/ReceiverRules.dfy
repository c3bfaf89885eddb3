/**
 * What a receiver does with a packet or a removal, field by field (src/Receiver.cpp:56-184): when a file is opened,
 * when a packet is passed over, and what stays.
 */
module ReceiverRules {
  import opened Bytes
  import opened Flute
  import opened AlcPackets
  import opened Files
  import opened EndToEnd
  import opened Receivers

  /** A packet of this session, with its header. */
  ghost predicate IsPacket(r: Rx, data: seq<Byte>, len: nat, alc: Alc) {
    && |data| >= MAX_HEADER_BYTES && ParsePacket(data, len).Parsed? && ParsePacket(data, len).alc == alc
    && alc.tsi == r.tsi
  }

  /** A packet for an object that is not tracked, or is complete already, changes nothing. */
  lemma UnwantedPacketIgnored(c: RxConfig, r: Rx, data: seq<Byte>, len: nat, alc: Alc)
    requires IsPacket(r, data, len, alc) && alc.toi != 0
    requires alc.toi !in r.files || r.files[alc.toi].complete
    ensures Receive(c, r, data, len) == Returned(r)
  {
    hide ParsePacket;
    ParseEndsAtHeaderLength(data, len);
  }

  /** So does a packet of the installed FDT instance, and one for an FDT that is complete but could not be read. */
  lemma InstalledInstanceIgnored(c: RxConfig, r: Rx, data: seq<Byte>, len: nat, alc: Alc)
    requires IsPacket(r, data, len, alc) && alc.toi == 0
    requires if 0 in r.files then r.files[0].complete else r.fdt.Some? && r.fdt.value.instanceId == alc.fdtInstanceId
    ensures Receive(c, r, data, len) == Returned(r)
  {
    hide ParsePacket;
    ParseEndsAtHeaderLength(data, len);
  }

  /** The file at TOI 0: named by nothing, sized and cut as the header says, with nothing in it. */
  ghost predicate IsOpenedFor(f: FileState, alc: Alc)
    requires alc.fecOti.encodingSymbolLength > 0 && alc.fecOti.maxSourceBlockLength > 0
  {
    && f.meta.toi == 0 && f.meta.contentLocation == "" && f.meta.contentMd5 == "" && f.meta.contentEncoding == ""
    && f.meta.contentLength == alc.fecOti.transferLength % 0x1_0000_0000
    && f.meta.fecOti == alc.fecOti && |f.buffer| == alc.fecOti.transferLength && !f.complete
    && f.blocks == Layout(alc.fecOti)
    && forall k: nat, j: nat :: f.Has(k, j) ==> !f.At(k, j).complete && !f.At(k, j).queued
  }

  /**
   * A packet of an instance that is not installed opens a file at TOI 0, where there is none, and goes into it; without
   * a symbol length or a block length in its header that is undefined.
   */
  lemma OtherInstanceOpens(c: RxConfig, r: Rx, data: seq<Byte>, len: nat, alc: Alc) returns (f: FileState)
    requires IsPacket(r, data, len, alc) && alc.toi == 0 && 0 !in r.files && alc.HeaderLength() <= |data|
    requires r.fdt.None? || r.fdt.value.instanceId != alc.fdtInstanceId
    ensures if alc.fecOti.encodingSymbolLength == 0 || alc.fecOti.maxSourceBlockLength == 0 then
              Receive(c, r, data, len) == Threw(r, "undefined")
            else
              && IsOpenedFor(f, alc)
              && Receive(c, r, data, len) == Accepted(c, r.(files := r.files[0 := f]), data, len, alc)
  {
    hide ParsePacket, Accepted, Layout;
    ParseEndsAtHeaderLength(data, len);
    if alc.fecOti.encodingSymbolLength == 0 || alc.fecOti.maxSourceBlockLength == 0 {
      f := FileState(FdtEntry(alc), [], false, [], 0);
    } else {
      f := ReceivingFile(c, 0, FdtEntry(alc));
      OpenedIsEmpty(alc, f.buffer);
    }
  }

  lemma OpenedIsEmpty(alc: Alc, memory: seq<Byte>)
    requires CanCut(alc.fecOti) && |memory| == alc.fecOti.transferLength
    ensures IsOpenedFor(NewFile(FdtEntry(alc), memory), alc)
  {
  }

  /** Without a callback a complete object stays tracked and is not delivered. */
  lemma WithoutCallbackKept(c: RxConfig, r: Rx, alc: Alc)
    requires !c.hasCallback && alc.toi != 0 && alc.toi in r.files && r.files[alc.toi].meta.contentEncoding == ""
    ensures var o := Completed(c, r, alc);
      && o.Returned? && o.state.log == r.log && o.state.fdt == r.fdt
      && alc.toi in o.state.files && o.state.files[alc.toi] == r.files[alc.toi]
  {
  }

  /** With one it is delivered as it is and no longer tracked; nor is any other file with its content location. */
  lemma WithCallbackDelivered(c: RxConfig, r: Rx, alc: Alc)
    requires c.hasCallback && alc.toi != 0 && alc.toi in r.files && r.files[alc.toi].meta.contentEncoding == ""
    ensures var o := Completed(c, r, alc);
      && o.Returned? && o.state.log == r.log + [Delivered(alc.toi, r.files[alc.toi])] && o.state.fdt == r.fdt
      && (forall t :: t in o.state.files ==>
            && t in r.files && o.state.files[t] == r.files[t]
            && r.files[t].meta.contentLocation != r.files[alc.toi].meta.contentLocation)
      && (forall t :: t in r.files && r.files[t].meta.contentLocation != r.files[alc.toi].meta.contentLocation ==>
            t in o.state.files)
  {
  }

  /** With a content encoding it is the decoder's buffer and length that are delivered, under the same description. */
  lemma EncodedIsDecoded(c: RxConfig, r: Rx, alc: Alc, g: FileState)
    requires c.hasCallback && alc.toi != 0 && alc.toi in r.files && r.files[alc.toi].meta.contentEncoding != ""
    requires c.decode(r.files[alc.toi]) == Returned(g)
    ensures var o, e := Completed(c, r, alc), r.files[alc.toi].meta;
      && o.Returned? && |o.state.log| == |r.log| + 1 && o.state.log[|r.log|].Delivered?
      && var d := o.state.log[|r.log|];
      && d.toi == alc.toi && d.file.buffer == g.buffer && d.file.meta == e.(contentLength := g.meta.contentLength)
  {
  }

  /** Where the decoder throws, nothing is delivered and the complete file stays, with what the decoder left. */
  lemma UndecodableStays(c: RxConfig, r: Rx, alc: Alc, g: FileState, what: string)
    requires alc.toi in r.files && r.files[alc.toi].meta.contentEncoding != ""
    requires c.decode(r.files[alc.toi]) == Threw(g, what)
    ensures var o := Completed(c, r, alc);
      && o.Threw? && o.what == what && o.state.log == r.log && o.state.fdt == r.fdt
      && alc.toi in o.state.files && o.state.files[alc.toi].buffer == g.buffer
  {
  }

  /** Of entries with one TOI the first is started, and none where the object is tracked already. */
  lemma {:induction false} FirstEntryStarts(
    c: RxConfig, files: map<U64, FileState>, entries: seq<FileEntry>, i: nat, t: U64)
    requires i < |entries| && entries[i].toi == t && StartAll(c, files, entries).Returned?
    requires forall j :: 0 <= j < i ==> entries[j].toi != t
    ensures var started := StartAll(c, files, entries).state;
      && t in started
      && if t in files then started[t] == files[t]
         else
           && started[t].meta == entries[i] && |started[t].buffer| == entries[i].fecOti.transferLength
           && !started[t].complete && forall k: nat, j: nat :: started[t].Has(k, j) ==> !started[t].At(k, j).complete
    decreases |entries|
  {
    hide NewFile;
    var e, rest := entries[0], entries[1..];
    var next := if e.toi in files then files else files[e.toi := ReceivingFile(c, e.toi, e)];
    if i > 0 {
      assert rest[i - 1] == entries[i] && forall j :: 0 <= j < i - 1 ==> rest[j] == entries[j + 1];
      FirstEntryStarts(c, next, rest, i - 1, t);
    } else {
      TrackedStay(c, next, rest, t);
      if t !in files {
        StartedIsEmpty(c, e);
      }
    }
  }

  lemma StartedIsEmpty(c: RxConfig, e: FileEntry)
    requires CanCut(e.fecOti)
    ensures var f := ReceivingFile(c, e.toi, e);
      && f.meta == e && |f.buffer| == e.fecOti.transferLength && !f.complete
      && forall k: nat, j: nat :: f.Has(k, j) ==> !f.At(k, j).complete
  {
  }

  lemma {:induction false} TrackedStay(c: RxConfig, files: map<U64, FileState>, entries: seq<FileEntry>, t: U64)
    requires t in files
    ensures t in StartAll(c, files, entries).state && StartAll(c, files, entries).state[t] == files[t]
    decreases |entries|
  {
    hide ReceivingFile;
    if entries != [] {
      var e := entries[0];
      if e.toi in files {
        TrackedStay(c, files, entries[1..], t);
      } else if CanCut(e.fecOti) {
        TrackedStay(c, files[e.toi := ReceivingFile(c, e.toi, e)], entries[1..], t);
      }
    }
  }

  /** Of what is thrown only what `std::stoull` and the base64 decoder throw is caught; then the receiver listens on. */
  lemma CaughtAreExceptions(r: Rx, what: string)
    ensures ListensOn(Returned(r))
    ensures ListensOn(Threw(r, what)) <==>
            what in {"stoull: invalid argument", "stoull: out of range", "Input is not valid base64-encoded data."}
  {
  }

  /** A payload is refused by its encoding, and undefined where it is shorter than its own header. */
  lemma PayloadRefused(data: seq<Byte>, len: nat, alc: Alc, oti: FecOti)
    requires alc.HeaderLength() + 4 <= |data|
    ensures var r := PayloadSymbols(data, len, alc, oti);
      if alc.contentEncoding.ZLIB? || alc.contentEncoding.DEFLATE? then
        r == Err("Only unencoded or gzipped content is supported")
      else if oti.encodingId != 0 then r == Err("Only compact no-code FEC is supported")
      else if len < 4 * alc.headerWords + 4 || oti.encodingSymbolLength == 0 then r == Err("undefined")
      else r.Ok?
  {
  }

  /** The application's removal by location: exactly the files there go, the others stay as they are. */
  lemma LocationRemoved(r: Rx, location: string)
    ensures var q := RemoveLocation(r, location);
      && q.tsi == r.tsi && q.fdt == r.fdt && q.log == r.log
      && (forall t :: t in r.files && r.files[t].meta.contentLocation == location ==> t !in q.files)
      && (forall t :: t in r.files && r.files[t].meta.contentLocation != location ==> t in q.files)
      && (forall t :: t in q.files ==> t in r.files && q.files[t] == r.files[t])
  {
  }

  /** And by age: the expired files go, but for one located at "bootstrap.multipart"; the others stay as they are. */
  lemma ExpiredRemoved(r: Rx, expired: set<U64>)
    ensures var q := RemoveExpired(r, expired);
      && q.tsi == r.tsi && q.fdt == r.fdt && q.log == r.log
      && (forall t :: t in r.files && t in expired && r.files[t].meta.contentLocation != "bootstrap.multipart" ==>
            t !in q.files)
      && (forall t :: t in r.files && (t !in expired || r.files[t].meta.contentLocation == "bootstrap.multipart") ==>
            t in q.files)
      && (forall t :: t in q.files ==> t in r.files && q.files[t] == r.files[t])
  {
  }
}
