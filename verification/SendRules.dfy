/**
 * What sending, announcing and finishing leave behind, field by field (src/Transmitter.cpp:619-720): identifiers,
 * descriptions, entries, files and expiry times.
 */
module SendRules {
  import opened Bytes
  import opened Flute
  import opened Files
  import opened FdtXml
  import opened FdtObject
  import opened Transmitters
  import Base64

  /** The TOI counter moves on by one, and from the last TOI to 1. */
  ghost predicate CounterMoved(before: Tx, after: Tx) {
    after.nextToi == if before.nextToi == 65535 then 1 else before.nextToi + 1
  }

  // ---------------------------------------------------------------------------------------------
  // Announcements
  // ---------------------------------------------------------------------------------------------

  /** The table a transmitter announces: its own, to expire ten seconds from now, in 64 bits. */
  ghost predicate IsAnnouncementOf(t: Table, own: Table, now: U64) {
    && t.expires == (now + 10) % 0x1_0000_0000_0000_0000
    && t.entries == own.entries && t.instanceId == own.instanceId && t.instanceIdSent == own.instanceIdSent
    && t.globalOti == own.globalOti && t.fdtNamespace == own.fdtNamespace
  }

  /** The file of TOI 0: the text of the table, under the low 16 bits of its instance ID. */
  ghost predicate CarriesTable(c: Config, f: FileState, t: Table) {
    var text := c.render(ToXml(t));
    && f.meta.toi == 0 && f.buffer == text && f.fdtInstanceId == t.instanceId % 65536
    && f.meta.contentEncoding == "" && f.meta.fecOti.transferLength == |text| % 0x1_0000_0000_0000_0000
    && !f.complete
    && f.meta.contentMd5 == Base64.Encode(c.md5(text), false)
  }

  /** Nothing is announced without entries; otherwise the file of TOI 0 is new, and the table counts as sent. */
  lemma FdtSent(c: Config, s: Tx, now: U64)
    ensures var r := SendFdt(c, s, now);
      if s.fdt.entries == [] then r == s
      else
        && |r.announced| == |s.announced| + 1 && r.announced[..|s.announced|] == s.announced
        && |r.objects| == |s.objects| + 1 && r.objects[..|s.objects|] == s.objects
        && r.files == s.files[0 := |s.objects|]
        && var t, f := r.announced[|s.announced|], r.objects[|s.objects|];
        && IsAnnouncementOf(t, s.fdt, now) && CarriesTable(c, f, t)
        && f.meta.fecOti.encodingSymbolLength == s.fecOti.encodingSymbolLength
        && f.meta.fecOti.maxSourceBlockLength == s.fecOti.maxSourceBlockLength
        && r.fdt.instanceIdSent == r.fdt.instanceId == s.fdt.instanceId && r.fdt.entries == s.fdt.entries
        && r.nextToi == s.nextToi && r.inFlight == s.inFlight && r.callbacks == s.callbacks
        && r.maxPayload == s.maxPayload && r.tsi == s.tsi && r.fecOti == s.fecOti
  {
    hide ToXml, Layout, Base64.Encode;
  }

  /** Once a table counts as sent, the next change has the next instance ID, in 32 bits, as have those after it. */
  lemma ChangesShareInstance(t: Table, first: FileEntry, second: FileEntry, toi: U32)
    requires t.instanceIdSent == t.instanceId
    ensures var next := if t.instanceId == 0xFFFF_FFFF then 0 else t.instanceId + 1;
      && AddEntry(t, first).instanceId == next && RemoveEntry(t, toi).instanceId == next
      && AddEntry(AddEntry(t, first), second).instanceId == next
      && RemoveEntry(AddEntry(t, first), toi).instanceId == next
      && AddEntry(RemoveEntry(t, toi), first).instanceId == next
      && AddEntry(t, first).instanceIdSent == t.instanceId
  {
    hide Without;
  }

  // ---------------------------------------------------------------------------------------------
  // Data buffers
  // ---------------------------------------------------------------------------------------------

  /** What is added to the table for a file. */
  ghost predicate EntryAdded(before: Tx, after: Tx, e: FileEntry) {
    after.fdt.entries == before.fdt.entries + [e]
  }

  /** The new file is known under its TOI, unless another one is; no other file is known otherwise than before. */
  ghost predicate KnownUnder(before: Tx, after: Tx, toi: U32) {
    && toi in after.files && after.files[toi] == (if toi in before.files then before.files[toi] else |before.objects|)
    && forall u :: u != 0 && u != toi ==>
         (u in after.files <==> u in before.files) && (u in before.files ==> after.files[u] == before.files[u])
  }

  /** A file just made: the bytes, whole and to be sent. */
  ghost predicate IsNewFile(f: FileState, e: FileEntry, data: seq<Byte>) {
    && f.meta == e && f.buffer == data && !f.complete && f.fdtInstanceId == 0
    && forall k: nat, j: nat :: f.Has(k, j) ==> !f.At(k, j).complete && !f.At(k, j).queued
  }

  lemma NewIsNew(meta: FileEntry, data: seq<Byte>)
    requires meta.fecOti.encodingSymbolLength > 0 && meta.fecOti.maxSourceBlockLength > 0
    ensures IsNewFile(NewFile(meta, data), meta, data)
  {
  }

  /** `send` of a buffer: what the new file, its entry and the counter have. */
  lemma DataSent(
    c: Config, s: Tx, location: string, contentType: string, expires: U32, data: seq<Byte>, now: U64)
    ensures var r := SendData(c, s, location, contentType, expires, data, now);
      && CounterMoved(s, r) && |s.objects| < |r.objects| && r.objects[..|s.objects|] == s.objects
      && var f := r.objects[|s.objects|];
      && IsNewFile(f, f.meta, data) && EntryAdded(s, r, f.meta)
      && f.meta.toi == s.nextToi && f.meta.contentLocation == location && f.meta.contentType == contentType
      && f.meta.expires == expires && f.meta.contentLength == |data| % 0x1_0000_0000
      && f.meta.contentMd5 == Base64.Encode(c.md5(data), false)
      && f.meta.contentEncoding == "" && f.meta.etag == "" && !f.meta.noCache && f.meta.cacheExpires.None?
      && f.meta.fecOti == s.fecOti.(transferLength := f.meta.fecOti.transferLength)
      && f.meta.fecOti.transferLength == |data| % 0x1_0000_0000_0000_0000
      && (s.nextToi != 0 ==> KnownUnder(s, r, s.nextToi))
      && 0 in r.files && r.files[0] == |s.objects| + 1 && |r.announced| == |s.announced| + 1
  {
    hide FdtFile, NewFile, Base64.Encode, IsNewFile;
    var file := DataFile(c, s, location, contentType, expires, data);
    NewIsNew(DataEntry(c.md5, s.nextToi, s.fecOti, location, contentType, expires, data), data);
    NewFileMeta(DataEntry(c.md5, s.nextToi, s.fecOti, location, contentType, expires, data), data);
  }

  lemma NewFileMeta(meta: FileEntry, data: seq<Byte>)
    requires meta.fecOti.encodingSymbolLength > 0 && meta.fecOti.maxSourceBlockLength > 0
    ensures NewFile(meta, data).meta == meta
  {
  }

  // ---------------------------------------------------------------------------------------------
  // Descriptions
  // ---------------------------------------------------------------------------------------------

  /** A description of another session, or without a TOI. */
  ghost predicate WithoutToiHere(s: Tx, d: Description) {
    d.entry.toi == 0 || match d.tsi case None => false case Some(t) => t != s.tsi
  }

  ghost predicate SetOr(n: int, own: int, default: int) {
    (own != 0 ==> n == own) && (own == 0 ==> n == default)
  }

  /** FEC values that are not set are the transmitter's. */
  ghost predicate OtiFilled(oti: FecOti, own: FecOti, default: FecOti) {
    && SetOr(oti.encodingId, own.encodingId, default.encodingId)
    && SetOr(oti.instanceId, own.instanceId, default.instanceId)
    && SetOr(oti.transferLength, own.transferLength, default.transferLength)
    && SetOr(oti.encodingSymbolLength, own.encodingSymbolLength, default.encodingSymbolLength)
    && SetOr(oti.maxSourceBlockLength, own.maxSourceBlockLength, default.maxSourceBlockLength)
    && SetOr(oti.maxNumberOfEncodingSymbols, own.maxNumberOfEncodingSymbols, default.maxNumberOfEncodingSymbols)
  }

  /**
   * `send` of a description.  Without a TOI in this session it gets the next one, and the counter moves; otherwise it
   * keeps its own, and the counter stays.  It comes back for this session, with that TOI and its FEC values filled in.
   */
  lemma DescriptionGetsToi(c: Config, s: Tx, d: Description, now: U64)
    ensures var (o, d1) := SendDescription(c, s, d, now);
      && d1.tsi == Some(s.tsi) && d1.data == d.data && OtiFilled(d1.entry.fecOti, d.entry.fecOti, s.fecOti)
      && d1.entry == d.entry.(toi := d1.entry.toi, fecOti := d1.entry.fecOti)
      && (if WithoutToiHere(s, d) then d1.entry.toi == s.nextToi && CounterMoved(s, o.state)
          else d1.entry.toi == d.entry.toi && o.state.nextToi == s.nextToi)
      && (o.Threw? <==> d1.entry.fecOti.encodingId != 0)
  {
    hide FdtFile, NewFile;
  }

  /** The new file, its entry in the table, and where the file is known, all have the description's TOI. */
  lemma DescriptionSent(c: Config, s: Tx, d: Description, now: U64)
    requires SendDescription(c, s, d, now).0.Returned?
    ensures var (o, d1) := SendDescription(c, s, d, now);
      var r, toi := o.state, d1.entry.toi;
      && |s.objects| < |r.objects| && r.objects[..|s.objects|] == s.objects
      && var f := r.objects[|s.objects|];
      && IsNewFile(f, f.meta, d.data) && EntryAdded(s, r, f.meta) && f.meta.toi == toi
      && f.meta == d1.entry.(fecOti := d1.entry.fecOti.(transferLength := |d.data| % 0x1_0000_0000_0000_0000))
      && (toi != 0 ==> KnownUnder(s, r, toi))
      && 0 in r.files && r.files[0] == |s.objects| + 1 && |r.announced| == |s.announced| + 1
  {
    hide FdtFile, NewFile, IsNewFile;
    var entry := DescriptionEntry(s, d);
    var meta := entry.(fecOti := Sized(entry.fecOti, d.data));
    NewIsNew(meta, d.data);
    NewFileMeta(meta, d.data);
  }

  lemma StepKeepsSession(c: Config, s: Tx, e: Event)
    ensures Step(c, s, e).tsi == s.tsi && (s.nextToi != 0 ==> Step(c, s, e).nextToi != 0)
  {
    hide SendFdt, NewFile, MarkCompleted, NextFlight, NextBatch, AddEntry, RemoveEntry;
    AnnouncingKeepsSession(c);
  }

  lemma AnnouncingKeepsSession(c: Config)
    ensures forall s: Tx, now: U64 :: SendFdt(c, s, now).tsi == s.tsi && SendFdt(c, s, now).nextToi == s.nextToi
  {
    hide FdtFile;
  }

  lemma {:induction false} RunKeepsTsi(c: Config, s: Tx, events: seq<Event>)
    ensures Steps(c, s, events).tsi == s.tsi
    decreases |events|
  {
    hide Step;
    if events != [] {
      StepKeepsSession(c, s, events[0]);
      RunKeepsTsi(c, Step(c, s, events[0]), events[1..]);
    }
  }

  /** Sent once, a description keeps its TOI in this session, whatever happens before it is sent again. */
  lemma SentTwiceKeepsToi(c: Config, s: Tx, d: Description, now: U64, events: seq<Event>, later: U64)
    requires s.nextToi != 0
    ensures var (o, d1) := SendDescription(c, s, d, now);
      var s2 := Steps(c, o.state, events);
      var (o2, d2) := SendDescription(c, s2, d1, later);
      d1.entry.toi != 0 && d2.entry.toi == d1.entry.toi && o2.state.nextToi == s2.nextToi
  {
    hide SendDescription, Steps;
    var (o, d1) := SendDescription(c, s, d, now);
    DescriptionGetsToi(c, s, d, now);
    StateKeepsTsi(c, s, d, now);
    RunKeepsTsi(c, o.state, events);
    DescriptionGetsToi(c, Steps(c, o.state, events), d1, later);
  }

  lemma StateKeepsTsi(c: Config, s: Tx, d: Description, now: U64)
    ensures SendDescription(c, s, d, now).0.state.tsi == s.tsi
  {
    hide FdtFile, NewFile;
  }

  /** The counter is never 0, so no file but the FDT is given its TOI. */
  lemma {:induction false} CounterStaysPositive(c: Config, s: Tx, events: seq<Event>)
    requires s.nextToi != 0
    ensures Steps(c, s, events).nextToi != 0
    decreases |events|
  {
    hide Step;
    if events != [] {
      StepKeepsSession(c, s, events[0]);
      CounterStaysPositive(c, Step(c, s, events[0]), events[1..]);
    }
  }

  // ---------------------------------------------------------------------------------------------
  // Finished files
  // ---------------------------------------------------------------------------------------------

  /** A finished file is no longer known nor listed; the rest is, in the old order, and announced if there is any. */
  lemma FinishedFileGone(c: Config, s: Tx, h: nat, toi: U32, now: U64)
    requires toi != 0
    ensures var r := FileTransmitted(c, s, h, toi, now);
      && toi !in r.files && r.callbacks == s.callbacks + [h] && r.nextToi == s.nextToi
      && (forall t :: t != 0 ==>
            (t in r.files <==> t in s.files && t != toi) && (t in r.files ==> r.files[t] == s.files[t]))
      && |r.announced| == |s.announced| + (if r.fdt.entries == [] then 0 else 1)
      && exists at :: PickedAt(r.fdt.entries, s.fdt.entries, at)
           && forall x: nat :: x < |s.fdt.entries| ==> (x in at <==> s.fdt.entries[x].toi != toi)
  {
    hide FdtFile, Without, PickedAt;
    var at := WithoutKeepsOrder(s.fdt.entries, toi);
  }

  // ---------------------------------------------------------------------------------------------
  // Ticks
  // ---------------------------------------------------------------------------------------------

  /** The file whose symbols go next is not complete, and every file known under a lower TOI is. */
  lemma LowestUnfinishedGoesNext(s: Tx, f: Flight) returns (toi: U32)
    requires s.maxPayload >= 4 && NextFlight(s) == Some(f)
    ensures s.active && toi in s.files && s.files[toi] == f.file < |s.objects| && !s.objects[f.file].complete
    ensures forall u :: u in s.files && u < toi && s.files[u] < |s.objects| ==> s.objects[s.files[u]].complete
    ensures f.symbols != []
  {
    hide NextBatch;
    toi := Least(UnfinishedTois(s));
    assert Unfinished(s, toi);
    forall u | u in s.files && u < toi && s.files[u] < |s.objects|
      ensures s.objects[s.files[u]].complete
    {
      assert u in UnfinishedTois(s) <==> Unfinished(s, u);
    }
  }

  /** A deactivated transmitter neither announces nor sends when its timers fire. */
  lemma InactiveIsSilent(c: Config, s: Tx, now: U64)
    requires !s.active
    ensures Step(c, s, FdtTimer(now)) == s && Step(c, s, SendTimer) == s && SentBy(s, SendTimer) == []
  {
  }
}
