/** FDT instance IDs over every run of the transmitter: what a receiver that skips a known ID can miss. */
module Versioning {
  import opened Bytes
  import opened Flute
  import opened Files
  import opened FdtXml
  import opened FdtObject
  import opened Transmitters

  /** Each announced table repeats the one before it, or has the next instance ID; its own FEC values stay. */
  ghost predicate Succeeds(t: Table, u: Table) {
    && u.globalOti == t.globalOti
    && ((u.instanceId == t.instanceId && u.entries == t.entries) || u.instanceId == Next(t.instanceId))
  }

  ghost predicate Chained(announced: seq<Table>) {
    forall i :: 0 <= i < |announced| - 1 ==> Succeeds(announced[i], announced[i + 1])
  }

  /** The current ID is the sent one or the next; while it is the sent one, so are the entries. */
  ghost predicate Versioned(fdt: Table, announced: seq<Table>) {
    && Chained(announced)
    && fdt.instanceId in {fdt.instanceIdSent, Next(fdt.instanceIdSent)}
    && (announced == [] ==> fdt.instanceId != fdt.instanceIdSent)
    && (announced != [] ==>
          && announced[|announced| - 1].instanceId == fdt.instanceIdSent
          && announced[|announced| - 1].globalOti == fdt.globalOti
          && (fdt.instanceId == fdt.instanceIdSent ==> fdt.entries == announced[|announced| - 1].entries))
  }

  lemma ChangeKeepsVersioned(fdt: Table, announced: seq<Table>, entries: seq<FileEntry>)
    requires Versioned(fdt, announced)
    ensures Versioned(Changed(fdt).(entries := entries), announced)
  {
  }

  lemma SendFdtKeepsVersioned(c: Config, s: Tx, now: U64)
    requires Versioned(s.fdt, s.announced)
    ensures var r := SendFdt(c, s, now); Versioned(r.fdt, r.announced)
  {
    var t := s.fdt.(expires := ExpiryAt(now));
    var n := |s.announced|;
    var longer := s.announced + [t];
    forall i | 0 <= i < n
      ensures Succeeds(longer[i], longer[i + 1])
    {
      if i < n - 1 {
        assert Succeeds(s.announced[i], s.announced[i + 1]);
      }
    }
  }

  lemma StepKeepsVersioned(c: Config, s: Tx, e: Event)
    requires Versioned(s.fdt, s.announced)
    ensures var r := Step(c, s, e); Versioned(r.fdt, r.announced)
  {
    hide SendFdt, Acknowledge, NextFlight, Versioned, NewFile, AssignedToi;
    match e {
      case SendingData(location, contentType, expires, data, now) =>
        var file := DataFile(c, s, location, contentType, expires, data);
        ChangeKeepsVersioned(s.fdt, s.announced, s.fdt.entries + [file.meta]);
        SendFdtKeepsVersioned(c, Recorded(ToiTaken(s), file), now);
      case SendingDescription(d, now) => DescriptionKeepsVersioned(c, s, d, now);
      case FdtTimer(now) => SendFdtKeepsVersioned(c, s, now);
      case SendTimer =>
      case Acknowledged(f, now) => AcknowledgeKeepsVersioned(c, s, f, now);
      case SendFailed(f) =>
      case Tunnel(on) =>
      case Activation(on) =>
    }
  }

  lemma DescriptionKeepsVersioned(c: Config, s: Tx, d: Description, now: U64)
    requires Versioned(s.fdt, s.announced)
    ensures var r := SendDescription(c, s, d, now).0.state; Versioned(r.fdt, r.announced)
  {
    hide SendFdt, Versioned, NewFile, AssignedToi;
    var entry := DescriptionEntry(s, d);
    if entry.fecOti.encodingId == COMPACT_NO_CODE {
      var file := DescribedFile(entry, d.data);
      ChangeKeepsVersioned(s.fdt, s.announced, s.fdt.entries + [file.meta]);
      SendFdtKeepsVersioned(c, Listed(AfterAssigning(s, d), entry.toi, file), now);
    }
  }

  lemma AcknowledgeKeepsVersioned(c: Config, s: Tx, f: Flight, now: U64)
    requires Versioned(s.fdt, s.announced)
    ensures var r := Acknowledge(c, s, f, now); Versioned(r.fdt, r.announced)
  {
    hide SendFdt, Versioned, MarkCompleted;
    if f.file < |s.objects| {
      var file := MarkCompleted(c.md5, s.objects[f.file], f.symbols, true).state;
      var toi := file.meta.toi;
      var s2 := s.(inFlight := s.inFlight - multiset{f}, objects := s.objects[f.file := file]);
      ChangeKeepsVersioned(s.fdt, s.announced, Without(s.fdt.entries, toi));
      SendFdtKeepsVersioned(c, s2.(files := s2.files - {toi}, fdt := RemoveEntry(s2.fdt, toi)), now);
    }
  }

  lemma {:induction false} StepsKeepVersioned(c: Config, s: Tx, events: seq<Event>)
    requires Versioned(s.fdt, s.announced)
    ensures var r := Steps(c, s, events); Versioned(r.fdt, r.announced)
    decreases |events|
  {
    if events != [] {
      StepKeepsVersioned(c, s, events[0]);
      StepsKeepVersioned(c, Step(c, s, events[0]), events[1..]);
    }
  }

  // ---------------------------------------------------------------------------------------------
  // What can be told from the ID on the wire
  // ---------------------------------------------------------------------------------------------

  /** How often the ID changes between two announcements. */
  function Changes(announced: seq<Table>, i: nat, j: nat): nat
    requires i <= j < |announced|
    decreases j - i
  {
    if i == j then 0
    else Changes(announced, i, j - 1) + if announced[j].instanceId == announced[j - 1].instanceId then 0 else 1
  }

  lemma NextOfSum(id: U32, n: nat)
    ensures Next((id + n) % 0x1_0000_0000) == (id + n + 1) % 0x1_0000_0000
  {
  }

  lemma {:induction false} IdCountsChanges(announced: seq<Table>, i: nat, j: nat)
    requires Chained(announced) && i <= j < |announced|
    ensures announced[j].instanceId == (announced[i].instanceId + Changes(announced, i, j)) % 0x1_0000_0000
    ensures announced[j].globalOti == announced[i].globalOti
    ensures Changes(announced, i, j) == 0 ==> announced[j].entries == announced[i].entries
    decreases j - i
  {
    hide Next;
    if i < j {
      IdCountsChanges(announced, i, j - 1);
      NextOfSum(announced[i].instanceId, Changes(announced, i, j - 1));
      assert Succeeds(announced[j - 1], announced[j - 1 + 1]);
    }
  }

  lemma WireIdsEqual(id: U32, n: nat, later: U32)
    requires later == (id + n) % 0x1_0000_0000
    ensures later % 0x1_0000 == id % 0x1_0000 <==> n % 0x1_0000 == 0
  {
    var turns, block := (id + n) / 0x1_0000_0000, n / 0x1_0000;
    assert later == id + n - turns * 0x1_0000_0000 && n == block * 0x1_0000 + n % 0x1_0000;
    assert later == id + n % 0x1_0000 + (block - turns * 0x1_0000) * 0x1_0000;
  }

  lemma WireIdsCountChanges(announced: seq<Table>, i: nat, j: nat)
    requires Chained(announced) && i <= j < |announced|
    ensures WireId(announced[i]) == WireId(announced[j]) <==> Changes(announced, i, j) % 0x1_0000 == 0
    ensures announced[j].globalOti == announced[i].globalOti
    ensures Changes(announced, i, j) == 0 ==> announced[j].entries == announced[i].entries
  {
    hide Chained, Changes;
    IdCountsChanges(announced, i, j);
    WireIdsEqual(announced[i].instanceId, Changes(announced, i, j), announced[j].instanceId);
  }

  /** What the IDs of two announcements on the wire say about their entries. */
  ghost predicate WireIdsTell(announced: seq<Table>, i: nat, j: nat)
    requires i <= j < |announced|
  {
    && (WireId(announced[i]) == WireId(announced[j]) && Changes(announced, i, j) < 0x1_0000 ==>
          announced[i].entries == announced[j].entries)
    && (Changes(announced, i, j) == 0x1_0000 ==> WireId(announced[i]) == WireId(announced[j]))
  }

  lemma ConstructedIsVersioned(tsi: U64, mtu: U16, tunnelled: bool, ns: FdtNamespace, active: bool)
    requires MaxPayload(mtu, tunnelled) != 0
    ensures var s := Constructed(tsi, mtu, tunnelled, ns, active); Versioned(s.fdt, s.announced)
  {
  }

  /**
   * Over every run of sends, timer ticks, acknowledgements and failures: as long as the ID changed fewer than 2^16
   * times between two announcements, equal IDs on the wire mean identical entries.  With exactly 2^16 changes the
   * IDs are equal again.  What a receiver makes of the IDs is in Composition.
   */
  lemma EqualWireIdsMeanEqualEntries(
    c: Config, tsi: U64, mtu: U16, tunnelled: bool, ns: FdtNamespace, active: bool, events: seq<Event>, i: nat, j: nat)
    requires MaxPayload(mtu, tunnelled) != 0
    requires i <= j < |Steps(c, Constructed(tsi, mtu, tunnelled, ns, active), events).announced|
    ensures var s := Steps(c, Constructed(tsi, mtu, tunnelled, ns, active), events);
      && (s.fdt.instanceId == s.fdt.instanceIdSent || s.fdt.instanceId == Next(s.fdt.instanceIdSent))
      && WireIdsTell(s.announced, i, j)
  {
    hide Steps, WireId, Changes, Constructed;
    var s0 := Constructed(tsi, mtu, tunnelled, ns, active);
    ConstructedIsVersioned(tsi, mtu, tunnelled, ns, active);
    StepsKeepVersioned(c, s0, events);
    WireIdsCountChanges(Steps(c, s0, events).announced, i, j);
  }
}
