/**
 * Payload sizes and packets against the MTU (src/Transmitter.cpp:459-560, 727-763): 64 bytes are kept for IPv4, UDP,
 * ALC and FEC headers, and 28 more while a tunnel is in use.
 */
module PacketSizes {
  import opened Bytes
  import opened EncodingSymbols
  import opened AlcPackets
  import opened Files
  import opened FdtXml
  import opened Transmitters

  /** The bytes of headers a packet has to leave room for. */
  ghost function Overhead(tunnelled: bool): nat {
    if tunnelled then 92 else 64
  }

  /** What the constructor sets up. */
  lemma ConstructedFields(tsi: U64, mtu: U16, tunnelled: bool, ns: FdtNamespace, active: bool)
    requires mtu > Overhead(tunnelled)
    ensures MaxPayload(mtu, tunnelled) != 0
    ensures var s := Constructed(tsi, mtu, tunnelled, ns, active);
      && s.maxPayload == mtu - Overhead(tunnelled) == s.fecOti.encodingSymbolLength
      && s.fecOti.maxSourceBlockLength == 64 && s.fecOti.encodingId == 0 && s.fecOti.instanceId == 0
      && s.fecOti.transferLength == 0 && s.fecOti.maxNumberOfEncodingSymbols == 0
      && s.fdt.globalOti == s.fecOti && s.fdt.fdtNamespace == ns && s.fdt.entries == []
      && s.fdt.instanceId == 1 && s.fdt.instanceIdSent == 0 && s.nextToi == 1 && s.tsi == tsi
      && s.files == map[] && s.objects == [] && s.active == active && s.tunnelled == tunnelled
  {
  }

  /** The payload size is what the MTU leaves, modulo 2^32. */
  ghost predicate SizedFor(s: Tx, mtu: U16) {
    s.maxPayload == (mtu - Overhead(s.tunnelled)) % 0x1_0000_0000
  }

  lemma ToggleKeepsSized(s: Tx, mtu: U16, on: bool)
    requires SizedFor(s, mtu)
    ensures SizedFor(SetTunnel(s, on), mtu)
  {
  }

  lemma StepKeepsSized(c: Config, s: Tx, e: Event, mtu: U16)
    requires SizedFor(s, mtu)
    ensures SizedFor(Step(c, s, e), mtu)
  {
    hide SendFdt, NewFile, MarkCompleted, NextFlight, NextBatch, SetTunnel, SizedFor;
    if e.Tunnel? {
      ToggleKeepsSized(s, mtu, e.on);
    } else {
      StepKeepsSizes(c, s, e);
      SameSizes(s, Step(c, s, e), mtu);
    }
  }

  lemma SameSizes(s: Tx, r: Tx, mtu: U16)
    requires SizedFor(s, mtu) && r.maxPayload == s.maxPayload && r.tunnelled == s.tunnelled
    ensures SizedFor(r, mtu)
  {
  }

  lemma StepKeepsSizes(c: Config, s: Tx, e: Event)
    requires !e.Tunnel?
    ensures var r := Step(c, s, e); r.maxPayload == s.maxPayload && r.tunnelled == s.tunnelled
  {
    hide SendFdt, NewFile, MarkCompleted, NextFlight, NextBatch;
    AnnouncingKeepsSizes(c);
  }

  lemma AnnouncingKeepsSizes(c: Config)
    ensures forall s: Tx, now: U64 ::
              SendFdt(c, s, now).maxPayload == s.maxPayload && SendFdt(c, s, now).tunnelled == s.tunnelled
  {
    hide FdtFile;
  }

  lemma {:induction false} RunKeepsSized(c: Config, s: Tx, events: seq<Event>, mtu: U16)
    requires SizedFor(s, mtu)
    ensures SizedFor(Steps(c, s, events), mtu)
    decreases |events|
  {
    hide Step, SizedFor;
    if events != [] {
      StepKeepsSized(c, s, events[0], mtu);
      RunKeepsSized(c, Step(c, s, events[0]), events[1..], mtu);
    }
  }

  /**
   * From construction on, through any toggling of the tunnel: while the MTU leaves room for the headers in use, no
   * packet with its IPv4 and UDP headers, and those of the tunnel, is larger than the MTU.
   */
  lemma PacketsFitMtu(
    c: Config, tsi: U64, mtu: U16, tunnelled: bool, ns: FdtNamespace, active: bool, events: seq<Event>, e: Event)
    requires MaxPayload(mtu, tunnelled) != 0
    ensures var s := Steps(c, Constructed(tsi, mtu, tunnelled, ns, active), events);
      mtu >= Overhead(s.tunnelled) ==>
        forall p :: p in SentBy(s, e) ==> 20 + 8 + |p| + (if s.tunnelled then 20 + 8 else 0) <= mtu
  {
    hide Steps, NextFlight, Payload, HeaderBytes;
    var s0 := Constructed(tsi, mtu, tunnelled, ns, active);
    var s := Steps(c, s0, events);
    assert SizedFor(s0, mtu);
    RunKeepsSized(c, s0, events, mtu);
  }
}
