/**
 * Packets of other sessions, as when two share a multicast group (src/Receiver.cpp:68, 129-142): a receiver passes
 * over them and asks for the next one.
 */
module ForeignPackets {
  import opened Bytes
  import opened AlcPackets
  import opened Completion
  import opened EndToEnd
  import opened Receivers
  import opened ReceiverSafety
  import opened ReceiverLiveness

  /** A well-formed packet with another TSI. */
  ghost predicate IsForeign(tsi: U64, d: Datagram) {
    |d.data| >= MAX_HEADER_BYTES && ParsePacket(d.data, d.len).Parsed? && ParsePacket(d.data, d.len).alc.tsi != tsi
  }

  /** A foreign packet changes nothing, throws nothing, and the receiver goes on listening. */
  lemma ForeignPacketIgnored(c: RxConfig, r: Rx, d: Datagram)
    requires IsForeign(r.tsi, d)
    ensures var o := Receive(c, r, d.data, d.len);
      o == Returned(r) && ListensOn(o)
  {
  }

  // ---------------------------------------------------------------------------------------------
  // Any datagrams
  // ---------------------------------------------------------------------------------------------

  /** The datagrams that are not foreign, in their order. */
  ghost function WithoutForeign(tsi: U64, datagrams: seq<Datagram>): seq<Datagram>
    decreases |datagrams|
  {
    if datagrams == [] then []
    else (if IsForeign(tsi, datagrams[0]) then [] else [datagrams[0]]) + WithoutForeign(tsi, datagrams[1..])
  }

  lemma {:induction false} WithoutForeignReceivable(tsi: U64, datagrams: seq<Datagram>)
    requires Receivable(datagrams)
    ensures Receivable(WithoutForeign(tsi, datagrams))
    decreases |datagrams|
  {
    if datagrams != [] {
      WithoutForeignReceivable(tsi, datagrams[1..]);
    }
  }

  lemma {:induction false} ParseKeepsTsi(c: RxConfig, r: Rx, d: Datagram)
    requires |d.data| >= MAX_HEADER_BYTES
    ensures Receive(c, r, d.data, d.len).state.tsi == r.tsi
  {
    hide ParsePacket, PutAll, PayloadSymbols, StartAll, DecodedContent, ReceivingFile;
  }

  /** A run of any datagrams ends as the run of those that are not foreign: in the same state, throwing the same. */
  lemma {:induction false} HeardWithoutForeign(c: RxConfig, r: Rx, datagrams: seq<Datagram>)
    requires Receivable(datagrams)
    ensures Receivable(WithoutForeign(r.tsi, datagrams))
    ensures Heard(c, r, datagrams) == Heard(c, r, WithoutForeign(r.tsi, datagrams))
    decreases |datagrams|
  {
    hide Receive, ListensOn, IsForeign;
    WithoutForeignReceivable(r.tsi, datagrams);
    if datagrams != [] {
      var d, rest := datagrams[0], datagrams[1..];
      if IsForeign(r.tsi, d) {
        ForeignPacketIgnored(c, r, d);
        HeardWithoutForeign(c, r, rest);
        assert WithoutForeign(r.tsi, datagrams) == WithoutForeign(r.tsi, rest);
      } else {
        var o := Receive(c, r, d.data, d.len);
        ParseKeepsTsi(c, r, d);
        HeardWithoutForeign(c, o.state, rest);
        assert WithoutForeign(r.tsi, datagrams)[1..] == WithoutForeign(r.tsi, rest);
      }
    }
  }

  // ---------------------------------------------------------------------------------------------
  // Runs of a session
  // ---------------------------------------------------------------------------------------------

  /** What happens to a receiver: a step of its own session, or a packet of another one. */
  datatype Event = Own(step: Step) | Foreign(datagram: Datagram)

  ghost predicate EventGood(c: RxConfig, ss: Session, e: Event) {
    match e
    case Own(step) => StepGenuine(c, ss, step)
    case Foreign(d) => IsForeign(ss.tsi, d)
  }

  ghost predicate EventsGood(c: RxConfig, ss: Session, events: seq<Event>) {
    forall i :: 0 <= i < |events| ==> EventGood(c, ss, events[i])
  }

  ghost function Happens(c: RxConfig, ss: Session, r: Rx, e: Event): Outcome<Rx>
    requires EventGood(c, ss, e)
  {
    match e
    case Own(Arrives(p)) => Received(c, ss, r, p)
    case Own(RemovesLocation(location)) => Returned(RemoveLocation(r, location))
    case Own(RemovesExpired(expired)) => Returned(RemoveExpired(r, expired))
    case Foreign(d) => Receive(c, r, d.data, d.len)
  }

  /** The outcome of a run, which ends where the receiver does not listen on. */
  ghost function Experienced(c: RxConfig, ss: Session, r: Rx, events: seq<Event>): Outcome<Rx>
    requires EventsGood(c, ss, events)
    decreases |events|
  {
    if events == [] then Returned(r)
    else
      assert EventGood(c, ss, events[0]);
      var o := Happens(c, ss, r, events[0]);
      if ListensOn(o) then Experienced(c, ss, o.state, events[1..]) else o
  }

  ghost function OwnSteps(events: seq<Event>): seq<Step>
    decreases |events|
  {
    if events == [] then []
    else (if events[0].Own? then [events[0].step] else []) + OwnSteps(events[1..])
  }

  lemma OwnStepHappens(c: RxConfig, ss: Session, s: Reception, step: Step)
    requires StepGenuine(c, ss, step) && StepReturns(c, ss, s, step)
    ensures Happens(c, ss, s.rx, Own(step)) == Returned(After(c, ss, s, step).rx)
  {
    hide Receive, IsGenuine;
  }

  lemma StepKeepsTsi(c: RxConfig, ss: Session, s: Reception, step: Step)
    requires StepGenuine(c, ss, step)
    ensures After(c, ss, s, step).rx.tsi == s.rx.tsi
  {
    hide Receive, IsGenuine;
    if step.Arrives? {
      GenuineIsReceivable(c, ss, step.packet);
      ParseKeepsTsi(c, s.rx, Datagram(PacketOf(ss, step.packet) + step.packet.stale, |PacketOf(ss, step.packet)|));
    }
  }

  lemma GenuineIsReceivable(c: RxConfig, ss: Session, p: Packet)
    requires IsGenuine(c, ss, p)
    ensures Sendable(ss, p) && |PacketOf(ss, p) + p.stale| >= MAX_HEADER_BYTES
  {
    hide PacketOf;
  }

  /** Where the steps of the session throw nothing, no foreign packet among them is noticed. */
  lemma {:induction false} ForeignUnnoticed(c: RxConfig, ss: Session, s: Reception, events: seq<Event>)
    requires EventsGood(c, ss, events) && s.rx.tsi == ss.tsi
    requires RunGenuine(c, ss, OwnSteps(events)) && RunReturns(c, ss, s, OwnSteps(events))
    ensures Experienced(c, ss, s.rx, events) == Returned(AfterAll(c, ss, s, OwnSteps(events)).rx)
    decreases |events|
  {
    hide StepGenuine, StepReturns, After, Happens, IsForeign;
    if events != [] {
      var e, rest := events[0], events[1..];
      assert EventGood(c, ss, e);
      match e {
        case Own(step) =>
          assert OwnSteps(events)[0] == step && OwnSteps(events)[1..] == OwnSteps(rest);
          OwnStepHappens(c, ss, s, step);
          StepKeepsTsi(c, ss, s, step);
          ForeignUnnoticed(c, ss, After(c, ss, s, step), rest);
        case Foreign(d) =>
          assert OwnSteps(events) == OwnSteps(rest);
          ForeignHappens(c, ss, s.rx, d);
          ForeignUnnoticed(c, ss, s, rest);
      }
    }
  }

  lemma ForeignHappens(c: RxConfig, ss: Session, r: Rx, d: Datagram)
    requires IsForeign(ss.tsi, d) && r.tsi == ss.tsi
    ensures Happens(c, ss, r, Foreign(d)) == Returned(r)
  {
    hide IsForeign, Receive;
    ForeignPacketIgnored(c, r, d);
  }

  /** Safety among foreign packets: whatever comes in between, the callbacks stay those of the session's own run. */
  lemma SafeAmongForeign(c: RxConfig, ss: Session, events: seq<Event>)
    requires SessionGood(c, ss) && c.hasCallback && EventsGood(c, ss, events)
    requires RunGenuine(c, ss, OwnSteps(events)) && RunFitsText(c, ss, Fresh(ss), OwnSteps(events))
    ensures var o := Experienced(c, ss, NewReceiver(ss.tsi), events);
      o.Returned? && DeliveriesRight(ss, o.state.log)
  {
    hide SessionGood, RunGenuine, RunFitsText, DeliveriesRight, EventsGood, Experienced, OwnSteps, RunReturns, AfterAll;
    CallbacksAreSafe(c, ss, OwnSteps(events));
    ForeignUnnoticed(c, ss, Fresh(ss), events);
  }

  /**
   * Liveness among foreign packets: once a table that lists an object is installed, and all packets of the object
   * arrive after that, with packets of other sessions anywhere, the object has been delivered since.
   */
  lemma DeliveredAmongForeign(
    c: RxConfig, ss: Session, events: seq<Event>, before: seq<Step>, after: seq<Step>, i: nat, t: U16)
    requires SessionGood(c, ss) && c.hasCallback && DistinctLocations(ss) && t != 0 && t in ss.objects
    requires EventsGood(c, ss, events) && OwnSteps(events) == before + after
    requires OnlyPackets(before) && OnlyPackets(after) && RunGenuine(c, ss, before + after)
    requires RunFitsText(c, ss, Fresh(ss), before + after) && RunGenuine(c, ss, before)
    requires ListsAt(AfterAll(c, ss, Fresh(ss), before).rx.log, i, t) && CanCut(ss.objects[t].oti)
    requires forall k: nat, j: nat :: HasSymbol(ss.objects[t].oti, k, j) ==> ArrivesIn(after, t, (k, j))
    ensures var o := Experienced(c, ss, NewReceiver(ss.tsi), events);
      o.Returned? && FinishedSince(o.state.log, i, t)
  {
    hide SessionGood, RunGenuine, RunFitsText, DistinctLocations, HasSymbol, ArrivesIn, FinishedSince, AfterAll,
         OnlyPackets, EventsGood, Experienced, OwnSteps, RunReturns;
    CallbacksAreSafe(c, ss, before + after);
    ForeignUnnoticed(c, ss, Fresh(ss), events);
    SplitSteps(c, ss, Fresh(ss), before, after);
    ListedIsDelivered(c, ss, before, after, i, t);
  }
}
