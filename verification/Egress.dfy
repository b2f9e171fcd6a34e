/** `path_egress`: classify a packet, count it, roll and probe the filter, and report it. */
module Egress {
  import opened Wrappers
  import opened Bytes
  import opened BloomHash
  import opened BloomFilter
  import opened BloomRuns
  import opened Headers
  import RingReader
  import Lpm

  /** Source and destination tables, and the machine's byte order. */
  datatype Setup = Setup(src: Lpm.PrefixTable, dst: Lpm.PrefixTable, little: bool)

  /** How a packet ends: in one of the drop counters, or zoned, with the key it probes. */
  datatype Verdict = Skip(reason: Reason) | Zoned(zone: nat, probe: Option<Key>)

  datatype Reason = NoIPv4 | NoTcp | Short | PureAck | NoSrcZone | NoDstZone

  /** A header field as the program loads it, in the machine's byte order. */
  function Load32(x: nat, little: bool): nat
    requires x < 0x1_0000_0000
  {
    Native32(Split4(x), little)
  }

  function Load16(x: nat, little: bool): nat
    requires x < 0x10000
  {
    var b := Split2(x);
    if little then Join2(b[1], b[0]) else Join2(b[0], b[1])
  }

  predicate Bounded(s: Segment) {
    s.saddr < 0x1_0000_0000 && s.daddr < 0x1_0000_0000 && s.sport < 0x10000 && s.dport < 0x10000
  }

  predicate IsPureAck(s: Segment) {
    s.payload == 0 && !s.syn && !s.fin && !s.rst
  }

  /** Payload is keyed by 16-byte block, a bare SYN by its sequence number; nothing else is probed. */
  function ProbeOf(s: Segment, little: bool): Option<Key>
    requires Bounded(s)
  {
    var flow := Flow(Load32(s.saddr, little), Load32(s.daddr, little), Load16(s.sport, little), Load16(s.dport, little));
    if s.payload > 0 then Some(Key(flow, s.seqNo / 16))
    else if s.syn && !s.ack then Some(Key(flow, s.seqNo))
    else None
  }

  lemma Load32Injective(x: nat, y: nat, little: bool)
    requires x < 0x1_0000_0000 && y < 0x1_0000_0000
    ensures Load32(x, little) == Load32(y, little) <==> x == y
  {
    var a, b := Split4(x), Split4(y);
    Join4Injective(a[0], a[1], a[2], a[3], b[0], b[1], b[2], b[3]);
    Join4Injective(a[3], a[2], a[1], a[0], b[3], b[2], b[1], b[0]);
  }

  lemma Load16Injective(x: nat, y: nat, little: bool)
    requires x < 0x10000 && y < 0x10000
    ensures Load16(x, little) == Load16(y, little) <==> x == y
  {}

  /**
   Two probed segments share a key exactly when they are of one connection and agree in position:
   the 16-byte block for payload, the sequence number for a bare SYN.
   */
  lemma SameProbeIff(s: Segment, t: Segment, little: bool)
    requires Bounded(s) && Bounded(t) && ProbeOf(s, little).Some? && ProbeOf(t, little).Some?
    ensures ProbeOf(s, little) == ProbeOf(t, little) <==>
              && s.saddr == t.saddr && s.daddr == t.daddr && s.sport == t.sport && s.dport == t.dport
              && (if s.payload > 0 then s.seqNo / 16 else s.seqNo) == (if t.payload > 0 then t.seqNo / 16 else t.seqNo)
  {
    Load32Injective(s.saddr, t.saddr, little);
    Load32Injective(s.daddr, t.daddr, little);
    Load16Injective(s.sport, t.sport, little);
    Load16Injective(s.dport, t.dport, little);
  }

  lemma ParsedBounded(skb: Skb)
    requires Parse(skb).Tcp?
    ensures Bounded(Parse(skb).seg)
  {}

  function Classify(skb: Skb, u: Setup): Verdict {
    match Parse(skb)
    case NotIPv4 => Skip(NoIPv4)
    case NotTcp => Skip(NoTcp)
    case TcpShort => Skip(Short)
    case Tcp(s) =>
      ParsedBounded(skb);
      Route(s, u)
  }

  function Route(s: Segment, u: Setup): Verdict
    requires Bounded(s)
  {
    if IsPureAck(s) then Skip(PureAck)
    else if Lpm.Lookup(u.src, s.saddr).None? then Skip(NoSrcZone)
    else
      match Lpm.Lookup(u.dst, s.daddr)
      case None => Skip(NoDstZone)
      case Some(zone) => Zoned(zone, ProbeOf(s, u.little))
  }

  lemma SkipReasons(skb: Skb, u: Setup)
    ensures Classify(skb, u) == Skip(NoIPv4) <==> Parse(skb) == NotIPv4
    ensures Classify(skb, u) == Skip(NoTcp) <==> Parse(skb) == NotTcp
    ensures Classify(skb, u) == Skip(Short) <==> Parse(skb) == TcpShort
  {
    if Parse(skb).Tcp? { ParsedBounded(skb); }
  }

  /** Which counter a frame with an IPv4 header ends in, up to the TCP header, by the bytes of the frame. */
  lemma FrameSkippedIff(skb: Skb, macs: seq<Byte>, i: IpHeader, rest: seq<Byte>, u: Setup)
    requires IpOk(i) && |macs| == 12 && skb.data == macs + [0x08, 0x00] + IpBytes(i) + rest
    ensures Classify(skb, u) != Skip(NoIPv4)
    ensures Classify(skb, u) == Skip(NoTcp) <==> i.proto != TCP_PROTO
    ensures Classify(skb, u) == Skip(Short) <==> i.proto == TCP_PROTO && BadTcp(i, rest)
  {
    SkipReasons(skb, u);
    EthernetOutcome(skb, macs, i, rest);
  }

  lemma PureAckFlags(flags: Byte)
    ensures !Flag(flags, 1) && !Flag(flags, 2) && !Flag(flags, 4) <==> flags % 8 == 0
  {}

  lemma RoutePureAck(s: Segment, u: Setup)
    requires Bounded(s)
    ensures Route(s, u) == Skip(PureAck) <==> s.payload == 0 && !s.syn && !s.fin && !s.rst
  {}

  /**
   A TCP frame is left out as a bare acknowledgement exactly when it has no payload and none of
   FIN, SYN and RST, the low three control bits; so a bare FIN or RST counts as a segment.
   */
  lemma PureAckIff(skb: Skb, macs: seq<Byte>, i: IpHeader, t: TcpHeader, tail: seq<Byte>, payload: nat, u: Setup)
    requires IpOk(i) && TcpOk(t) && i.proto == TCP_PROTO && |macs| == 12
    requires i.total == IP_MIN + |i.options| + t.words * 4 + payload
    requires skb.data == macs + [0x08, 0x00] + IpBytes(i) + TcpBytes(t) + tail
    ensures Classify(skb, u) == Skip(PureAck) <==> payload == 0 && t.flags % 8 == 0
  {
    EthernetParses(skb, macs, i, t, tail, payload);
    ParsedBounded(skb);
    PureAckFlags(t.flags);
    RoutePureAck(Meaning(i, t, payload), u);
  }

  // ---- one packet ----

  /** A packet, the clock reading taken if it is zoned, and whether the ring has room for its event. */
  datatype Arrival = Arrival(skb: Skb, now: nat, reserved: bool)

  /** An arrival as far as its verdict. */
  datatype Item = Item(verdict: Verdict, ifindex: nat, now: nat, reserved: bool)

  function ItemOf(a: Arrival, u: Setup): Item {
    Item(Classify(a.skb, u), a.skb.ifindex, a.now, a.reserved)
  }

  datatype Counters = Counters(seen: nat, notIPv4: nat, notTcp: nat, short: nat, pureAck: nat,
                               payload: nat, noSrc: nat, noDst: nat, zoned: nat)

  function Count(c: Counters, v: Verdict): Counters {
    match v
    case Skip(NoIPv4) => c.(notIPv4 := c.notIPv4 + 1)
    case Skip(NoTcp) => c.(notTcp := c.notTcp + 1)
    case Skip(Short) => c.(short := c.short + 1)
    case Skip(PureAck) => c.(pureAck := c.pureAck + 1)
    case Skip(NoSrcZone) => c.(payload := c.payload + 1, noSrc := c.noSrc + 1)
    case Skip(NoDstZone) => c.(payload := c.payload + 1, noDst := c.noDst + 1)
    case Zoned(_, _) => c.(payload := c.payload + 1, zoned := c.zoned + 1)
  }

  /** `lost` counts events for which the ring had no room. */
  datatype State = State(counters: Counters, filter: Filter, events: seq<RingReader.Event>, lost: nat)

  const START: State := State(Counters(0, 0, 0, 0, 0, 0, 0, 0, 0), EMPTY, [], 0)

  /** A zoned packet as the filter sees it. */
  function PacketOf(now: nat, probe: Option<Key>): Packet {
    Packet(now, if probe.Some? then Some(BitsOf(probe.value)) else None)
  }

  /** Does the filter, as the packet finds it, take its key for a repeat? */
  predicate Repeat(f: Filter, p: Packet) {
    p.probe.Some? && Seen(Roll(f, p.now), p.probe.value)
  }

  function Next(s: State, it: Item): State {
    Finish(s.(counters := s.counters.(seen := s.counters.seen + 1)), it)
  }

  /** What remains to be done once the packet is counted as seen. */
  function Finish(s: State, it: Item): State {
    var s' := s.(counters := Count(s.counters, it.verdict));
    if it.verdict.Skip? then s' else
    var s'' := s'.(filter := BloomRuns.Step(s.filter, PacketOf(it.now, it.verdict.probe)));
    if it.reserved then s''.(events := s.events + [EventOf(s.filter, it)]) else s''.(lost := s.lost + 1)
  }

  function EventOf(f: Filter, it: Item): RingReader.Event
    requires it.verdict.Zoned?
  {
    RingReader.Event(it.ifindex, it.verdict.zone, if Repeat(f, PacketOf(it.now, it.verdict.probe)) then 1 else 0)
  }

  /** The program with its maps. */
  class Program {
    const setup: Setup
    const table: Table
    var counters: Counters
    var events: seq<RingReader.Event>
    var lost: nat

    ghost predicate Valid()
      reads this, table, table.stamps, table.words
    {
      table.Valid()
    }

    ghost function View(): State
      reads this, table
    {
      State(counters, table.model, events, lost)
    }

    constructor (u: Setup)
      ensures Valid() && View() == START && setup == u && fresh(table) && fresh(table.stamps) && fresh(table.words)
    {
      setup := u;
      counters, events, lost := START.counters, [], 0;
      table := new Table();
    }

    /** `path_egress` */
    method PathEgress(a: Arrival)
      requires Valid() && a.now < U64
      modifies this, table, table.stamps, table.words
      ensures Valid() && View() == Next(old(View()), ItemOf(a, setup))
    {
      counters := counters.(seen := counters.seen + 1);
      match Headers.Parse(a.skb) {
        case NotIPv4 => counters := counters.(notIPv4 := counters.notIPv4 + 1);
        case NotTcp => counters := counters.(notTcp := counters.notTcp + 1);
        case TcpShort => counters := counters.(short := counters.short + 1);
        case Tcp(s) =>
          ParsedBounded(a.skb);
          HandleSegment(s, a.skb.ifindex, a.now, a.reserved);
      }
    }

    /** The half of `path_egress` after the TCP header is found. */
    method HandleSegment(s: Segment, ifindex: nat, now: nat, reserved: bool)
      requires Valid() && now < U64 && Bounded(s)
      modifies this, table, table.stamps, table.words
      ensures Valid() && View() == Finish(old(View()), Item(Route(s, setup), ifindex, now, reserved))
    {
      if s.payload == 0 && !s.syn && !s.fin && !s.rst {
        counters := counters.(pureAck := counters.pureAck + 1);
        return;
      }
      counters := counters.(payload := counters.payload + 1);
      if Lpm.Lookup(setup.src, s.saddr).None? {
        counters := counters.(noSrc := counters.noSrc + 1);
        return;
      }
      var zone := Lpm.Lookup(setup.dst, s.daddr);
      if zone.None? {
        counters := counters.(noDst := counters.noDst + 1);
        return;
      }
      counters := counters.(zoned := counters.zoned + 1);
      Report(s, zone.value, ifindex, now, reserved);
    }

    /** Probe the filter and submit the event. */
    method Report(s: Segment, zone: nat, ifindex: nat, now: nat, reserved: bool)
      requires Valid() && now < U64 && Bounded(s)
      modifies this`events, this`lost, table, table.stamps, table.words
      ensures Valid()
      ensures var p, f := PacketOf(now, ProbeOf(s, setup.little)), old(table.model);
              && table.model == BloomRuns.Step(f, p)
              && events == old(events) +
                           (if reserved then [RingReader.Event(ifindex, zone, if Repeat(f, p) then 1 else 0)] else [])
              && lost == old(lost) + if reserved then 0 else 1
    {
      var retrans := ProbeFilter(s, now);
      if reserved {
        events := events + [RingReader.Event(ifindex, zone, if retrans then 1 else 0)];
      } else {
        lost := lost + 1;
      }
    }

    /** Roll the epoch, then test and set the segment's key if it has one. */
    method ProbeFilter(s: Segment, now: nat) returns (retrans: bool)
      requires Valid() && now < U64 && Bounded(s)
      modifies table, table.stamps, table.words
      ensures Valid()
      ensures var p := PacketOf(now, ProbeOf(s, setup.little));
              table.model == BloomRuns.Step(old(table.model), p) && retrans == Repeat(old(table.model), p)
    {
      table.MaybeRoll(now);
      retrans := false;
      var flow := Flow(Load32(s.saddr, setup.little), Load32(s.daddr, setup.little),
                       Load16(s.sport, setup.little), Load16(s.dport, setup.little));
      if s.payload > 0 {
        retrans := table.TestAndSet(Key(flow, s.seqNo / 16));
      } else if s.syn && !s.ack {
        retrans := table.TestAndSet(Key(flow, s.seqNo));
      }
    }
  }
}
