/** Whole runs of the egress program over any packets. */
module EgressRuns {
  import opened Wrappers
  import opened BloomHash
  import opened BloomFilter
  import opened BloomRuns
  import opened Headers
  import opened Egress
  import RingReader

  function After(run: seq<Item>, k: nat): State
    requires k <= |run|
  {
    if k == 0 then START else Next(After(run, k - 1), run[k - 1])
  }

  // ---- accounting ----

  /** How many of the first k packets were skipped for the given reason. */
  function Skipped(run: seq<Item>, k: nat, r: Reason): nat
    requires k <= |run|
  {
    if k == 0 then 0 else Skipped(run, k - 1, r) + (if run[k - 1].verdict == Skip(r) then 1 else 0)
  }

  /** The zoned packets among the first k, in order. */
  function ZonedPackets(run: seq<Item>, k: nat): seq<Packet>
    requires k <= |run|
  {
    if k == 0 then [] else
    var v := run[k - 1].verdict;
    ZonedPackets(run, k - 1) + (if v.Zoned? then [PacketOf(run[k - 1].now, v.probe)] else [])
  }

  /** The counter of packets skipped for the given reason. */
  function Tally(c: Counters, r: Reason): nat {
    match r
    case NoIPv4 => c.notIPv4
    case NoTcp => c.notTcp
    case Short => c.short
    case PureAck => c.pureAck
    case NoSrcZone => c.noSrc
    case NoDstZone => c.noDst
  }

  lemma TallyStep(s: State, it: Item, r: Reason)
    ensures var c, c' := s.counters, Next(s, it).counters;
            && c'.seen == c.seen + 1
            && Tally(c', r) == Tally(c, r) + (if it.verdict == Skip(r) then 1 else 0)
            && c'.zoned == c.zoned + if it.verdict.Zoned? then 1 else 0
  {
    var c := s.counters.(seen := s.counters.seen + 1);
    assert Next(s, it).counters == Count(c, it.verdict);
    match it.verdict
    case Skip(NoIPv4) =>
    case Skip(NoTcp) =>
    case Skip(Short) =>
    case Skip(PureAck) =>
    case Skip(NoSrcZone) =>
    case Skip(NoDstZone) =>
    case Zoned(_, _) =>
  }

  /** Each counter counts what its name says. */
  lemma {:induction false} CountersExact(run: seq<Item>, k: nat, r: Reason)
    requires k <= |run|
    ensures var c := After(run, k).counters;
            c.seen == k && Tally(c, r) == Skipped(run, k, r) && c.zoned == |ZonedPackets(run, k)|
  {
    if k > 0 {
      CountersExact(run, k - 1, r);
      TallyStep(After(run, k - 1), run[k - 1], r);
    }
  }

  /** Every packet seen, every payload packet and every zoned packet is accounted for once. */
  ghost predicate Balanced(s: State) {
    var c := s.counters;
    && c.seen == c.notIPv4 + c.notTcp + c.short + c.pureAck + c.payload
    && c.payload == c.noSrc + c.noDst + c.zoned
    && c.zoned == |s.events| + s.lost
  }

  lemma BalancedStep(s: State, it: Item)
    requires Balanced(s)
    ensures Balanced(Next(s, it))
  {}

  lemma {:induction false} Accounting(run: seq<Item>, k: nat)
    requires k <= |run|
    ensures Balanced(After(run, k))
  {
    if k > 0 {
      Accounting(run, k - 1);
      BalancedStep(After(run, k - 1), run[k - 1]);
    }
  }

  // ---- the filter sees exactly the zoned packets ----

  lemma {:induction false} BeforePrefix(ps: seq<Packet>, qs: seq<Packet>, i: nat)
    requires i <= |ps| && ps <= qs
    ensures Before(ps, i) == Before(qs, i)
  {
    if i > 0 { BeforePrefix(ps, qs, i - 1); }
  }

  lemma {:induction false} FilterFollows(run: seq<Item>, k: nat)
    requires k <= |run|
    ensures var ps := ZonedPackets(run, k); After(run, k).filter == Before(ps, |ps|)
  {
    if k > 0 {
      FilterFollows(run, k - 1);
      var qs, ps := ZonedPackets(run, k - 1), ZonedPackets(run, k);
      BeforePrefix(qs, ps, |qs|);
    }
  }

  lemma {:induction false} ZonedGrow(run: seq<Item>, j: nat, k: nat)
    requires j <= k <= |run|
    ensures ZonedPackets(run, j) <= ZonedPackets(run, k)
  {
    if j < k { ZonedGrow(run, j, k - 1); }
  }

  predicate IsZoned(run: seq<Item>, i: nat)
    requires i < |run|
  {
    run[i].verdict.Zoned?
  }

  /** The event of packet i says what the run of zoned packets says of it. */
  lemma EventTellsFlag(run: seq<Item>, i: nat)
    requires i < |run| && IsZoned(run, i) && run[i].reserved
    ensures var ps, n := ZonedPackets(run, i + 1), |ZonedPackets(run, i)|;
            && n < |ps| && ps[n] == PacketOf(run[i].now, run[i].verdict.probe)
            && After(run, i + 1).events ==
                 After(run, i).events +
                 [RingReader.Event(run[i].ifindex, run[i].verdict.zone, if Flagged(ps, n) then 1 else 0)]
  {
    var qs, ps := ZonedPackets(run, i), ZonedPackets(run, i + 1);
    FilterFollows(run, i);
    BeforePrefix(qs, ps, |qs|);
  }

  /** A set flag needs a payload or a bare SYN. */
  lemma FlagNeedsProbe(f: Filter, a: Arrival, u: Setup)
    requires Classify(a.skb, u).Zoned? && EventOf(f, ItemOf(a, u)).retrans == 1
    ensures Parse(a.skb).Tcp?
    ensures var s := Parse(a.skb).seg; s.payload > 0 || (s.syn && !s.ack)
  {
    var it := ItemOf(a, u);
    assert it.verdict.probe.Some?;
    ParsedBounded(a.skb);
    assert it.verdict == Route(Parse(a.skb).seg, u);
  }

  ghost predicate ClockForward(run: seq<Item>) {
    forall i, j :: 0 <= i <= j < |run| ==> run[i].now <= run[j].now
  }

  lemma {:induction false} ZonedMonotone(run: seq<Item>, k: nat)
    requires k <= |run| && ClockForward(run)
    ensures Monotone(ZonedPackets(run, k))
    ensures forall i :: 0 <= i < |ZonedPackets(run, k)| ==> k > 0 && ZonedPackets(run, k)[i].now <= run[k - 1].now
  {
    if k > 0 {
      ZonedMonotone(run, k - 1);
      if k > 1 { assert run[k - 2].now <= run[k - 1].now; }
    }
  }

  /** Both packets are segments of one flow, both probed, under the same key. */
  ghost predicate SameProbe(run: seq<Item>, j: nat, i: nat) {
    && j < |run| && i < |run| && IsZoned(run, j) && IsZoned(run, i)
    && run[j].verdict.probe.Some? && run[j].verdict.probe == run[i].verdict.probe
  }

  /**
   From packet to event: a zoned segment that repeats a key probed at most 1.5 s (and 1 ns) before is
   reported as a retransmit, whatever came in between.
   */
  lemma RepeatReported(run: seq<Item>, j: nat, i: nat)
    requires ClockForward(run) && j < i && SameProbe(run, j, i)
    requires run[i].now - run[j].now <= EPOCH_NS + 1 && run[i].reserved
    ensures After(run, i + 1).events ==
              After(run, i).events + [RingReader.Event(run[i].ifindex, run[i].verdict.zone, 1)]
  {
    var ps, m, n := ZonedPackets(run, i + 1), |ZonedPackets(run, j)|, |ZonedPackets(run, i)|;
    EventTellsFlag(run, i);
    ZonedMonotone(run, i + 1);
    ZonedGrow(run, j + 1, i);
    ZonedGrow(run, i, i + 1);
    assert ps[m] == ZonedPackets(run, j + 1)[m];
    NoMissedRepeat(ps, m, n);
  }

  /** Sending the same payload, or the same bare SYN, again on the same connection probes the same key. */
  ghost predicate Resent(s: Segment, t: Segment) {
    && s.saddr == t.saddr && s.daddr == t.daddr && s.sport == t.sport && s.dport == t.dport && s.seqNo == t.seqNo
    && if s.payload > 0 then t.payload > 0 else t.payload == 0 && s.syn && t.syn && !s.ack && !t.ack
  }

  lemma ResentSameProbe(s: Segment, t: Segment, u: Setup)
    requires Bounded(s) && Bounded(t) && Resent(s, t) && Route(s, u).Zoned?
    ensures Route(t, u).Zoned? && Route(t, u).zone == Route(s, u).zone
    ensures Route(s, u).probe.Some? && Route(s, u).probe == Route(t, u).probe
  {}

  function Items(arrivals: seq<Arrival>, u: Setup): (run: seq<Item>)
    ensures |run| == |arrivals|
  {
    seq(|arrivals|, i requires 0 <= i < |arrivals| => ItemOf(arrivals[i], u))
  }

  /** The program attached to an interface, over everything that leaves it. */
  method RunEgress(u: Setup, arrivals: seq<Arrival>) returns (p: Program)
    requires forall i :: 0 <= i < |arrivals| ==> arrivals[i].now < U64
    ensures p.Valid() && p.setup == u && p.View() == After(Items(arrivals, u), |arrivals|)
  {
    p := new Program(u);
    for i := 0 to |arrivals|
      invariant fresh(p) && fresh(p.table) && fresh(p.table.stamps) && fresh(p.table.words)
      invariant p.Valid() && p.setup == u && p.View() == After(Items(arrivals, u), i)
    {
      p.PathEgress(arrivals[i]);
    }
  }

  /** End to end for the kernel half: a segment sent again within 1.5 s (and 1 ns) is reported as a retransmit. */
  lemma RetransmitReported(arrivals: seq<Arrival>, j: nat, i: nat, u: Setup)
    requires j < i < |arrivals| && ClockForward(Items(arrivals, u))
    requires Parse(arrivals[j].skb).Tcp? && Parse(arrivals[i].skb).Tcp?
    requires Resent(Parse(arrivals[j].skb).seg, Parse(arrivals[i].skb).seg) && Classify(arrivals[j].skb, u).Zoned?
    requires arrivals[i].now - arrivals[j].now <= EPOCH_NS + 1 && arrivals[i].reserved
    ensures var run := Items(arrivals, u);
            After(run, i + 1).events ==
            After(run, i).events + [RingReader.Event(arrivals[i].skb.ifindex, Classify(arrivals[j].skb, u).zone, 1)]
  {
    ParsedBounded(arrivals[j].skb);
    ParsedBounded(arrivals[i].skb);
    ResentSameProbe(Parse(arrivals[j].skb).seg, Parse(arrivals[i].skb).seg, u);
    RepeatReported(Items(arrivals, u), j, i);
  }
}
