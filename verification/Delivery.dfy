/**
 From the packets of a run to the counters of the slots: what the reader has counted for a zone
 once it has read the events in the order they were submitted.
 */
module Delivery {
  import opened Wrappers
  import opened Sorting
  import opened BloomFilter
  import opened Zones
  import opened Headers
  import opened Egress
  import opened EgressRuns
  import opened Pipeline
  import BloomRuns
  import RingReader
  import Lpm

  /** The filter took packet i for a repeat. */
  predicate IsFlagged(run: seq<Item>, i: nat)
    requires i < |run|
  {
    run[i].verdict.Zoned? && BloomRuns.Flagged(ZonedPackets(run, i + 1), |ZonedPackets(run, i)|)
  }

  /** The packet is zoned, its event finds room in the ring, and its zone has the given slot. */
  predicate BoundTo(it: Item, index: map<nat, nat>, slot: nat) {
    it.verdict.Zoned? && it.reserved && it.verdict.zone in index && index[it.verdict.zone] == slot
  }

  /** How many of the first k packets are bound for the slot: all of them, or those the filter took for repeats. */
  function Sent(run: seq<Item>, k: nat, index: map<nat, nat>, slot: nat, flagged: bool): nat
    requires k <= |run|
  {
    if k == 0 then 0 else
    Sent(run, k - 1, index, slot, flagged) +
    if BoundTo(run[k - 1], index, slot) && (flagged ==> IsFlagged(run, k - 1)) then 1 else 0
  }

  // ---- events ----

  predicate GoesTo(e: RingReader.Event, index: map<nat, nat>, slot: nat) {
    e.zone in index && index[e.zone] == slot
  }

  /** The first n events that go to the slot: all of them, or those with the flag set. */
  function EventCount(events: seq<RingReader.Event>, n: nat, index: map<nat, nat>, slot: nat, flagged: bool): nat
    requires n <= |events|
  {
    if n == 0 then 0 else
    EventCount(events, n - 1, index, slot, flagged) +
    if GoesTo(events[n - 1], index, slot) && (flagged ==> events[n - 1].retrans != 0) then 1 else 0
  }

  lemma {:induction false} EventCountPrefix(events: seq<RingReader.Event>, more: seq<RingReader.Event>, n: nat,
                                            index: map<nat, nat>, slot: nat, flagged: bool)
    requires n <= |events| && events <= more
    ensures EventCount(events, n, index, slot, flagged) == EventCount(more, n, index, slot, flagged)
  {
    if n > 0 { EventCountPrefix(events, more, n - 1, index, slot, flagged); }
  }

  lemma EventCountSnoc(events: seq<RingReader.Event>, e: RingReader.Event, index: map<nat, nat>, slot: nat, flagged: bool)
    ensures EventCount(events + [e], |events| + 1, index, slot, flagged) ==
              EventCount(events, |events|, index, slot, flagged) +
              if GoesTo(e, index, slot) && (flagged ==> e.retrans != 0) then 1 else 0
  {
    EventCountPrefix(events, events + [e], |events|, index, slot, flagged);
  }

  /** A packet submits one event if it is zoned and there is room, and otherwise none. */
  lemma EventsStep(run: seq<Item>, k: nat)
    requires k < |run|
    ensures var before, after := After(run, k).events, After(run, k + 1).events;
            if IsZoned(run, k) && run[k].reserved
            then after == before + [EventFor(run, k)]
            else after == before
  {
    if IsZoned(run, k) && run[k].reserved { EventTellsFlag(run, k); }
  }

  function EventFor(run: seq<Item>, i: nat): RingReader.Event
    requires i < |run| && IsZoned(run, i)
  {
    RingReader.Event(run[i].ifindex, run[i].verdict.zone, if IsFlagged(run, i) then 1 else 0)
  }

  /** That event goes where the packet is bound, with the filter's verdict. */
  lemma EventForGoes(run: seq<Item>, i: nat, index: map<nat, nat>, slot: nat)
    requires i < |run| && IsZoned(run, i) && run[i].reserved
    ensures GoesTo(EventFor(run, i), index, slot) <==> BoundTo(run[i], index, slot)
    ensures EventFor(run, i).retrans != 0 <==> IsFlagged(run, i)
  {}

  lemma SentStep(run: seq<Item>, k: nat, before: seq<RingReader.Event>, after: seq<RingReader.Event>,
                 index: map<nat, nat>, slot: nat, flagged: bool)
    requires k < |run|
    requires after == if IsZoned(run, k) && run[k].reserved then before + [EventFor(run, k)] else before
    ensures EventCount(after, |after|, index, slot, flagged) - EventCount(before, |before|, index, slot, flagged) ==
              Sent(run, k + 1, index, slot, flagged) - Sent(run, k, index, slot, flagged)
  {
    if IsZoned(run, k) && run[k].reserved {
      EventForGoes(run, k, index, slot);
      EventCountSnoc(before, EventFor(run, k), index, slot, flagged);
    }
  }

  /** The events of a run are those of its packets, slot by slot. */
  lemma {:induction false} EventsCounted(run: seq<Item>, k: nat, index: map<nat, nat>, slot: nat, flagged: bool)
    requires k <= |run|
    ensures var events := After(run, k).events;
            EventCount(events, |events|, index, slot, flagged) == Sent(run, k, index, slot, flagged)
  {
    if k > 0 {
      EventsCounted(run, k - 1, index, slot, flagged);
      EventsStep(run, k - 1);
      SentStep(run, k - 1, After(run, k - 1).events, After(run, k).events, index, slot, flagged);
    }
  }

  lemma {:induction false} EventsGrow(run: seq<Item>, j: nat, k: nat)
    requires j <= k <= |run|
    ensures After(run, j).events <= After(run, k).events
  {
    if j < k {
      EventsGrow(run, j, k - 1);
      EventsStep(run, k - 1);
    }
  }

  /** Any number of events read are the events of some first packets of the run. */
  lemma {:induction false} ReadUpTo(run: seq<Item>, last: nat, m: nat) returns (k: nat)
    requires last <= |run| && m <= |After(run, last).events|
    ensures k <= last && |After(run, k).events| == m
  {
    k := last;
    if |After(run, last).events| > m {
      EventsStep(run, last - 1);
      k := ReadUpTo(run, last - 1, m);
    }
  }

  // ---- records ----

  /** The records among the first n reads deliver the events one by one, in order. */
  ghost predicate InOrder(events: seq<RingReader.Event>, script: seq<RingReader.Read>, n: nat, little: bool) {
    && n <= |script|
    && forall i :: 0 <= i < n && script[i].Record? ==>
         DeliversNext(script[i].raw, events, RingReader.CountRecords(script, i), little)
  }

  ghost predicate DeliversNext(raw: seq<Bytes.Byte>, events: seq<RingReader.Event>, j: nat, little: bool) {
    j < |events| && Delivers(raw, events[j], little)
  }

  /** The records read are counted slot by slot like the events they deliver. */
  lemma {:induction false} RecordsCounted(events: seq<RingReader.Event>, script: seq<RingReader.Read>, n: nat,
                                          index: map<nat, nat>, slot: nat, little: bool)
    requires InOrder(events, script, n, little)
    ensures var m := RingReader.CountRecords(script, n);
            && m <= |events|
            && RingReader.Segments(script, n, index, slot) == EventCount(events, m, index, slot, false)
            && RingReader.Count(script, n, index, RingReader.Counted(slot, true)) == EventCount(events, m, index, slot, true)
  {
    if n > 0 {
      RecordsCounted(events, script, n - 1, index, slot, little);
      var r, j := script[n - 1], RingReader.CountRecords(script, n - 1);
      if r.Record? {
        assert DeliversNext(r.raw, events, j, little);
        DeliveredHandled(r.raw, events[j], index, little);
      }
    }
  }

  /**
   From packets to counts: when the records read so far are as many as the events of the first k
   packets, each slot has one segment for every packet bound for it, and one retransmit for
   every one of those that the filter took for a repeat.
   */
  lemma CountsPerSlot(run: seq<Item>, last: nat, k: nat, script: seq<RingReader.Read>, n: nat,
                      index: map<nat, nat>, slot: nat, little: bool)
    requires k <= last <= |run| && InOrder(After(run, last).events, script, n, little)
    requires RingReader.CountRecords(script, n) == |After(run, k).events|
    ensures RingReader.Segments(script, n, index, slot) == Sent(run, k, index, slot, false)
    ensures RingReader.Count(script, n, index, RingReader.Counted(slot, true)) == Sent(run, k, index, slot, true)
  {
    var some, all := After(run, k).events, After(run, last).events;
    RecordsCounted(all, script, n, index, slot, little);
    EventsGrow(run, k, last);
    EventCountPrefix(some, all, |some|, index, slot, false);
    EventCountPrefix(some, all, |some|, index, slot, true);
    EventsCounted(run, k, index, slot, false);
    EventsCounted(run, k, index, slot, true);
  }

  lemma InOrderCarries(events: seq<RingReader.Event>, script: seq<RingReader.Read>, little: bool)
    requires InOrder(events, script, |script|, little)
    ensures Carries(events, script, little)
  {
    forall i | 0 <= i < |script| && script[i].Record? ensures DeliversSome(script[i].raw, events, little) {
      assert DeliversNext(script[i].raw, events, RingReader.CountRecords(script, i), little);
    }
  }

  /** The counters hold the counts, modulo 2^64, of the first k packets. */
  ghost predicate Holds(acc: RingReader.Accumulator, run: seq<Item>, k: nat, index: map<nat, nat>)
    requires k <= |run|
    reads acc, acc.segs, acc.rets
  {
    && acc.unknown == 0 && acc.segs.Length == acc.rets.Length
    && forall i :: 0 <= i < acc.segs.Length ==>
         acc.segs[i] == Sent(run, k, index, i, false) % U64 && acc.rets[i] == Sent(run, k, index, i, true) % U64
  }

  /** Counters that started at zero hold the counts of the packets whose events were read. */
  lemma TalliedHolds(acc: RingReader.Accumulator, slots: nat, run: seq<Item>, k: nat,
                     script: seq<RingReader.Read>, n: nat, index: map<nat, nat>, little: bool)
    requires k <= |run| && InOrder(After(run, |run|).events, script, n, little)
    requires RingReader.CountRecords(script, n) == |After(run, k).events|
    requires acc.segs.Length == acc.rets.Length == slots
    requires RingReader.Tallied(acc, script, n, index, Zeros(slots), Zeros(slots), 0)
    requires RingReader.Count(script, n, index, RingReader.Unknown) == 0
    ensures Holds(acc, run, k, index)
  {
    forall i | 0 <= i < acc.segs.Length
      ensures acc.segs[i] == Sent(run, k, index, i, false) % U64 && acc.rets[i] == Sent(run, k, index, i, true) % U64
    {
      CountsPerSlot(run, |run|, k, script, n, index, i, little);
    }
  }

  /** However far the reader gets, it has read the events of some first packets, and dropped none as unknown. */
  lemma ReadSoFar(d: Deployment, arrivals: seq<Arrival>, script: seq<RingReader.Read>, n: nat) returns (k: nat)
    requires Deployed(d) && n <= |script|
    requires InOrder(After(Items(arrivals, d.setup), |arrivals|).events, script, |script|, d.setup.little)
    ensures k <= |arrivals| && RingReader.CountRecords(script, n) == |After(Items(arrivals, d.setup), k).events|
    ensures InOrder(After(Items(arrivals, d.setup), |arrivals|).events, script, n, d.setup.little)
    ensures RingReader.Count(script, n, d.index, RingReader.Unknown) == 0
  {
    var run := Items(arrivals, d.setup);
    var events := After(run, |arrivals|).events;
    InOrderCarries(events, script, d.setup.little);
    UnknownStaysZero(d, arrivals, |arrivals|, script, n);
    RecordsCounted(events, script, n, d.index, 0, d.setup.little);
    k := ReadUpTo(run, |arrivals|, RingReader.CountRecords(script, n));
  }

  /** Slots are within the accumulator made for them. */
  lemma SlotsExist(d: Deployment)
    requires Deployed(d)
    ensures forall id :: id in d.index ==> d.index[id] < |d.zones|
  {}

  /** The reader over the events of a run. */
  method CollectRun(d: Deployment, ghost arrivals: seq<Arrival>, script: seq<RingReader.Read>)
    returns (acc: RingReader.Accumulator, n: nat, ghost k: nat)
    requires Deployed(d)
    requires InOrder(After(Items(arrivals, d.setup), |arrivals|).events, script, |script|, d.setup.little)
    ensures n <= |script| && RingReader.Ended(script, n)
    ensures k <= |arrivals| && RingReader.CountRecords(script, n) == |After(Items(arrivals, d.setup), k).events|
    ensures acc.segs.Length == |d.zones| && Holds(acc, Items(arrivals, d.setup), k, d.index)
  {
    SlotsExist(d);
    acc, n := Collect(d.index, |d.zones|, script, d.setup.little);
    k := ReadSoFar(d, arrivals, script, n);
    TalliedHolds(acc, |d.zones|, Items(arrivals, d.setup), k, script, n, d.index, d.setup.little);
  }

  function Zeros(n: nat): (s: seq<nat>)
    ensures |s| == n && forall i :: 0 <= i < n ==> s[i] == 0
  {
    seq(n, _ => 0)
  }

  /** A fresh accumulator and the reader. */
  method Collect(index: map<nat, nat>, slots: nat, script: seq<RingReader.Read>, little: bool)
    returns (acc: RingReader.Accumulator, n: nat)
    requires forall id :: id in index ==> index[id] < slots
    ensures n <= |script| && RingReader.Ended(script, n)
    ensures acc.Valid() && acc.segs.Length == slots
    ensures RingReader.Tallied(acc, script, n, index, Zeros(slots), Zeros(slots), 0)
  {
    acc := new RingReader.Accumulator(slots);
    assert acc.segs[..] == Zeros(slots) && acc.rets[..] == Zeros(slots);
    var made;
    n, made := RingReader.ReadLoop(acc, script, index, little);
  }

  // ---- which slot ----

  lemma LongestUnique(t: Lpm.PrefixTable, a: nat, p: Lpm.Prefix, q: Lpm.Prefix)
    requires Lpm.Longest(t, a, p) && Lpm.Longest(t, a, q)
    ensures p == q
  {}

  /** A subnet of the zone in the slot is the longest match for the address. */
  ghost predicate BestMatch(d: Deployment, slot: nat, a: nat) {
    slot < |d.zones| && exists p :: Lpm.Longest(d.setup.dst, a, p) && HasSubnet(d.c, d.zones[slot].name, p)
  }

  lemma SubnetListed(c: Config, ids: map<string, nat>, zs: seq<Resolved>, slot: nat, p: Lpm.Prefix)
    requires Resolves(c, ids, zs) && slot < |zs| && HasSubnet(c, zs[slot].name, p)
    ensures Lists(c, zs[slot].name, p)
  {
    var n := zs[slot].name;
    assert exists i :: 0 <= i < |zs| && zs[i].name == n;
    var k :| 0 <= k < |c.zones[n]| && (c.zones[n][k] == Net.V4(p) || (c.zones[n][k] == V6 && p == Lpm.Prefix(0, 0)));
    assert KeyOf(c.zones[n][k]) == p;
  }

  lemma SlotUnique(c: Config, ids: map<string, nat>, zs: seq<Resolved>, i: nat, j: nat)
    requires Resolves(c, ids, zs) && i < |zs| && j < |zs| && zs[i].name == zs[j].name
    ensures i == j
  {
    LessTrichotomy(zs[i].name, zs[j].name);
  }

  lemma BestMatchUnique(d: Deployment, i: nat, j: nat, a: nat)
    requires Resolves(d.c, d.ids, d.zones) && Unambiguous(d.c) && BestMatch(d, i, a) && BestMatch(d, j, a)
    ensures i == j
  {
    var p :| Lpm.Longest(d.setup.dst, a, p) && HasSubnet(d.c, d.zones[i].name, p);
    var q :| Lpm.Longest(d.setup.dst, a, q) && HasSubnet(d.c, d.zones[j].name, q);
    LongestUnique(d.setup.dst, a, p, q);
    SubnetListed(d.c, d.ids, d.zones, i, p);
    SubnetListed(d.c, d.ids, d.zones, j, p);
    SlotUnique(d.c, d.ids, d.zones, i, j);
  }

  /**
   The slot a packet is counted in, by its destination: always one whose zone lists the longest
   matching subnet, and with no prefix under two remote zones exactly that one.
   */
  lemma SlotByDestination(d: Deployment, arrivals: seq<Arrival>, i: nat, slot: nat)
    requires Deployed(d) && i < |arrivals| && Classify(arrivals[i].skb, d.setup).Zoned? && arrivals[i].reserved
    ensures Parse(arrivals[i].skb).Tcp?
    ensures BoundTo(Items(arrivals, d.setup)[i], d.index, slot) ==> BestMatch(d, slot, Parse(arrivals[i].skb).seg.daddr)
    ensures Unambiguous(d.c) && BestMatch(d, slot, Parse(arrivals[i].skb).seg.daddr) ==>
              BoundTo(Items(arrivals, d.setup)[i], d.index, slot)
  {
    ZonedAttributed(d, arrivals[i]);
    var a, own := Parse(arrivals[i].skb).seg.daddr, d.index[Classify(arrivals[i].skb, d.setup).zone];
    assert BestMatch(d, own, a);
    if Unambiguous(d.c) && BestMatch(d, slot, a) { BestMatchUnique(d, own, slot, a); }
  }

  /** A segment sent again within 1.5 s (and 1 ns) is one more retransmit in the slot of its zone. */
  lemma RetransmitCounted(d: Deployment, arrivals: seq<Arrival>, j: nat, i: nat)
    requires Deployed(d) && j < i < |arrivals| && ClockForward(Items(arrivals, d.setup))
    requires Parse(arrivals[j].skb).Tcp? && Parse(arrivals[i].skb).Tcp?
    requires Resent(Parse(arrivals[j].skb).seg, Parse(arrivals[i].skb).seg) && Classify(arrivals[j].skb, d.setup).Zoned?
    requires arrivals[i].now - arrivals[j].now <= EPOCH_NS + 1 && arrivals[i].reserved
    ensures Classify(arrivals[j].skb, d.setup).zone in d.index
    ensures var run, slot := Items(arrivals, d.setup), d.index[Classify(arrivals[j].skb, d.setup).zone];
            && BestMatch(d, slot, Parse(arrivals[i].skb).seg.daddr)
            && Sent(run, i + 1, d.index, slot, false) == Sent(run, i, d.index, slot, false) + 1
            && Sent(run, i + 1, d.index, slot, true) == Sent(run, i, d.index, slot, true) + 1
  {
    ZonedAttributed(d, arrivals[j]);
    RetransmitFlagged(arrivals, j, i, d.setup);
  }

  lemma RetransmitFlagged(arrivals: seq<Arrival>, j: nat, i: nat, u: Setup)
    requires j < i < |arrivals| && ClockForward(Items(arrivals, u))
    requires Parse(arrivals[j].skb).Tcp? && Parse(arrivals[i].skb).Tcp?
    requires Resent(Parse(arrivals[j].skb).seg, Parse(arrivals[i].skb).seg) && Classify(arrivals[j].skb, u).Zoned?
    requires arrivals[i].now - arrivals[j].now <= EPOCH_NS + 1 && arrivals[i].reserved
    ensures var run := Items(arrivals, u);
            IsFlagged(run, i) && run[i].reserved && run[i].verdict.zone == Classify(arrivals[j].skb, u).zone
  {
    var run := Items(arrivals, u);
    RetransmitReported(arrivals, j, i, u);
    EventsStep(run, i);
    var before, after := After(run, i).events, After(run, i + 1).events;
    assert after[|before|] == RingReader.Event(arrivals[i].skb.ifindex, Classify(arrivals[j].skb, u).zone, 1);
  }
}
