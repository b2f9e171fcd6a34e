/**
 The zones across the whole pipeline: from a packet's destination address, through the table,
 the event and its bytes, to the counter slot the reader counts it in.
 */
module Pipeline {
  import opened Wrappers
  import opened Bytes
  import opened Zones
  import opened Headers
  import opened Egress
  import opened EgressRuns
  import RingReader
  import LogSummary
  import Lpm

  /** Everything `main` sets up from an accepted config, in whatever orders its maps are ranged. */
  datatype Deployment = Deployment(c: Config, ids: map<string, nat>, order: seq<string>,
                                   zones: seq<Resolved>, index: map<nat, nat>, setup: Setup)

  ghost predicate Deployed(d: Deployment) {
    && Accepted(d.c)
    && Enumerates(d.order, d.c.zones.Keys) && Numbered(d.ids, SortNames(d.order))
    && Resolves(d.c, d.ids, d.zones) && Indexes(d.index, d.zones)
    && d.ids.Keys == d.c.zones.Keys
    && TableFor(d.c, d.ids, d.order) == Ok(d.setup.dst)
  }

  /** The source table accepts exactly the addresses the source zone claims. */
  ghost predicate SourceExact(d: Deployment) {
    forall a: nat :: a < Lpm.ADDR ==> (Lpm.Lookup(d.setup.src, a).Some? <==> Claims(d.c, d.c.sourceZone, a))
  }

  /** Both prefix tables have room for the distinct keys of the config. */
  ghost predicate Fits(c: Config)
    requires c.sourceZone in c.zones
  {
    |RemoteKeys(c)| <= MAX_ENTRIES && |SourceKeys(c)| <= MAX_ENTRIES
  }

  /** The start of `main`: number the zones, fill both tables, lay out the slots, index them. */
  method Deploy(c: Config, o1: seq<string>, o2: seq<string>, o3: seq<string>, little: bool) returns (r: Result<Deployment>)
    requires Accepted(c)
    requires Enumerates(o1, c.zones.Keys) && Enumerates(o2, c.zones.Keys) && Enumerates(o3, c.zones.Keys)
    ensures r.Ok? <==> Fits(c)
    ensures r.Ok? ==> Deployed(r.value) && SourceExact(r.value) && r.value.c == c && r.value.setup.little == little
  {
    assert |c.zones.Keys| == |c.zones|;
    var numbering := AssignZoneIDs(o1, c.zones.Keys);
    var ids := numbering.value;
    NumberingIgnoresOrder(o1, o2, c.zones.Keys);
    IdsBijective(c, ids, o2);
    var entries := ZoneLPMEntries(c, ids, o2);
    var dst := Load(entries);
    DestinationFitsIff(c, ids, o2);
    if dst.Err? {
      return Err(dst.message);
    }
    var src := LoadSource(c, ids);
    if src.Err? {
      return Err(src.message);
    }
    var zones := RemoteZones(c, ids, o3);
    var index := BuildZoneIndex(zones);
    r := Ok(Deployment(c, ids, o2, zones, index, Setup(src.value, dst.value, little)));
  }

  method LoadSource(c: Config, ids: map<string, nat>) returns (r: Result<Lpm.PrefixTable>)
    requires c.sourceZone in c.zones && c.sourceZone in ids
    ensures r.Ok? <==> |SourceKeys(c)| <= MAX_ENTRIES
    ensures r.Ok? ==> forall a: nat :: a < Lpm.ADDR ==> (Lpm.Lookup(r.value, a).Some? <==> Claims(c, c.sourceZone, a))
  {
    var entries := SourceZoneLPMEntries(c, ids);
    r := Load(entries.value);
    SourceFitsIff(c, ids[c.sourceZone]);
    if r.Ok? {
      forall a: nat | a < Lpm.ADDR ensures Lpm.Lookup(r.value, a).Some? <==> Claims(c, c.sourceZone, a) {
        SourceZonedIff(c, ids[c.sourceZone], a);
      }
    }
  }

  /** The id belongs to the zone in its slot, one of whose subnets is the longest match for the address. */
  ghost predicate Attributed(d: Deployment, id: nat, addr: nat) {
    && id in d.index && d.index[id] < |d.zones|
    && exists p :: Lpm.Longest(d.setup.dst, addr, p) && HasSubnet(d.c, d.zones[d.index[id]].name, p)
  }

  lemma LookupAttributed(d: Deployment, addr: nat)
    requires Deployed(d) && Lpm.Lookup(d.setup.dst, addr).Some?
    ensures Attributed(d, Lpm.Lookup(d.setup.dst, addr).value, addr)
  {
    IdsInjective(d.c, d.ids, d.order);
    RoundTrip(d.c, d.ids, d.order, d.zones, d.index, addr);
  }

  /** Some remote zone claims the address. */
  ghost predicate Reaches(c: Config, a: nat) {
    exists n :: n != c.sourceZone && Claims(c, n, a)
  }

  /** What becomes of a segment, in terms of the config alone. */
  lemma RouteIff(d: Deployment, s: Segment)
    requires Deployed(d) && SourceExact(d) && Bounded(s) && !IsPureAck(s)
    ensures Route(s, d.setup) == Skip(NoSrcZone) <==> !Claims(d.c, d.c.sourceZone, s.saddr)
    ensures Route(s, d.setup) == Skip(NoDstZone) <==> Claims(d.c, d.c.sourceZone, s.saddr) && !Reaches(d.c, s.daddr)
    ensures Route(s, d.setup).Zoned? <==> Claims(d.c, d.c.sourceZone, s.saddr) && Reaches(d.c, s.daddr)
  {
    DestinationZonedIff(d.c, d.ids, d.order, s.daddr);
    assert Lpm.Lookup(d.setup.src, s.saddr).Some? <==> Claims(d.c, d.c.sourceZone, s.saddr);
  }

  /** The zone of a zoned packet is what its destination is looked up to. */
  lemma ZoneLookedUp(skb: Skb, u: Setup)
    requires Classify(skb, u).Zoned?
    ensures Parse(skb).Tcp? && Lpm.Lookup(u.dst, Parse(skb).seg.daddr) == Some(Classify(skb, u).zone)
  {
    ParsedBounded(skb);
    assert Classify(skb, u) == Route(Parse(skb).seg, u);
  }

  /** A zoned packet is attributed by its destination address. */
  lemma ZonedAttributed(d: Deployment, a: Arrival)
    requires Deployed(d) && Classify(a.skb, d.setup).Zoned?
    ensures Parse(a.skb).Tcp? && Attributed(d, Classify(a.skb, d.setup).zone, Parse(a.skb).seg.daddr)
  {
    ZoneLookedUp(a.skb, d.setup);
    LookupAttributed(d, Parse(a.skb).seg.daddr);
  }

  // ---- events keep their zone all the way to the reader ----

  /** Event e reports item i of the run. */
  ghost predicate Reports(run: seq<Item>, e: RingReader.Event, i: int) {
    0 <= i < |run| && run[i].verdict.Zoned? && e.zone == run[i].verdict.zone && e.ifindex == run[i].ifindex && e.retrans < 2
  }

  lemma {:induction false} EventOrigin(run: seq<Item>, k: nat, j: nat)
    requires k <= |run| && j < |After(run, k).events|
    ensures exists i :: Reports(run, After(run, k).events[j], i)
  {
    if k > 0 {
      var before, it := After(run, k - 1), run[k - 1];
      if j < |before.events| {
        EventOrigin(run, k - 1, j);
        assert After(run, k).events[j] == before.events[j];
      } else {
        assert Reports(run, After(run, k).events[j], k - 1);
      }
    }
  }

  /** The sample holds the bytes of the event, with anything in the padding. */
  ghost predicate Delivers(raw: seq<Byte>, e: RingReader.Event, little: bool) {
    && e.ifindex < 0x1_0000_0000 && e.zone < 256 && e.retrans < 256
    && exists pad :: raw == RingReader.Layout(e, pad, little)
  }

  /** A delivered event is counted in the slot of its zone, if it has one, with its flag. */
  lemma DeliveredHandled(raw: seq<Byte>, e: RingReader.Event, index: map<nat, nat>, little: bool)
    requires Delivers(raw, e, little)
    ensures RingReader.Handle(raw, index) ==
              if e.zone in index then RingReader.Counted(index[e.zone], e.retrans != 0) else RingReader.Unknown
  {
    var pad :| raw == RingReader.Layout(e, pad, little);
    RingReader.ParseLayout(e, pad, little);
  }

  /** Every record read delivers one of the events. */
  ghost predicate Carries(events: seq<RingReader.Event>, script: seq<RingReader.Read>, little: bool) {
    forall i :: 0 <= i < |script| && script[i].Record? ==> DeliversSome(script[i].raw, events, little)
  }

  ghost predicate DeliversSome(raw: seq<Byte>, events: seq<RingReader.Event>, little: bool) {
    exists j :: 0 <= j < |events| && Delivers(raw, events[j], little)
  }

  ghost predicate AllKnown(events: seq<RingReader.Event>, index: map<nat, nat>) {
    forall j :: 0 <= j < |events| ==> events[j].zone in index
  }

  lemma {:induction false} KnownNeverDropped(events: seq<RingReader.Event>, index: map<nat, nat>,
                                             script: seq<RingReader.Read>, n: nat, little: bool)
    requires AllKnown(events, index) && Carries(events, script, little) && n <= |script|
    ensures RingReader.Count(script, n, index, RingReader.Unknown) == 0
    ensures RingReader.Count(script, n, index, RingReader.Short) == 0
  {
    if n > 0 {
      KnownNeverDropped(events, index, script, n - 1, little);
      var r := script[n - 1];
      if r.Record? {
        assert DeliversSome(r.raw, events, little);
        var j :| 0 <= j < |events| && Delivers(r.raw, events[j], little);
        DeliveredHandled(r.raw, events[j], index, little);
      }
    }
  }

  lemma ItemAttributed(d: Deployment, arrivals: seq<Arrival>, i: nat)
    requires Deployed(d) && i < |arrivals| && Items(arrivals, d.setup)[i].verdict.Zoned?
    ensures Parse(arrivals[i].skb).Tcp?
    ensures Attributed(d, Items(arrivals, d.setup)[i].verdict.zone, Parse(arrivals[i].skb).seg.daddr)
  {
    ZonedAttributed(d, arrivals[i]);
  }

  /** Packet i of the run goes to the zone in the given slot, whose subnet best matches its destination. */
  ghost predicate BoundFor(d: Deployment, arrivals: seq<Arrival>, i: int, zone: nat) {
    && 0 <= i < |arrivals| && Parse(arrivals[i].skb).Tcp?
    && Attributed(d, zone, Parse(arrivals[i].skb).seg.daddr)
  }

  /** Every event submitted in a run belongs to a packet bound for the zone in the event's slot. */
  lemma EventsAttributed(d: Deployment, arrivals: seq<Arrival>, k: nat, j: nat)
    requires Deployed(d) && k <= |arrivals| && j < |After(Items(arrivals, d.setup), k).events|
    ensures exists i :: BoundFor(d, arrivals, i, After(Items(arrivals, d.setup), k).events[j].zone)
  {
    var run := Items(arrivals, d.setup);
    EventOrigin(run, k, j);
    var i :| Reports(run, After(run, k).events[j], i);
    ItemAttributed(d, arrivals, i);
    assert BoundFor(d, arrivals, i, After(run, k).events[j].zone);
  }

  /**
   In every run, however the ring is read, no event is dropped as unknown or short, and the records
   read are exactly the segments counted over all zones.
   */
  lemma UnknownStaysZero(d: Deployment, arrivals: seq<Arrival>, k: nat, script: seq<RingReader.Read>, n: nat)
    requires Deployed(d) && k <= |arrivals| && n <= |script|
    requires Carries(After(Items(arrivals, d.setup), k).events, script, d.setup.little)
    ensures RingReader.Count(script, n, d.index, RingReader.Unknown) == 0
    ensures RingReader.Count(script, n, d.index, RingReader.Short) == 0
    ensures RingReader.CountRecords(script, n) == RingReader.AllSegments(script, n, d.index, |d.zones|)
  {
    var events := After(Items(arrivals, d.setup), k).events;
    forall j | 0 <= j < |events| ensures events[j].zone in d.index {
      EventsAttributed(d, arrivals, k, j);
    }
    KnownNeverDropped(events, d.index, script, n, d.setup.little);
    RingReader.EveryRecordAccounted(script, n, d.index, |d.zones|);
  }

  // ---- the first line of the log ----

  /** The tick has an entry for each slot's zone. */
  ghost predicate TickOf(d: Deployment, t: LogSummary.Tick) {
    forall i :: 0 <= i < |d.zones| ==> HasEntry(t, d.zones[i].name)
  }

  ghost predicate HasEntry(t: LogSummary.Tick, zone: string) {
    exists j :: 0 <= j < |t.zones| && t.zones[j].zone == zone
  }

  /** An accepted config has a remote zone, so there is a slot. */
  lemma SomeSlot(d: Deployment)
    requires Deployed(d)
    ensures d.zones != []
  {
    var n :| n in d.c.zones && n != d.c.sourceZone;
    var i :| 0 <= i < |d.zones| && d.zones[i].name == n;
  }

  lemma TickHasBody(d: Deployment, t: LogSummary.Tick, pct: LogSummary.Percent)
    requires d.zones != [] && TickOf(d, t)
    ensures LogSummary.Body(t, pct) != ""
  {
    assert HasEntry(t, d.zones[0].name);
    LogSummary.BodyEmptyIff(t, pct);
  }

  /** Under an accepted config no tick has an empty body, so the first one is logged. */
  lemma FirstTickLogged(d: Deployment, ticks: seq<LogSummary.Tick>, pct: LogSummary.Percent, xs: seq<LogSummary.Line>)
    requires Deployed(d) && forall k :: 0 <= k < |ticks| ==> TickOf(d, ticks[k])
    requires LogSummary.LinesOf(xs, ticks, pct) && LogSummary.Counted(xs) && xs != []
    ensures forall k :: 0 <= k < |xs| ==> xs[k].body != ""
    ensures LogSummary.After(xs, 1).lines == [xs[0]]
  {
    SomeSlot(d);
    forall k | 0 <= k < |xs| ensures xs[k].body != "" {
      TickHasBody(d, ticks[k], pct);
    }
    LogSummary.FirstTickLoggedIff(xs);
  }
}
