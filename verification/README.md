# A verified model of the eBPF packet-loss exporter

The exporter estimates TCP loss between network zones. A kernel program attached to egress
interfaces finds TCP segments between zones, takes a repeated segment for a retransmit with a
two-generation Bloom filter, and submits one event per segment. A user-space reader counts the
events per zone; a poll loop takes snapshots of the counters, turns them into a windowed loss
percentage and an exponential moving average (EMA) per zone, and logs a one-line summary.

This project models that pipeline in Dafny and proves what it promises. `dafny verify dfyconfig.toml`
checks everything.

| module | what it models |
|---|---|
| `Bitwise`, `BloomHash` | C's bit operators on unsigned integers; the 32-bit hash and the layout of the filter's bits |
| `BloomFilter` | the generation-stamped, lazily cleared table (class `Table`) and the simple object it implements (`Filter`: the bits inserted in this generation and the one before) |
| `BloomRuns` | whole runs of the filter: what an answer means, how long a key is remembered, how soon it is forgotten |
| `BloomConcurrent` | insertion on many CPUs, one memory access per step, all interleavings: what is completed, what stays visible, what is lost |
| `Headers`, `Lpm`, `Egress`, `EgressRuns` | header parsing, longest-prefix lookup, the egress program with its counters and ring (class `Program`), and whole runs of it |
| `Bytes`, `RingReader`, `AccumulatorRace` | the event format, the reader goroutine with its nested loops, and the race between recording and snapshots |
| `LossWindow`, `EmaStore`, `EmaLaws` | the reference values recomputed from the poll history, the circular window and EMA updated in place (classes `ZoneState`, `Store`), and the laws of the EMA |
| `PollLoop` | snapshots taken in a race, turned into published percentages |
| `Sorting`, `Zones`, `Pipeline`, `Delivery` | zone numbering, the prefix tables, the way back from ids to counter slots, zone identity end to end, and what each slot has counted after a run |
| `LogSummary` | the tick summary and the rule for logging it |

## Where the code and its promises differ

- A repeat is certain to be flagged exactly when it comes within 1.5 s and 1 ns (`AlwaysFlaggedIff`);
  after any longer gap it can be missed (`RepeatCanBeMissed`). Within one flow, sequence keys that
  agree modulo 2^21 are the same key to the filter (`SameBitIff`), so the three hash functions act as one.
- On several CPUs an insertion that outlives its generation by two epochs can wipe a live bit
  (`StaleInsertionLosesBit`). Even when all insertions are prompt, a bit OR-ed in between another
  CPU's swap and its clear is lost (`PromptLoss`); in prompt runs the bits that answer the test are
  exactly those OR-ed in after the clear (`VisibleIffSettled`).
- A raw IPv4 packet from 8.0.0.0/16 is taken for an Ethernet frame (`RawFoundIff`).
- Validation accepts IPv6 subnets, which become the prefix that matches every IPv4 address: one in a
  remote zone zones every destination, one in the source zone accepts every source (`V6CatchesAll`).
  `DestinationZonedIff` and `SourceZonedIff` say exactly which addresses are taken.
- Snapshots can report two retransmits for one segment (`SnapshotsCanShowTooManyRetrans`). Any
  stretch of snapshots is in order exactly when the late segments at its end are made up for
  (`StretchOrderedIff`), which is so when nothing was recorded between the swaps
  (`UndisturbedOrdered`); one snapshot of lag is always enough (`RetransLagOneSnapshot`).
- Published percentages leave [0, 100] in two ways: a 64-bit window sum overflows
  (`OverflowLeavesRange`), or the race above leaves a window out of order and 200 percent are
  published with no overflow (`RaceLeavesRange`, `RacePublishes200`). They stay inside exactly when
  every window's sums are in order (`InstantsInRangeIff`), that is, without overflow, exactly when
  the race left each of them so (`PercentagesIff`).
- `ema_half_life` is a half-life only if the decay of 1 is 1/2: the share of the old value kept after
  dt is decay(dt / setting) (`KeptIsDecay`).
- Per-tick volume can trigger a log line, exactly when it makes a zone idle or wakes one
  (`VolumeShowsIff`), although the logging contract in main.go says it never does.

## Model

| member | source | states |
|---|---|---|
| `BloomHash.HashInjective` | bpf/packet_loss.bpf.c:166-176 | for one flow and seed the 32-bit hash is injective in the sequence key |
| `BloomHash.SameBitIff` | bpf/packet_loss.bpf.c:178-182 | two keys of a flow get the same bit under a seed iff they agree modulo 2^21, whatever the seed |
| `BloomHash.SeedsCollideTogether` | bpf/packet_loss.bpf.c:252-254 | so they share all three bits or none of the three pairs coincide |
| `BloomHash.DaddrRecovered` | bpf/packet_loss.bpf.c:166-176 | round trip: the destination address can be computed back from the hash state, source address, ports and seed, and the sequence key from hash and state |
| `BloomHash.PortsRecovered` | bpf/packet_loss.bpf.c:173 | so can the ports, from state, addresses and seed |
| `BloomHash.PortsSeparate` | bpf/packet_loss.bpf.c:171-173 | between the same addresses two connections share the hash state iff both ports are equal |
| `BloomHash.DaddrSeparates` | bpf/packet_loss.bpf.c:171-173 | from the same source with the same ports they share it iff the destinations are equal |
| `BloomHash.SaddrSeparates` | bpf/packet_loss.bpf.c:171 | the first step is shared iff the source addresses are equal |
| `BloomHash.OffsetSamples` | bpf/packet_loss.bpf.c:172-174 | the constant and the shifts of a mixing step at two points, as numbers |
| `BloomHash.HashBound` | bpf/packet_loss.bpf.c:166-176 | the hash of 32-bit fields is a 32-bit value |
| `BloomHash.OrAddsBit` | bpf/packet_loss.bpf.c:193-212 | OR-ing a bit's mask into a word adds that bit position and no other |
| `BloomHash.NoAliasing` | bpf/packet_loss.bpf.c:186-188 | (word, mask) is shared iff bit and generation parity are the same |
| `BloomFilter.Table.constructor` | bpf/packet_loss.bpf.c:53-65 | the zeroed maps stand for the empty filter |
| `BloomFilter.Table.TestBit` | bpf/packet_loss.bpf.c:184-194 | answers whether the word carries the generation's stamp and the bit |
| `BloomFilter.Table.ClearWord` | bpf/packet_loss.bpf.c:206-211 | clearing a stale word changes nothing that is visible |
| `BloomFilter.Table.SetBit` | bpf/packet_loss.bpf.c:196-213 | adds exactly one bit to the current generation and loses none of either |
| `BloomFilter.Table.MaybeRoll` | bpf/packet_loss.bpf.c:215-234 | a due roll makes the current generation the previous one and shows nothing older, without clearing a word |
| `BloomFilter.Table.TestEither` | bpf/packet_loss.bpf.c:249-258 | a bit tests true in the current or the (possibly wrapped) previous generation iff it is in the simple object |
| `BloomFilter.Table.TestAndSet` | bpf/packet_loss.bpf.c:236-265 | the answer and the new state are those of the simple object |
| `BloomFilter.Table.GenBounded` | bpf/packet_loss.bpf.c:230-250 | for any clock the 64-bit generation never wraps and the wrapped predecessor of 0 is no word's stamp |
| `BloomRuns.FlaggedIff` | bpf/packet_loss.bpf.c:184-265 | over any run a packet is flagged iff each of its bits was inserted by an earlier packet in the current or previous generation |
| `BloomRuns.KeyFlaggedIff` | bpf/packet_loss.bpf.c:252-264 | for a key: iff its bit under each of the three seeds was |
| `BloomRuns.RollSpacing` | bpf/packet_loss.bpf.c:230-233 | from any packet on, a second roll lies more than an epoch and 1 ns ahead |
| `BloomRuns.NoMissedRepeat` | bpf/packet_loss.bpf.c:215-265 | a repeat within 1.5 s (and 1 ns) is always flagged |
| `BloomRuns.RepeatCanBeMissed` | bpf/packet_loss.bpf.c:215-265 | after any longer gap, a run in which it is not, whatever its bits |
| `BloomRuns.AlwaysFlaggedIff` | bpf/packet_loss.bpf.c:215-265 | so a repeat is flagged in every run iff it comes within 1.5 s and 1 ns |
| `BloomRuns.BoundedMemory` | bpf/packet_loss.bpf.c:230-264 | with packets at most d apart every bit behind a flag was inserted within the last two epochs plus d |
| `BloomRuns.GenerationsCostTime` | bpf/packet_loss.bpf.c:230-233 | gen * (epoch + 1) <= start for any clock, so the generation never wraps |
| `BloomConcurrent.AlwaysSane` | bpf/packet_loss.bpf.c:196-213 | in every interleaving non-zero stamps have their bank's parity, and stamps and insertions never run ahead of the epoch |
| `BloomConcurrent.VisibleWasInserted` | bpf/packet_loss.bpf.c:184-213 | in every interleaving a bit that answers the test was OR-ed in, for that generation or one of the same parity |
| `BloomConcurrent.WordChanges` | bpf/packet_loss.bpf.c:206-212 | in every interleaving a step changes at most one word: a swap replaces the stamp it saw, a clear zeroes the bits, a set adds one bit |
| `BloomConcurrent.InsertionCompletes` | bpf/packet_loss.bpf.c:196-213 | in every interleaving an insertion begun with some bits that has come to rest has set each of them in its word, by a step of its own, for the generation it began in |
| `BloomConcurrent.SetSettles` | bpf/packet_loss.bpf.c:206-212 | a bit set when its word had been cleared for the generation is settled |
| `BloomConcurrent.InsertionSettles` | bpf/packet_loss.bpf.c:196-213 | so is every bit of an insertion that began after the words of its bits were cleared |
| `BloomConcurrent.WorkShrinks` | bpf/packet_loss.bpf.c:196-213 | insertions are wait-free: each step of the CPU brings it nearer to rest and no other CPU sets it back |
| `BloomConcurrent.SwapFirst` | bpf/packet_loss.bpf.c:206-211 | a swap that finds another stamp is the first of its generation at that word, and nobody else is clearing or setting there |
| `BloomConcurrent.ProtocolStep` | bpf/packet_loss.bpf.c:196-213 | every step keeps the protocol invariant while insertions are prompt |
| `BloomConcurrent.AlwaysProtocol` | bpf/packet_loss.bpf.c:196-213 | so it holds in every state of every prompt interleaving |
| `BloomConcurrent.PromptRunsKeepBits` | bpf/packet_loss.bpf.c:184-213 | no word is cleared twice per generation, and a bit OR-ed in after the clear stays visible until the epoch is two past its generation |
| `BloomConcurrent.PromptRunsShowNothingOld` | bpf/packet_loss.bpf.c:184-213 | a word cleared for its generation shows only bits OR-ed in for that generation after the clear |
| `BloomConcurrent.VisibleIffSettled` | bpf/packet_loss.bpf.c:184-213 | so in prompt interleavings, once the word is cleared and until the epoch is two past the generation, a bit answers the test iff it was OR-ed in after the clear |
| `BloomConcurrent.InsertionVisible` | bpf/packet_loss.bpf.c:184-213 | so in prompt interleavings an insertion into cleared words that has come to rest answers the test in all its bits until the epoch is two past its generation |
| `BloomConcurrent.StaleInsertionLosesBit` | bpf/packet_loss.bpf.c:207-210 | an interleaving with a stalled CPU in which a settled bit vanishes |
| `BloomConcurrent.PromptLoss` | bpf/packet_loss.bpf.c:206-212 | an interleaving, prompt throughout, in which a bit OR-ed in between another CPU's swap and clear is gone from both generations when both CPUs are done |
| `Headers.ParseAt` | bpf/packet_loss.bpf.c:296-331 | where the IPv4 header is found, addresses, ports, sequence number, flags and payload length are those of the headers |
| `Headers.EthernetParses` | bpf/packet_loss.bpf.c:144-154 | so for every IPv4/TCP packet behind an Ethernet header |
| `Headers.RawFoundIff` | bpf/packet_loss.bpf.c:147-161 | a raw packet's header is found in place iff its source is outside 8.0.0.0/16 |
| `Headers.RawParses` | bpf/packet_loss.bpf.c:156-161 | and then all fields come out exactly |
| `Headers.NotIPv4Iff` | bpf/packet_loss.bpf.c:144-164 | a packet is taken for no IPv4 packet iff it is an Ethernet frame of the IPv4 type, or else a marked packet, without room for the header, or neither |
| `Headers.EthernetOutcome` | bpf/packet_loss.bpf.c:296-320 | behind an Ethernet header a packet is no TCP packet iff its protocol is not 6, and a TCP packet is short iff fewer than 20 bytes follow, the data offset is below 5 or the total length below both headers |
| `Headers.RawOutcome` | bpf/packet_loss.bpf.c:296-320 | the same for a raw packet from outside 8.0.0.0/16 |
| `Egress.FrameSkippedIff` | bpf/packet_loss.bpf.c:291-320 | and those are the counters such a frame ends in |
| `Egress.PureAckIff` | bpf/packet_loss.bpf.c:322-331 | a TCP frame is left out as a bare acknowledgement iff it has no payload and none of FIN, SYN and RST |
| `Egress.SameProbeIff` | bpf/packet_loss.bpf.c:355-365 | two probed segments share a key iff they are of one connection and agree in the 16-byte block (payload) or number (bare SYN) |
| `Egress.Program.PathEgress` | bpf/packet_loss.bpf.c:268-376 | counters, filter, ring and lost events after one packet are those of the specification |
| `Egress.Program.HandleSegment` | bpf/packet_loss.bpf.c:328-375 | the part after parsing, with its early exits |
| `Egress.Program.ProbeFilter` | bpf/packet_loss.bpf.c:352-365 | rolls always, probes only payload and bare SYN |
| `Lpm.LookupExact` | bpf/packet_loss.bpf.c:335-348 | a lookup gives the id of the longest containing prefix, and nothing iff none contains the address |
| `Lpm.ContainsIff` | bpf/packet_loss.bpf.c:335-348 | a prefix of length len contains exactly the 2^(32 - len) addresses from its own on |
| `EgressRuns.CountersExact` | bpf/packet_loss.bpf.c:289-350 | over any run each debug counter counts the packets with its outcome |
| `EgressRuns.RunEgress` | bpf/packet_loss.bpf.c:268-376 | the program over any packets ends in the state that the run theorems are about |
| `EgressRuns.Accounting` | bpf/packet_loss.bpf.c:286-375 | and they add up: every packet, every payload packet and every zoned packet is accounted for once |
| `EgressRuns.FilterFollows` | bpf/packet_loss.bpf.c:352-365 | the filter's state is that of the run of zoned packets |
| `EgressRuns.EventTellsFlag` | bpf/packet_loss.bpf.c:367-373 | a submitted event carries interface, zone and the filter's verdict |
| `EgressRuns.FlagNeedsProbe` | bpf/packet_loss.bpf.c:356-371 | only payload and bare-SYN packets are ever reported as retransmits |
| `EgressRuns.RepeatReported` | bpf/packet_loss.bpf.c:352-373 | among any other traffic, a key repeated within 1.5 s (and 1 ns) is reported as a retransmit |
| `EgressRuns.RetransmitReported` | bpf/packet_loss.bpf.c:286-373 | a segment sent again within 1.5 s (and 1 ns) is reported as a retransmit of its zone |
| `AccumulatorRace.NothingLost` | cmd/ebpf-packet-loss-exporter/main.go:58-76 | under every interleaving the snapshots of a zone plus the residue are exactly the segments and retransmits that the schedule recorded for it, up to 64-bit wraps |
| `AccumulatorRace.CutsExact` | cmd/ebpf-packet-loss-exporter/main.go:58-76 | the late, plain and half-recorded counts at each second swap are those of the schedule |
| `AccumulatorRace.RetransLagOneSnapshot` | cmd/ebpf-packet-loss-exporter/main.go:58-76 | per zone the retransmits of j snapshots never exceed the segments of j + 1 |
| `AccumulatorRace.StretchOrderedIff` | cmd/ebpf-packet-loss-exporter/main.go:58-76 | under every interleaving any stretch of snapshots reports no more retransmits than segments iff the segments late in its last one, and a retransmit half recorded before it, are covered by those late before it, the plain segments in between and one half recorded at its end |
| `AccumulatorRace.SnapshotOrderedIff` | cmd/ebpf-packet-loss-exporter/main.go:65-76 | the same for each single snapshot |
| `AccumulatorRace.CumulativeOrderedIff` | cmd/ebpf-packet-loss-exporter/main.go:65-76 | all snapshots up to one are in order iff the segments late in it are covered by plain and half-recorded ones |
| `AccumulatorRace.UndisturbedOrdered` | cmd/ebpf-packet-loss-exporter/main.go:58-76 | a snapshot with nothing recorded between its two swaps, after one that cut no record in half, is in order |
| `AccumulatorRace.SnapshotsCanShowTooManyRetrans` | cmd/ebpf-packet-loss-exporter/main.go:58-76 | an interleaving whose snapshots have a retransmit and no segment, then one of each |
| `RingReader.ParseLayout` | cmd/ebpf-packet-loss-exporter/main.go:86-96 | parsing the bytes of a submitted event gives the event back, whatever is in the padding |
| `RingReader.Accumulator.Record` | cmd/ebpf-packet-loss-exporter/main.go:58-63 | adds one segment, and one retransmit if flagged, to one slot only |
| `RingReader.Accumulator.SnapshotAndReset` | cmd/ebpf-packet-loss-exporter/main.go:65-76 | without interference: each zone's counters under its name, and all slots zero |
| `RingReader.Process` | cmd/ebpf-packet-loss-exporter/main.go:113-123 | one record is counted once: short, unknown, or in its slot |
| `RingReader.Drain` | cmd/ebpf-packet-loss-exporter/main.go:112-143 | the inner loop counts every record it reads and leaves with the deadline cleared unless it ends the goroutine |
| `RingReader.ReadLoop` | cmd/ebpf-packet-loss-exporter/main.go:98-146 | for every script of read outcomes all counters are the tallies of the records read, the goroutine ends where it should, and every blocking read has its deadline cleared |
| `RingReader.EndsOnlyWhenTold` | cmd/ebpf-packet-loss-exporter/main.go:98-146 | it reads to the end of the script unless the ring is closed or the program is being stopped, and ends early only at such a failed read |
| `RingReader.EveryRecordAccounted` | cmd/ebpf-packet-loss-exporter/main.go:113-123 | records read = segments recorded + unknown + short |
| `LossWindow.WindowCap` | internal/metrics/ema.go:42-48 | the number of polls that fit in the window, at least one |
| `LossWindow.WindowIsTail` | internal/metrics/ema.go:81-91 | sliding keeps exactly the last min(n, cap) samples in order |
| `LossWindow.RunningSum` | internal/metrics/ema.go:83-90 | evicting and adding modulo 2^64 gives the recomputed sum modulo 2^64 |
| `LossWindow.NoUnderflow` | internal/metrics/ema.go:83-84 | no borrow on eviction while the true sums fit |
| `LossWindow.InstantExact` | internal/metrics/ema.go:93-95 | the published instant times the segments of the last min(n, cap) samples is 100 times their retransmits, both modulo 2^64, and it is held while there are none |
| `EmaStore.ZoneState.Push` | internal/metrics/ema.go:81-91 | the circular buffer slides by one sample and the running sums stay those of its contents |
| `EmaStore.ZoneState.Update` | internal/metrics/ema.go:73-107 | after any updates buffer, sums and published values equal those recomputed from the whole history, and the instant is exactly the percentage over the last samples |
| `EmaStore.Store.constructor` | internal/metrics/ema.go:50-67 | one fresh, separate state per zone |
| `EmaStore.Store.Update` | internal/metrics/ema.go:69-109 | every zone gets the poll once, absent zones a silent one, in any map order |
| `EmaLaws.EmaFollowsMoves` | internal/metrics/ema.go:93-104 | the EMA depends on the polls only through the active ones; the first starts it |
| `EmaLaws.MoveTime` | internal/metrics/ema.go:76-79 | an active poll is weighted by the time since the poll before it |
| `EmaLaws.KeptIsDecay` | internal/config/config.go:234-247 | the share kept is the decay of dt over the half-life setting, and time running backwards keeps everything |
| `EmaLaws.EmaIsAverage` | internal/metrics/ema.go:98-102 | the EMA is the weighted sum of all instants since the first active poll, weights summing to one |
| `EmaLaws.EmaClosedForm` | internal/metrics/ema.go:93-107 | the same for the published value, each weight non-negative and equal to the poll's share decayed by all later active time |
| `EmaLaws.StartFadesByDecay` | internal/metrics/ema.go:97-102 | two runs differing in the starting EMA stay apart by exactly the decay of the active time |
| `EmaLaws.EmaBetween` | internal/metrics/ema.go:98-102 | the EMA lies in any interval that holds all instants seen |
| `EmaLaws.InstantsInRangeIff` | internal/metrics/ema.go:93-95 | all instants published are in [0, 100] iff in every window with a segment the 64-bit sum of retransmits is at most that of segments |
| `EmaLaws.EmaIsPercentage` | internal/metrics/ema.go:93-102 | then the EMA is in [0, 100] too |
| `EmaLaws.PlausibleOrders` | internal/metrics/ema.go:81-91 | windows are in order when no sample has more retransmits than segments and no window overflows |
| `EmaLaws.OverflowLeavesRange` | internal/metrics/ema.go:89-95 | with room for two polls, an overflowing window publishes 200 percent |
| `EmaLaws.RaceLeavesRange` | internal/metrics/ema.go:89-95 | so do the samples of the race above, with no overflow |
| `PollLoop.WindowOrderedIff` | cmd/ebpf-packet-loss-exporter/main.go:255-269 | a window over raced snapshots is in order iff the cuts at its two ends put it so |
| `PollLoop.PercentagesIff` | cmd/ebpf-packet-loss-exporter/main.go:255-269 | however recording and snapshots interleave, all published instants are in [0, 100] iff the race left every window with a segment in order |
| `PollLoop.RacedEmaIsPercentage` | cmd/ebpf-packet-loss-exporter/main.go:255-269 | and then the EMA is too |
| `PollLoop.UndisturbedRun` | cmd/ebpf-packet-loss-exporter/main.go:58-76 | a race in which no snapshot was disturbed leaves every window in order |
| `PollLoop.RacePublishes200` | cmd/ebpf-packet-loss-exporter/main.go:58-76 | an interleaving of one zone that publishes 200 percent |
| `EmaLaws.QuietFreeze` | internal/metrics/ema.go:93-107 | after cap silent polls the window sum is zero and instant, EMA and LastUpdate stay fixed however long the silence lasts |
| `EmaLaws.LastUpdateIsLastHeard` | internal/metrics/ema.go:93-103 | LastUpdate is the latest poll whose window had a segment, or zero |
| `Zones.AssignZoneIDs` | internal/config/config.go:121-137 | succeeds iff there are at most 255 zones, numbering the sorted names from 1 |
| `Zones.IdsBijective` | internal/config/config.go:121-137 | ids are an order-preserving bijection onto 1..n and fit in a byte |
| `Zones.NumberingIgnoresOrder` | internal/config/config.go:122-126 | whatever order the map is ranged in |
| `Zones.ZoneLPMEntries` | internal/config/config.go:171-195 | the entries are the remote zones' subnets under their ids, zone by zone |
| `Zones.SourceZoneLPMEntries` | internal/config/config.go:145-168 | fails iff the source zone has no subnets or no id, else one entry per subnet |
| `Zones.Load` | internal/bpf/load.go:53-60 | fills the table in order, failing at the first new key that does not fit |
| `Zones.LoadedKeys` | internal/bpf/load.go:53-69 | loading succeeds iff the distinct keys fit in 64 entries, and they are the table's keys |
| `Zones.LoadedValues` | internal/bpf/load.go:53-60 | each key maps to the id put under it last |
| `Zones.OrderIrrelevant` | internal/config/config.go:174-192 | success never depends on the map's order, nor does the table when no prefix is listed under two remote zones |
| `Zones.OrderIrrelevantIff` | internal/config/config.go:174-192 | the table is the same for every order iff no prefix is listed under two remote zones |
| `Zones.RemoteZones` | internal/config/config.go:198-217 | one slot per remote zone, by name, with its id |
| `Zones.BuildZoneIndex` | cmd/ebpf-packet-loss-exporter/main.go:78-84 | every slot's id is found and leads to the last slot that bears it |
| `Zones.RoundTrip` | internal/config/config.go:121-217 | the id found for an address leads to the slot of a zone listing the longest subnet that contains the address, an IPv6 subnet standing for the empty prefix |
| `Zones.DestinationZonedIff` | internal/bpf/load.go:53-60 | a destination is zoned iff some remote zone has a subnet containing it or an IPv6 subnet |
| `Zones.SourceZonedIff` | internal/bpf/load.go:62-69 | a source is accepted iff the source zone has a subnet containing it or an IPv6 subnet |
| `Zones.V6CatchesAll` | internal/bpf/load.go:139-143 | an IPv6 subnet of a remote zone makes every IPv4 destination zoned, one of the source zone makes every source accepted |
| `Zones.DestinationFitsIff` | internal/bpf/load.go:53-60 | the destination table loads, in any order of the map, iff the remote zones have at most 64 distinct keys |
| `Zones.SourceFitsIff` | internal/bpf/load.go:62-69 | the source table loads iff the source zone has at most 64 distinct keys |
| `Pipeline.Deploy` | cmd/ebpf-packet-loss-exporter/main.go:165-218 | from an accepted config the set-up succeeds iff both tables have room for its distinct keys, and gives numbering, tables, slots and index that belong together |
| `Pipeline.RouteIff` | bpf/packet_loss.bpf.c:335-350 | a segment is dropped for its source iff the source zone does not claim it, for its destination iff no remote zone does, and zoned otherwise; a zone claims the addresses in its subnets, and all when it has an IPv6 one |
| `Pipeline.ZonedAttributed` | bpf/packet_loss.bpf.c:343-370 | a zoned packet's id leads to the zone whose subnet best matches its destination |
| `Pipeline.EventsAttributed` | bpf/packet_loss.bpf.c:367-373 | so does every event of every run |
| `Pipeline.UnknownStaysZero` | cmd/ebpf-packet-loss-exporter/main.go:113-122 | in every run, in either byte order and however the ring is read, no event is dropped as unknown or short, and records read are the segments counted over all zones |
| `Delivery.CountsPerSlot` | cmd/ebpf-packet-loss-exporter/main.go:98-146 | once the events of the first k packets are read in order, each slot has one segment per packet bound for it and one retransmit per such packet that the filter flagged |
| `Delivery.CollectRun` | cmd/ebpf-packet-loss-exporter/main.go:98-146 | the reader over the events of any run ends with exactly those counts in its counters, modulo 2^64, for the packets whose events it read, and with no unknown drop |
| `Delivery.SlotByDestination` | internal/config/config.go:171-217 | the slot a packet is counted in lists the longest subnet matching its destination, and is the only one when no prefix is under two remote zones |
| `Delivery.RetransmitCounted` | bpf/packet_loss.bpf.c:286-373 | a segment sent again within 1.5 s (and 1 ns) adds one segment and one retransmit to the slot of its zone |
| `Sorting.SortIgnoresOrder` | cmd/ebpf-packet-loss-exporter/logsummary.go:41-42 | sorting elements with distinct names does not depend on the order they came in |
| `Sorting.LessIff` | cmd/ebpf-packet-loss-exporter/logsummary.go:42 | the order of names is that of dictionaries: the first difference decides and a proper prefix comes first |
| `LogSummary.FormatTickSummary` | cmd/ebpf-packet-loss-exporter/logsummary.go:40-64 | the loop builds the body and volume strings of the specification |
| `LogSummary.SummaryIgnoresOrder` | cmd/ebpf-packet-loss-exporter/logsummary.go:40-64 | neither string depends on the order of the zones map |
| `LogSummary.Summary.Emit` | cmd/ebpf-packet-loss-exporter/logsummary.go:69-77 | one tick logs or not, and updates what it remembers, as specified |
| `LogSummary.LogTicks` | cmd/ebpf-packet-loss-exporter/main.go:252-303 | over any ticks the log is the one that the run theorems are about |
| `LogSummary.HeartbeatKept` | cmd/ebpf-packet-loss-exporter/logsummary.go:71-75 | over ticks 1, 2, 3, ... lines ascend by at most 30 ticks and the last is less than 30 ticks old |
| `LogSummary.BodyReplayed` | cmd/ebpf-packet-loss-exporter/logsummary.go:69-77 | the body of every tick is that of the last line at or before it |
| `LogSummary.LoggedIff` | cmd/ebpf-packet-loss-exporter/logsummary.go:69-77 | a tick is logged iff its body differs from that of the tick before, or the last line is exactly 30 ticks old |
| `LogSummary.FirstTickLoggedIff` | cmd/ebpf-packet-loss-exporter/main.go:252-303 | the first tick is logged iff its body is not empty |
| `LogSummary.BodyEmptyIff` | cmd/ebpf-packet-loss-exporter/logsummary.go:53-62 | a body is empty iff there are no zones, some zoned packets and no drops |
| `Pipeline.FirstTickLogged` | cmd/ebpf-packet-loss-exporter/main.go:252-303 | an accepted config has a slot, so no tick with an entry per slot has an empty body and the first is logged |
| `LogSummary.VolumeShowsIff` | cmd/ebpf-packet-loss-exporter/logsummary.go:45-50 | volume alone changes the body iff some zone becomes idle or ceases to be |
| `LogSummary.VolumeReadsBack` | cmd/ebpf-packet-loss-exporter/logsummary.go:51 | segments and retransmits of a zone can be read back from its volume |
| `LogSummary.BodyReadsBack` | cmd/ebpf-packet-loss-exporter/logsummary.go:46-49 | loss and EMA of a zone, printed without a percent sign, can be read back from its body, which is idle iff segments, loss and EMA are all zero |
| `LogSummary.FlagsShowIff` | cmd/ebpf-packet-loss-exporter/logsummary.go:53-62 | among ticks with the same zones the body changes iff the warning or the number of drops does |
| `LogSummary.FlagsReadBack` | cmd/ebpf-packet-loss-exporter/logsummary.go:54-62 | the flags tell which warning holds and how many events were dropped |

## Left out

- How far apart epoch rolls are on several CPUs: the roll's compare-and-swap re-reads the start time, so two CPUs can both roll; timing is proved for packet-atomic runs.
- The wrap of the 64-bit generation in `BloomConcurrent`: its epoch counter is unbounded.
- BloomConcurrent.PromptRunsKeepBits: promises nothing for a bit OR-ed in between another CPU's swap and its clear, because the code loses it (`PromptLoss`); what is visible is stated by `VisibleIffSettled`.
- Which bits answer the test between a word's swap and its clear: only that they were inserted for a generation of the same parity (`VisibleWasInserted`).
- The words of `BloomConcurrent` hold sets of bit numbers; that masks do not alias is proved in `BloomHash`.
- RingReader.Accumulator.SnapshotAndReset: states the undisturbed case; the interleaved one is `AccumulatorRace`.
- Wrap-around of the debug counters after 2^64 packets, and their split over CPUs.
- Fragments: a non-first fragment is parsed as if it held a TCP header, as the code does; the format theorems are about packets with a header.
- The order of IEEE roundings and the real exponential: values are reals and the decay is any function with decay(0) = 1, values in (0, 1] and decay(x + y) = decay(x) * decay(y).
- How percentages are printed: any function from values to text.
- `now.Sub` saturation, the zero time as a poll time, and the mutexes around the store.
- `Snapshot`, the Prometheus exporter and the HTTP server: copies and plumbing.
- config.Load, CIDR parsing, defaults and interface discovery: the model starts from parsed subnets; IPv4-mapped IPv6 subnets are not part of this model.
- The kernel's trie: a map with longest-match lookup, refusing a new key when 64 are present.
- Attaching the program, signal handling and flags.
