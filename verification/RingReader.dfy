/**
 The ring reader goroutine: every record read is parsed, mapped to a counter slot and counted
 exactly once, and the reader never blocks with a deadline still armed.
 */
module RingReader {
  import opened Wrappers

  import opened Bytes
  import Race = AccumulatorRace

  /** `struct stats_event` */
  datatype Event = Event(ifindex: nat, zone: nat, retrans: nat)

  const EVENT_SIZE: nat := 8

  /** `parseStatsEvent`: longer samples are accepted, the padding is ignored. */
  function ParseEvent(raw: seq<Byte>, little: bool): Result<Event> {
    if |raw| < EVENT_SIZE then Err("short ringbuf sample")
    else Ok(Event(Native32(raw[..4], little), raw[4], raw[5]))
  }

  /** The bytes the filter program submits: two of them, the padding, are never written. */
  function Layout(e: Event, pad: (Byte, Byte), little: bool): seq<Byte>
    requires e.ifindex < 0x1_0000_0000 && e.zone < 256 && e.retrans < 256
  {
    Bytes32(e.ifindex, little) + [e.zone, e.retrans, pad.0, pad.1]
  }

  /** The reader recovers what the program wrote, whatever is in the padding. */
  lemma ParseLayout(e: Event, pad: (Byte, Byte), little: bool)
    requires e.ifindex < 0x1_0000_0000 && e.zone < 256 && e.retrans < 256
    ensures ParseEvent(Layout(e, pad, little), little) == Ok(e)
  {
    assert Layout(e, pad, little)[..4] == Bytes32(e.ifindex, little);
  }

  /** What becomes of one sample. */
  datatype Handling = Short | Unknown | Counted(slot: nat, retrans: bool)

  /** The zone is the fifth byte and the flag the sixth, in either byte order. */
  function Handle(raw: seq<Byte>, index: map<nat, nat>): Handling {
    if |raw| < EVENT_SIZE then Short
    else if raw[4] in index then Counted(index[raw[4]], raw[5] != 0)
    else Unknown
  }

  class Accumulator {
    const segs: array<nat>
    const rets: array<nat>
    var unknown: nat

    ghost predicate Valid()
      reads this
    {
      segs.Length == rets.Length && segs != rets
    }

    constructor (n: nat)
      ensures Valid() && segs.Length == n && unknown == 0 && fresh(segs) && fresh(rets)
      ensures forall i :: 0 <= i < n ==> segs[i] == 0 && rets[i] == 0
    {
      segs := new nat[n](_ => 0);
      rets := new nat[n](_ => 0);
      unknown := 0;
    }

    /** `record` */
    method Record(slot: nat, retrans: bool)
      requires Valid() && slot < segs.Length
      modifies segs, rets
      ensures Valid()
      ensures segs[..] == old(segs[..])[slot := (old(segs[slot]) + 1) % U64]
      ensures rets[..] == if retrans then old(rets[..])[slot := (old(rets[slot]) + 1) % U64] else old(rets[..])
    {
      segs[slot] := (segs[slot] + 1) % U64;
      if retrans {
        rets[slot] := (rets[slot] + 1) % U64;
      }
    }

    /** `snapshotAndReset`, when nothing is recorded meanwhile. */
    method SnapshotAndReset(names: seq<string>) returns (counters: map<string, Race.Snap>)
      requires Valid() && |names| == segs.Length && forall i, j :: 0 <= i < j < |names| ==> names[i] != names[j]
      modifies segs, rets
      ensures forall i :: 0 <= i < |names| ==>
                names[i] in counters && counters[names[i]] == Race.Snap(old(segs[i]), old(rets[i]))
      ensures forall n :: n in counters ==> n in names
      ensures forall i :: 0 <= i < |names| ==> segs[i] == 0 && rets[i] == 0
    {
      counters := map[];
      for i := 0 to |names|
        invariant forall k :: 0 <= k < i ==>
                    names[k] in counters && counters[names[k]] == Race.Snap(old(segs[k]), old(rets[k]))
        invariant forall n :: n in counters ==> n in names
        invariant forall k :: 0 <= k < i ==> segs[k] == 0 && rets[k] == 0
        invariant forall k :: i <= k < |names| ==> segs[k] == old(segs[k]) && rets[k] == old(rets[k])
      {
        counters := counters[names[i] := Race.Snap(segs[i], rets[i])];
        segs[i] := 0;
        rets[i] := 0;
      }
    }
  }

  /** How a read from the ring ends, and whether the program was being stopped at that moment. */
  datatype Read =
    | Record(raw: seq<Byte>, stopping: bool)
    | Deadline(stopping: bool)
    | Closed(stopping: bool)
    | Other(stopping: bool)

  /** A read made: in the outer loop, where it should block, or in the inner loop; was a deadline armed? */
  datatype Made = Made(outer: bool, armed: bool)

  /** The first read, and each read after a failed one, is meant to block; after a record the ring is drained. */
  predicate Blocks(script: seq<Read>, k: nat)
    requires k < |script|
  {
    k == 0 || !script[k - 1].Record?
  }

  /** Read k ends the goroutine: an expired deadline while draining never does. */
  predicate Stops(script: seq<Read>, k: nat)
    requires k < |script|
  {
    match script[k]
    case Record(_, _) => false
    case Closed(_) => true
    case Deadline(stopping) => stopping && Blocks(script, k)
    case Other(stopping) => stopping
  }

  /** How many of the first n reads were records. */
  function CountRecords(script: seq<Read>, n: nat): nat
    requires n <= |script|
  {
    if n == 0 then 0 else CountRecords(script, n - 1) + (if script[n - 1].Record? then 1 else 0)
  }

  /** How many of the first n reads were records with the given fate. */
  function Count(script: seq<Read>, n: nat, index: map<nat, nat>, fate: Handling): nat
    requires n <= |script|
  {
    if n == 0 then 0 else
      Count(script, n - 1, index, fate) +
      (if script[n - 1].Record? && Handle(script[n - 1].raw, index) == fate then 1 else 0)
  }

  /** Segments among the first n reads for one slot. */
  function Segments(script: seq<Read>, n: nat, index: map<nat, nat>, slot: nat): nat
    requires n <= |script|
  {
    Count(script, n, index, Counted(slot, true)) + Count(script, n, index, Counted(slot, false))
  }

  function AllSegments(script: seq<Read>, n: nat, index: map<nat, nat>, slots: nat): nat
    requires n <= |script|
  {
    if slots == 0 then 0 else AllSegments(script, n, index, slots - 1) + Segments(script, n, index, slots - 1)
  }

  lemma {:induction false} AllSegmentsStep(script: seq<Read>, n: nat, index: map<nat, nat>, slots: nat)
    requires 0 < n <= |script|
    ensures AllSegments(script, n, index, slots) == AllSegments(script, n - 1, index, slots) +
              var r := script[n - 1];
              if r.Record? && Handle(r.raw, index).Counted? && Handle(r.raw, index).slot < slots then 1 else 0
  {
    if slots > 0 { AllSegmentsStep(script, n, index, slots - 1); }
  }

  /** Every record has exactly one fate: records = segments recorded + unknown + short. */
  lemma {:induction false} EveryRecordAccounted(script: seq<Read>, n: nat, index: map<nat, nat>, slots: nat)
    requires n <= |script| && forall id :: id in index ==> index[id] < slots
    ensures CountRecords(script, n) ==
              AllSegments(script, n, index, slots) + Count(script, n, index, Unknown) + Count(script, n, index, Short)
  {
    if n == 0 {
      NoSegmentsYet(script, index, slots);
    } else {
      EveryRecordAccounted(script, n - 1, index, slots);
      AllSegmentsStep(script, n, index, slots);
    }
  }

  lemma {:induction false} NoSegmentsYet(script: seq<Read>, index: map<nat, nat>, slots: nat)
    ensures AllSegments(script, 0, index, slots) == 0
  {
    if slots > 0 { NoSegmentsYet(script, index, slots - 1); }
  }

  /** A 64-bit counter that stood at x, after k increments. */
  function Ticked(x: nat, k: nat): nat {
    (x + k) % U64
  }

  lemma TickOnce(x: nat, k: nat)
    ensures (Ticked(x, k) + 1) % U64 == Ticked(x, k + 1)
  {}

  /** The counters hold what the first n reads of the script added to `segs`, `rets` and `unknown`. */
  ghost predicate Tallied(acc: Accumulator, script: seq<Read>, n: nat, index: map<nat, nat>,
                          segs: seq<nat>, rets: seq<nat>, unknown: nat)
    requires n <= |script| && |segs| == acc.segs.Length && |rets| == acc.rets.Length
    reads acc, acc.segs, acc.rets
  {
    && (forall i :: 0 <= i < |segs| ==> acc.segs[i] == Ticked(segs[i], Segments(script, n, index, i)))
    && (forall i :: 0 <= i < |rets| ==> acc.rets[i] == Ticked(rets[i], Count(script, n, index, Counted(i, true))))
    && acc.unknown == Ticked(unknown, Count(script, n, index, Unknown))
  }

  lemma CountsStep(script: seq<Read>, n: nat, index: map<nat, nat>)
    requires n < |script| && script[n].Record?
    ensures var f := Handle(script[n].raw, index);
            && (forall h :: Count(script, n + 1, index, h) == Count(script, n, index, h) + (if f == h then 1 else 0))
            && (forall i :: Segments(script, n + 1, index, i) ==
                  Segments(script, n, index, i) + (if f.Counted? && f.slot == i then 1 else 0))
  {}

  /** Count one record in its slot. */
  method CountSegment(acc: Accumulator, script: seq<Read>, n: nat, index: map<nat, nat>, slot: nat, retrans: bool,
                      ghost segs: seq<nat>, ghost rets: seq<nat>, ghost unknown: nat)
    requires acc.Valid() && slot < acc.segs.Length
    requires n < |script| && script[n].Record? && Handle(script[n].raw, index) == Counted(slot, retrans)
    requires |segs| == acc.segs.Length && |rets| == acc.rets.Length
    requires Tallied(acc, script, n, index, segs, rets, unknown)
    modifies acc.segs, acc.rets
    ensures Tallied(acc, script, n + 1, index, segs, rets, unknown)
  {
    CountsStep(script, n, index);
    TickOnce(segs[slot], Segments(script, n, index, slot));
    TickOnce(rets[slot], Count(script, n, index, Counted(slot, true)));
    acc.Record(slot, retrans);
    assert forall i :: 0 <= i < |segs| ==> acc.segs[i] == acc.segs[..][i] && acc.rets[i] == acc.rets[..][i];
  }

  /** The body of the inner loop that handles the record read last. */
  method Process(acc: Accumulator, script: seq<Read>, n: nat, index: map<nat, nat>, little: bool,
                 ghost segs: seq<nat>, ghost rets: seq<nat>, ghost unknown: nat)
    requires acc.Valid() && forall id :: id in index ==> index[id] < acc.segs.Length
    requires n < |script| && script[n].Record?
    requires |segs| == acc.segs.Length && |rets| == acc.rets.Length
    requires Tallied(acc, script, n, index, segs, rets, unknown)
    modifies acc`unknown, acc.segs, acc.rets
    ensures Tallied(acc, script, n + 1, index, segs, rets, unknown)
  {
    match ParseEvent(script[n].raw, little)
    case Err(_) =>
      CountsStep(script, n, index);
    case Ok(e) =>
      if e.zone !in index {
        CountsStep(script, n, index);
        TickOnce(unknown, Count(script, n, index, Unknown));
        acc.unknown := (acc.unknown + 1) % U64;
      } else {
        CountSegment(acc, script, n, index, index[e.zone], e.retrans != 0, segs, rets, unknown);
      }
  }

  /** The first n reads were made, blocking exactly where meant and then with no deadline armed. */
  ghost predicate MadeRight(script: seq<Read>, n: nat, made: seq<Made>)
    requires n <= |script|
  {
    |made| == n && forall k :: 0 <= k < n ==> made[k] == Made(Blocks(script, k), !Blocks(script, k))
  }

  ghost predicate NoneStops(script: seq<Read>, n: nat)
    requires n <= |script|
  {
    forall k :: 0 <= k < n ==> !Stops(script, k)
  }

  /** The goroutine ended after n reads: it ran out of script, or read n - 1 stopped it and none before. */
  ghost predicate Ended(script: seq<Read>, n: nat)
    requires n <= |script|
  {
    if n == 0 then script == []
    else NoneStops(script, n - 1) && (n == |script| || Stops(script, n - 1))
  }

  /**
   The goroutine reads on to the end of the script unless the ring is closed or the program is
   being stopped: it ends early only at a failed read that says so, and never passes a closed ring.
   */
  lemma EndsOnlyWhenTold(script: seq<Read>, n: nat)
    requires n <= |script| && Ended(script, n)
    ensures n < |script| ==> n > 0 && !script[n - 1].Record? && (script[n - 1].Closed? || script[n - 1].stopping)
    ensures forall k :: 0 <= k < n - 1 ==> !script[k].Closed? && !(script[k].Other? && script[k].stopping)
    ensures (forall k :: 0 <= k < |script| ==> !script[k].Closed? && !script[k].stopping) ==> n == |script|
  {
    forall k | 0 <= k < n - 1 ensures !script[k].Closed? && !(script[k].Other? && script[k].stopping) {
      assert !Stops(script, k);
    }
  }

  lemma NothingTallied(acc: Accumulator, script: seq<Read>, index: map<nat, nat>)
    requires acc.Valid() && acc.unknown < U64
    requires forall i :: 0 <= i < acc.segs.Length ==> acc.segs[i] < U64 && acc.rets[i] < U64
    ensures Tallied(acc, script, 0, index, acc.segs[..], acc.rets[..], acc.unknown)
  {}

  /** A failed read changes no counter. */
  lemma FailureTallied(acc: Accumulator, script: seq<Read>, n: nat, index: map<nat, nat>,
                       segs: seq<nat>, rets: seq<nat>, unknown: nat)
    requires n < |script| && !script[n].Record? && |segs| == acc.segs.Length && |rets| == acc.rets.Length
    requires Tallied(acc, script, n, index, segs, rets, unknown)
    ensures Tallied(acc, script, n + 1, index, segs, rets, unknown)
  {
    assert forall h :: Count(script, n + 1, index, h) == Count(script, n, index, h);
  }

  /** The inner loop, entered with read n, a record, just made. */
  method Drain(acc: Accumulator, script: seq<Read>, start: nat, index: map<nat, nat>, little: bool, before: seq<Made>,
               ghost segs: seq<nat>, ghost rets: seq<nat>, ghost unknown: nat)
    returns (n: nat, made: seq<Made>, stopped: bool, armed: bool)
    requires acc.Valid() && forall id :: id in index ==> index[id] < acc.segs.Length
    requires |segs| == acc.segs.Length && |rets| == acc.rets.Length
    requires start < |script| && script[start].Record? && NoneStops(script, start)
    requires MadeRight(script, start + 1, before)
    requires Tallied(acc, script, start, index, segs, rets, unknown)
    modifies acc`unknown, acc.segs, acc.rets
    ensures start < n <= |script| && MadeRight(script, n, made)
    ensures Tallied(acc, script, n, index, segs, rets, unknown)
    ensures if stopped then Ended(script, n) else NoneStops(script, n) && !armed && !script[n - 1].Record?
  {
    n, made, armed := start, before, false;
    while true
      invariant start <= n < |script| && script[n].Record? && NoneStops(script, n)
      invariant MadeRight(script, n + 1, made)
      invariant Tallied(acc, script, n, index, segs, rets, unknown)
      decreases |script| - n
    {
      Process(acc, script, n, index, little, segs, rets, unknown);
      n := n + 1;
      armed := true;
      if n == |script| {
        return n, made, true, armed;
      }
      made := made + [Made(false, armed)];
      if !script[n].Record? {
        FailureTallied(acc, script, n, index, segs, rets, unknown);
        n := n + 1;
        if script[n - 1].Deadline? {
          return n, made, false, false;
        }
        if script[n - 1].Closed? || script[n - 1].stopping {
          return n, made, true, armed;
        }
        return n, made, false, false;
      }
    }
  }

  /**
   `startRingbufReader`'s goroutine against any script of read outcomes: n reads are made, each
   record among them is counted once, and every blocking read has its deadline cleared.
   */
  method ReadLoop(acc: Accumulator, script: seq<Read>, index: map<nat, nat>, little: bool) returns (n: nat, made: seq<Made>)
    requires acc.Valid() && forall id :: id in index ==> index[id] < acc.segs.Length
    requires acc.unknown < U64
    requires forall i :: 0 <= i < acc.segs.Length ==> acc.segs[i] < U64 && acc.rets[i] < U64
    modifies acc`unknown, acc.segs, acc.rets
    ensures n <= |script| && Tallied(acc, script, n, index, old(acc.segs[..]), old(acc.rets[..]), old(acc.unknown))
    ensures Ended(script, n)
    ensures MadeRight(script, n, made)
  {
    ghost var segs, rets, unknown := acc.segs[..], acc.rets[..], acc.unknown;
    NothingTallied(acc, script, index);
    var armed := false;
    n, made := 0, [];
    while n < |script|
      invariant n <= |script| && !armed && (n > 0 ==> !script[n - 1].Record?)
      invariant Tallied(acc, script, n, index, segs, rets, unknown)
      invariant NoneStops(script, n) && MadeRight(script, n, made)
    {
      made := made + [Made(true, armed)];
      if script[n].Record? {
        var stopped;
        n, made, stopped, armed := Drain(acc, script, n, index, little, made, segs, rets, unknown);
        if stopped {
          return;
        }
      } else {
        FailureTallied(acc, script, n, index, segs, rets, unknown);
        n := n + 1;
        if script[n - 1].Closed? || script[n - 1].stopping {
          return;
        }
      }
    }
  }
}
