/**
 The accumulator shared by the ring reader and the poll loop. `record` is two atomic adds and
 `snapshotAndReset` two atomic swaps per zone; the four interleave freely.
 */
module AccumulatorRace {
  import opened Wrappers

  datatype Snap = Snap(segs: nat, rets: nat)

  /** `MidRecord(z)`: the segment of a retransmit in zone z is counted, its retransmit not yet. */
  datatype Reader = Idle | MidRecord(zone: nat)

  /** `got` are the zones already read in this snapshot; `Between` has swapped only the next zone's segments. */
  datatype Poller = Resting | AtZone(got: seq<Snap>) | Between(got: seq<Snap>, segs: nat)

  /**
   How a zone's second swap found the race: the segments recorded since the first swap, all
   segments so far that were no retransmits, and whether a retransmit was half recorded (1 or 0).
   */
  datatype Cut = Cut(late: nat, plain: nat, half: nat)

  /**
   Per zone: what was added in all, how often the 64-bit counters wrapped, the segments that were
   no retransmits, and the cut of every second swap. Observers only.
   */
  datatype Ledger = Ledger(segAdds: nat, retAdds: nat, segWraps: nat, retWraps: nat, plain: nat, cuts: seq<Cut>)

  const BLANK: Ledger := Ledger(0, 0, 0, 0, 0, [])

  datatype State = State(segs: seq<nat>, rets: seq<nat>, reader: Reader, poller: Poller,
                         snaps: seq<seq<Snap>>, ledger: seq<Ledger>)

  /** Freshly made for n zones. */
  function Fresh(n: nat): State {
    State(seq(n, _ => 0), seq(n, _ => 0), Idle, Resting, [], seq(n, _ => BLANK))
  }

  function Bump(x: nat): nat {
    (x + 1) % U64
  }

  function Wrapped(x: nat): nat {
    if x + 1 < U64 then 0 else 1
  }

  predicate Shaped(s: State) {
    && |s.segs| == |s.rets| == |s.ledger|
    && (s.reader.MidRecord? ==> s.reader.zone < |s.segs|)
    && (!s.poller.Resting? ==> |s.poller.got| < |s.segs|)
    && (forall k :: 0 <= k < |s.snaps| ==> |s.snaps[k]| == |s.segs|)
    && (forall z :: 0 <= z < |s.segs| ==> s.segs[z] < U64 && s.rets[z] < U64)
  }

  function Half(r: Reader, z: nat): nat {
    if r == MidRecord(z) then 1 else 0
  }

  datatype Action = AddSeg(zone: nat, retrans: bool) | AddRet | Begin | SwapSegs | SwapRets

  predicate Enabled(s: State, a: Action) {
    match a
    case AddSeg(z, _) => s.reader.Idle? && z < |s.segs|
    case AddRet => s.reader.MidRecord?
    case Begin => s.poller.Resting? && |s.segs| > 0
    case SwapSegs => s.poller.AtZone?
    case SwapRets => s.poller.Between?
  }

  function Apply(s: State, a: Action): State
    requires Shaped(s) && Enabled(s, a)
  {
    match a
    case AddSeg(z, retrans) =>
      var l := s.ledger[z];
      s.(segs := s.segs[z := Bump(s.segs[z])], reader := if retrans then MidRecord(z) else Idle,
         ledger := s.ledger[z := l.(segAdds := l.segAdds + 1, segWraps := l.segWraps + Wrapped(s.segs[z]),
                                    plain := l.plain + if retrans then 0 else 1)])
    case AddRet =>
      var z := s.reader.zone;
      var l := s.ledger[z];
      s.(rets := s.rets[z := Bump(s.rets[z])], reader := Idle,
         ledger := s.ledger[z := l.(retAdds := l.retAdds + 1, retWraps := l.retWraps + Wrapped(s.rets[z]))])
    case Begin => s.(poller := AtZone([]))
    case SwapSegs =>
      var z := |s.poller.got|;
      s.(segs := s.segs[z := 0], poller := Between(s.poller.got, s.segs[z]))
    case SwapRets =>
      var z := |s.poller.got|;
      var got := s.poller.got + [Snap(s.poller.segs, s.rets[z])];
      var l := s.ledger[z];
      var s' := s.(rets := s.rets[z := 0],
                   ledger := s.ledger[z := l.(cuts := l.cuts + [Cut(s.segs[z], l.plain, Half(s.reader, z))])]);
      if z + 1 == |s.segs| then s'.(poller := Resting, snaps := s.snaps + [got]) else s'.(poller := AtZone(got))
  }

  lemma ShapedStep(s: State, a: Action)
    requires Shaped(s) && Enabled(s, a)
    ensures Shaped(Apply(s, a)) && |Apply(s, a).segs| == |s.segs|
  {}

  /**
   The state after the first k actions of a schedule; an action that is not possible where the
   schedule puts it does nothing. Every interleaving is a schedule.
   */
  function After(n: nat, schedule: seq<Action>, k: nat): (s: State)
    requires k <= |schedule|
    ensures Shaped(s) && |s.segs| == n
  {
    if k == 0 then Fresh(n) else
    var s := After(n, schedule, k - 1);
    if Enabled(s, schedule[k - 1]) then ShapedStep(s, schedule[k - 1]); Apply(s, schedule[k - 1]) else s
  }

  /** Zone z summed over the first k snapshots. */
  function SegSum(snaps: seq<seq<Snap>>, z: nat, k: nat): nat
    requires k <= |snaps| && forall j :: 0 <= j < |snaps| ==> z < |snaps[j]|
  {
    if k == 0 then 0 else SegSum(snaps, z, k - 1) + snaps[k - 1][z].segs
  }

  function RetSum(snaps: seq<seq<Snap>>, z: nat, k: nat): nat
    requires k <= |snaps| && forall j :: 0 <= j < |snaps| ==> z < |snaps[j]|
  {
    if k == 0 then 0 else RetSum(snaps, z, k - 1) + snaps[k - 1][z].rets
  }

  lemma {:induction false} SumsExtend(snaps: seq<seq<Snap>>, last: seq<Snap>, z: nat, k: nat)
    requires k <= |snaps| && z < |last| && forall j :: 0 <= j < |snaps| ==> z < |snaps[j]|
    ensures SegSum(snaps + [last], z, k) == SegSum(snaps, z, k)
    ensures RetSum(snaps + [last], z, k) == RetSum(snaps, z, k)
  {
    if k > 0 { SumsExtend(snaps, last, z, k - 1); }
  }

  /** What the unfinished snapshot has already taken from zone z. */
  function HeldSegs(p: Poller, z: nat): nat {
    if p.Resting? then 0
    else if z < |p.got| then p.got[z].segs
    else if p.Between? && z == |p.got| then p.segs else 0
  }

  function HeldRets(p: Poller, z: nat): nat {
    if !p.Resting? && z < |p.got| then p.got[z].rets else 0
  }

  predicate SegsTaken(p: Poller, z: nat) {
    !p.Resting? && (z < |p.got| || (p.Between? && z == |p.got|))
  }

  ghost predicate Conserved(s: State, z: nat)
    requires Shaped(s) && z < |s.segs|
  {
    var l := s.ledger[z];
    && SegSum(s.snaps, z, |s.snaps|) + HeldSegs(s.poller, z) + s.segs[z] + U64 * l.segWraps == l.segAdds
    && RetSum(s.snaps, z, |s.snaps|) + HeldRets(s.poller, z) + s.rets[z] + U64 * l.retWraps == l.retAdds
  }

  ghost predicate Lagged(s: State, z: nat)
    requires Shaped(s) && z < |s.segs|
  {
    && s.ledger[z].retAdds + s.ledger[z].plain + Half(s.reader, z) == s.ledger[z].segAdds
    && (s.ledger[z].segAdds < U64 ==>
          && (SegsTaken(s.poller, z) ==>
                RetSum(s.snaps, z, |s.snaps|) <= SegSum(s.snaps, z, |s.snaps|) + HeldSegs(s.poller, z))
          && forall k :: 0 <= k < |s.snaps| ==> RetSum(s.snaps, z, k) <= SegSum(s.snaps, z, k + 1))
  }

  ghost predicate Inv(s: State) {
    Shaped(s) && forall z :: 0 <= z < |s.segs| ==> Conserved(s, z) && Lagged(s, z)
  }

  lemma FinishStep(s: State, z: nat)
    requires Inv(s) && s.poller.Between? && |s.poller.got| + 1 == |s.segs| && z < |s.segs|
    ensures Shaped(Apply(s, SwapRets)) && Conserved(Apply(s, SwapRets), z) && Lagged(Apply(s, SwapRets), z)
  {
    ShapedStep(s, SwapRets);
    var s' := Apply(s, SwapRets);
    var n, got := |s.snaps|, s'.snaps[|s.snaps|];
    assert s'.snaps == s.snaps + [got];
    assert Conserved(s, z) && Lagged(s, z);
    SumsExtend(s.snaps, got, z, n);
    forall k | 0 <= k <= n
      ensures RetSum(s'.snaps, z, k) == RetSum(s.snaps, z, k) && SegSum(s'.snaps, z, k) == SegSum(s.snaps, z, k)
    {
      SumsExtend(s.snaps, got, z, k);
    }
    assert got[z].segs == HeldSegs(s.poller, z);
  }

  lemma AddSegStep(s: State, a: Action, z: nat)
    requires Inv(s) && Enabled(s, a) && a.AddSeg? && z < |s.segs|
    ensures Shaped(Apply(s, a)) && Conserved(Apply(s, a), z) && Lagged(Apply(s, a), z)
  {
    ShapedStep(s, a);
    assert Conserved(s, z) && Lagged(s, z);
    var s' := Apply(s, a);
    assert s'.snaps == s.snaps && s'.poller == s.poller;
  }

  lemma AddRetStep(s: State, z: nat)
    requires Inv(s) && Enabled(s, AddRet) && z < |s.segs|
    ensures Shaped(Apply(s, AddRet)) && Conserved(Apply(s, AddRet), z) && Lagged(Apply(s, AddRet), z)
  {
    ShapedStep(s, AddRet);
    assert Conserved(s, z) && Lagged(s, z);
    var s' := Apply(s, AddRet);
    assert s'.snaps == s.snaps && s'.poller == s.poller;
  }

  lemma PollStep(s: State, a: Action, z: nat)
    requires Inv(s) && Enabled(s, a) && z < |s.segs|
    requires a.Begin? || a.SwapSegs? || (a.SwapRets? && |s.poller.got| + 1 < |s.segs|)
    ensures Shaped(Apply(s, a)) && Conserved(Apply(s, a), z) && Lagged(Apply(s, a), z)
  {
    ShapedStep(s, a);
    assert Conserved(s, z) && Lagged(s, z);
    var s' := Apply(s, a);
    assert s'.snaps == s.snaps && s'.reader == s.reader;
  }

  lemma ZoneStep(s: State, a: Action, z: nat)
    requires Inv(s) && Enabled(s, a) && z < |s.segs|
    ensures Shaped(Apply(s, a)) && Conserved(Apply(s, a), z) && Lagged(Apply(s, a), z)
  {
    match a
    case AddSeg(_, _) => AddSegStep(s, a, z);
    case AddRet => AddRetStep(s, z);
    case Begin => PollStep(s, a, z);
    case SwapSegs => PollStep(s, a, z);
    case SwapRets => if |s.poller.got| + 1 == |s.segs| { FinishStep(s, z); } else { PollStep(s, a, z); }
  }

  lemma InvStep(s: State, a: Action)
    requires Inv(s) && Enabled(s, a)
    ensures Inv(Apply(s, a))
  {
    ShapedStep(s, a);
    forall z | 0 <= z < |s.segs| ensures Conserved(Apply(s, a), z) && Lagged(Apply(s, a), z) {
      ZoneStep(s, a, z);
    }
  }

  lemma InvFresh(n: nat)
    ensures Inv(Fresh(n))
  {}

  lemma {:induction false} AlwaysInv(n: nat, schedule: seq<Action>, k: nat)
    requires k <= |schedule|
    ensures Inv(After(n, schedule, k))
  {
    if k == 0 {
      InvFresh(n);
    } else {
      AlwaysInv(n, schedule, k - 1);
      var s, a := After(n, schedule, k - 1), schedule[k - 1];
      if Enabled(s, a) { InvStep(s, a); }
    }
  }

  // ---- what a schedule records, whatever the counters do ----

  /** Where the reader is after the first k actions. */
  function ReaderAt(n: nat, schedule: seq<Action>, k: nat): Reader
    requires k <= |schedule|
  {
    if k == 0 then Idle else
    var r := ReaderAt(n, schedule, k - 1);
    match schedule[k - 1]
    case AddSeg(z, retrans) => if r.Idle? && z < n && retrans then MidRecord(z) else r
    case AddRet => Idle
    case _ => r
  }

  /** Action j begins the record of a segment of zone z. */
  predicate Records(n: nat, schedule: seq<Action>, j: nat, z: nat)
    requires j < |schedule|
  {
    schedule[j].AddSeg? && schedule[j].zone == z < n && ReaderAt(n, schedule, j).Idle?
  }

  /** The segments of zone z recorded by the first k actions. */
  function SegsRecorded(n: nat, schedule: seq<Action>, k: nat, z: nat): nat
    requires k <= |schedule|
  {
    if k == 0 then 0 else SegsRecorded(n, schedule, k - 1, z) + if Records(n, schedule, k - 1, z) then 1 else 0
  }

  /** Those of them that were no retransmits. */
  function PlainRecorded(n: nat, schedule: seq<Action>, k: nat, z: nat): nat
    requires k <= |schedule|
  {
    if k == 0 then 0 else
    PlainRecorded(n, schedule, k - 1, z) +
    if Records(n, schedule, k - 1, z) && !schedule[k - 1].retrans then 1 else 0
  }

  /** The retransmits whose record is complete. */
  function RetsRecorded(n: nat, schedule: seq<Action>, k: nat, z: nat): nat
    requires k <= |schedule|
  {
    if k == 0 then 0 else
    RetsRecorded(n, schedule, k - 1, z) +
    if schedule[k - 1].AddRet? && ReaderAt(n, schedule, k - 1) == MidRecord(z) then 1 else 0
  }

  /** The ledger of zone z agrees with the schedule. */
  ghost predicate Exact(n: nat, schedule: seq<Action>, k: nat, z: nat)
    requires k <= |schedule| && z < n
  {
    var s := After(n, schedule, k);
    && s.reader == ReaderAt(n, schedule, k)
    && s.ledger[z].segAdds == SegsRecorded(n, schedule, k, z)
    && s.ledger[z].retAdds == RetsRecorded(n, schedule, k, z)
    && s.ledger[z].plain == PlainRecorded(n, schedule, k, z)
  }

  lemma ExactStart(n: nat, schedule: seq<Action>, z: nat)
    requires z < n
    ensures Exact(n, schedule, 0, z)
  {}

  lemma ExactStep(n: nat, schedule: seq<Action>, k: nat, z: nat)
    requires k < |schedule| && z < n && Exact(n, schedule, k, z)
    ensures Exact(n, schedule, k + 1, z)
  {
    var s, a := After(n, schedule, k), schedule[k];
    match a
    case AddSeg(_, _) =>
    case AddRet =>
    case Begin =>
    case SwapSegs =>
    case SwapRets =>
  }

  lemma {:induction false} AlwaysExact(n: nat, schedule: seq<Action>, k: nat, z: nat)
    requires k <= |schedule| && z < n
    ensures Exact(n, schedule, k, z)
  {
    if k == 0 {
      ExactStart(n, schedule, z);
    } else {
      AlwaysExact(n, schedule, k - 1, z);
      ExactStep(n, schedule, k - 1, z);
    }
  }

  /**
   Nothing is lost, invented or counted twice: the snapshots of a zone, the one under way and the
   residue add up to what the schedule recorded for it, up to wraps of the 64-bit counters, and
   exactly while it recorded fewer than 2^64 segments.
   */
  lemma NothingLost(n: nat, schedule: seq<Action>, k: nat, z: nat)
    requires k <= |schedule| && z < n
    ensures var s := After(n, schedule, k);
            var segs := SegSum(s.snaps, z, |s.snaps|) + HeldSegs(s.poller, z) + s.segs[z];
            var rets := RetSum(s.snaps, z, |s.snaps|) + HeldRets(s.poller, z) + s.rets[z];
            && segs + U64 * s.ledger[z].segWraps == SegsRecorded(n, schedule, k, z)
            && rets + U64 * s.ledger[z].retWraps == RetsRecorded(n, schedule, k, z)
            && (SegsRecorded(n, schedule, k, z) < U64 ==>
                  segs == SegsRecorded(n, schedule, k, z) && rets == RetsRecorded(n, schedule, k, z))
  {
    AlwaysInv(n, schedule, k);
    AlwaysExact(n, schedule, k, z);
    var s := After(n, schedule, k);
    assert Conserved(s, z) && Lagged(s, z);
    NoWraps(s.ledger[z].segWraps, s.ledger[z].segAdds);
    NoWraps(s.ledger[z].retWraps, s.ledger[z].retAdds);
  }

  lemma NoWraps(wraps: nat, adds: nat)
    requires U64 * wraps <= adds < U64 || adds >= U64
    ensures adds < U64 ==> wraps == 0
  {}

  /** One snapshot of lag is enough: retransmits reported in j snapshots have their segments in j + 1. */
  lemma RetransLagOneSnapshot(n: nat, schedule: seq<Action>, k: nat, z: nat, j: nat)
    requires k <= |schedule| && z < n
    requires j < |After(n, schedule, k).snaps|
    requires SegsRecorded(n, schedule, k, z) < U64
    ensures var snaps := After(n, schedule, k).snaps; RetSum(snaps, z, j) <= SegSum(snaps, z, j + 1)
  {
    AlwaysInv(n, schedule, k);
    AlwaysExact(n, schedule, k, z);
    assert Lagged(After(n, schedule, k), z);
  }

  // ---- when is a snapshot in order? ----

  /** Up to a cut, segments taken and late ones match retransmits taken, plain segments and the half-recorded one. */
  predicate Matches(segs: nat, rets: nat, c: Cut) {
    segs + c.late == rets + c.plain + c.half
  }

  predicate Swapped(p: Poller, z: nat) {
    !p.Resting? && z < |p.got|
  }

  /** Every second swap of zone z left a cut, in order. */
  ghost predicate CutsKept(s: State, z: nat)
    requires Shaped(s) && z < |s.segs|
  {
    var l := s.ledger[z];
    && |l.cuts| == |s.snaps| + (if Swapped(s.poller, z) then 1 else 0)
    && (forall i, j :: 0 <= i <= j < |l.cuts| ==> l.cuts[i].plain <= l.cuts[j].plain <= l.plain)
  }

  ghost predicate CutsMatch(s: State, z: nat)
    requires Shaped(s) && z < |s.segs| && CutsKept(s, z)
  {
    var l, n := s.ledger[z], |s.snaps|;
    l.segAdds < U64 ==>
      && (forall k :: 0 <= k < n ==> Matches(SegSum(s.snaps, z, k + 1), RetSum(s.snaps, z, k + 1), l.cuts[k]))
      && (Swapped(s.poller, z) ==>
            Matches(SegSum(s.snaps, z, n) + s.poller.got[z].segs, RetSum(s.snaps, z, n) + s.poller.got[z].rets, l.cuts[n]))
  }

  ghost predicate Cuts(s: State, z: nat)
    requires Shaped(s) && z < |s.segs|
  {
    CutsKept(s, z) && CutsMatch(s, z)
  }

  lemma CutsQuiet(s: State, a: Action, z: nat)
    requires Inv(s) && Enabled(s, a) && z < |s.segs| && Cuts(s, z)
    requires !a.SwapRets?
    ensures Shaped(Apply(s, a)) && Cuts(Apply(s, a), z)
  {
    ShapedStep(s, a);
    var s' := Apply(s, a);
    assert s'.snaps == s.snaps && s'.ledger[z].cuts == s.ledger[z].cuts;
    assert Swapped(s'.poller, z) <==> Swapped(s.poller, z);
    assert Swapped(s.poller, z) ==> s'.poller.got[z] == s.poller.got[z];
  }

  /** The second swap of zone z itself. */
  lemma CutMatches(s: State, z: nat)
    requires Inv(s) && s.poller.Between? && |s.poller.got| == z < |s.segs| && s.ledger[z].segAdds < U64
    ensures Matches(SegSum(s.snaps, z, |s.snaps|) + s.poller.segs, RetSum(s.snaps, z, |s.snaps|) + s.rets[z],
                    Cut(s.segs[z], s.ledger[z].plain, Half(s.reader, z)))
  {
    assert Conserved(s, z) && Lagged(s, z);
  }

  lemma CutsSwapKept(s: State, z: nat)
    requires Inv(s) && s.poller.Between? && z < |s.segs| && Cuts(s, z)
    ensures Shaped(Apply(s, SwapRets)) && CutsKept(Apply(s, SwapRets), z)
  {
    ShapedStep(s, SwapRets);
  }

  lemma CutsSwap(s: State, z: nat)
    requires Inv(s) && s.poller.Between? && |s.poller.got| + 1 < |s.segs| && z < |s.segs| && Cuts(s, z)
    ensures Shaped(Apply(s, SwapRets)) && Cuts(Apply(s, SwapRets), z)
  {
    CutsSwapKept(s, z);
    if z == |s.poller.got| && s.ledger[z].segAdds < U64 { CutMatches(s, z); }
  }

  lemma CutsFinish(s: State, z: nat)
    requires Inv(s) && s.poller.Between? && |s.poller.got| + 1 == |s.segs| && z < |s.segs| && Cuts(s, z)
    ensures Shaped(Apply(s, SwapRets)) && Cuts(Apply(s, SwapRets), z)
  {
    CutsSwapKept(s, z);
    var s' := Apply(s, SwapRets);
    var n, got := |s.snaps|, s'.snaps[|s.snaps|];
    assert s'.snaps == s.snaps + [got];
    if s.ledger[z].segAdds < U64 {
      forall k | 0 <= k <= n
        ensures RetSum(s'.snaps, z, k) == RetSum(s.snaps, z, k) && SegSum(s'.snaps, z, k) == SegSum(s.snaps, z, k)
      {
        SumsExtend(s.snaps, got, z, k);
      }
      if z == |s.poller.got| { CutMatches(s, z); }
      assert Matches(SegSum(s'.snaps, z, n + 1), RetSum(s'.snaps, z, n + 1), s'.ledger[z].cuts[n]);
    }
  }

  lemma CutsStart(n: nat, z: nat)
    requires z < n
    ensures Cuts(Fresh(n), z)
  {}

  lemma {:induction false} AlwaysCuts(n: nat, schedule: seq<Action>, k: nat, z: nat)
    requires k <= |schedule| && z < n
    ensures Cuts(After(n, schedule, k), z)
  {
    if k == 0 {
      CutsStart(n, z);
    } else {
      AlwaysCuts(n, schedule, k - 1, z);
      AlwaysInv(n, schedule, k - 1);
      var s, a := After(n, schedule, k - 1), schedule[k - 1];
      if Enabled(s, a) { CutsStep(s, a, z); }
    }
  }

  lemma CutsStep(s: State, a: Action, z: nat)
    requires Inv(s) && Enabled(s, a) && z < |s.segs| && Cuts(s, z)
    ensures Shaped(Apply(s, a)) && Cuts(Apply(s, a), z)
  {
    if !a.SwapRets? {
      CutsQuiet(s, a, z);
    } else if |s.poller.got| + 1 == |s.segs| {
      CutsFinish(s, z);
    } else {
      CutsSwap(s, z);
    }
  }

  // ---- cuts, from the schedule alone ----

  /** Where the poller is: `since` counts the actions up to and including the first swap of the zone. */
  datatype Phase = Rest | At(zone: nat) | Mid(zone: nat, since: nat)

  function PhaseAt(n: nat, schedule: seq<Action>, k: nat): Phase
    requires k <= |schedule|
  {
    if k == 0 then Rest else
    var p := PhaseAt(n, schedule, k - 1);
    match schedule[k - 1]
    case Begin => if p.Rest? && n > 0 then At(0) else p
    case SwapSegs => if p.At? then Mid(p.zone, k) else p
    case SwapRets => if !p.Mid? then p else if p.zone + 1 == n then Rest else At(p.zone + 1)
    case _ => p
  }

  /** The cuts that the second swaps of zone z make among the first k actions. */
  function CutsOf(n: nat, schedule: seq<Action>, k: nat, z: nat): seq<Cut>
    requires k <= |schedule|
  {
    if k == 0 then [] else
    var p := PhaseAt(n, schedule, k - 1);
    CutsOf(n, schedule, k - 1, z) +
    if schedule[k - 1].SwapRets? && p.Mid? && p.zone == z && p.since < k
    then [Cut((SegsRecorded(n, schedule, k - 1, z) - SegsRecorded(n, schedule, p.since, z)) % U64,
              PlainRecorded(n, schedule, k - 1, z), Half(ReaderAt(n, schedule, k - 1), z))]
    else []
  }

  ghost predicate InPhase(p: Poller, q: Phase, k: nat) {
    match p
    case Resting => q.Rest?
    case AtZone(got) => q == At(|got|)
    case Between(got, _) => q.Mid? && q.zone == |got| && q.since <= k
  }

  lemma PhaseStep(n: nat, schedule: seq<Action>, k: nat)
    requires k < |schedule| && InPhase(After(n, schedule, k).poller, PhaseAt(n, schedule, k), k)
    ensures InPhase(After(n, schedule, k + 1).poller, PhaseAt(n, schedule, k + 1), k + 1)
  {
    match schedule[k]
    case AddSeg(_, _) =>
    case AddRet =>
    case Begin =>
    case SwapSegs =>
    case SwapRets =>
  }

  lemma {:induction false} AlwaysInPhase(n: nat, schedule: seq<Action>, k: nat)
    requires k <= |schedule|
    ensures InPhase(After(n, schedule, k).poller, PhaseAt(n, schedule, k), k)
  {
    if k == 0 {
      assert After(n, schedule, 0).poller == Resting && PhaseAt(n, schedule, 0) == Rest;
    } else {
      AlwaysInPhase(n, schedule, k - 1);
      PhaseStep(n, schedule, k - 1);
    }
  }

  /** The counter of zone z holds the segments recorded after the first `since` actions. */
  ghost predicate HoldsSince(n: nat, schedule: seq<Action>, k: nat, z: nat, since: nat)
    requires since <= k <= |schedule| && z < n
  {
    After(n, schedule, k).segs[z] ==
    (SegsRecorded(n, schedule, k, z) - SegsRecorded(n, schedule, since, z)) % U64
  }

  /** Between its two swaps the counter of a zone holds the segments recorded since the first. */
  ghost predicate LateExact(n: nat, schedule: seq<Action>, k: nat)
    requires k <= |schedule|
  {
    var p := PhaseAt(n, schedule, k);
    p.Mid? ==> p.zone < n && p.since <= k && HoldsSince(n, schedule, k, p.zone, p.since)
  }

  lemma BumpCounts(x: int)
    ensures (x % U64 + 1) % U64 == (x + 1) % U64
  {}

  /** Until the first swap comes round again, only a recorded segment moves a zone's counter. */
  lemma CounterStep(s: State, a: Action, z: nat)
    requires Shaped(s) && Enabled(s, a) && z < |s.segs| && (a.SwapSegs? ==> |s.poller.got| != z)
    ensures Apply(s, a).segs[z] == if a.AddSeg? && a.zone == z then Bump(s.segs[z]) else s.segs[z]
  {}

  lemma LateKept(n: nat, schedule: seq<Action>, k: nat, z: nat)
    requires k < |schedule| && z < n && PhaseAt(n, schedule, k).Mid? && PhaseAt(n, schedule, k).zone == z
    requires !schedule[k].SwapRets? && InPhase(After(n, schedule, k).poller, PhaseAt(n, schedule, k), k)
    ensures After(n, schedule, k + 1).segs[z] ==
              if Records(n, schedule, k, z) then Bump(After(n, schedule, k).segs[z]) else After(n, schedule, k).segs[z]
  {
    var s, a := After(n, schedule, k), schedule[k];
    AlwaysExact(n, schedule, k, z);
    if Enabled(s, a) { CounterStep(s, a, z); }
  }

  lemma LateMoves(n: nat, schedule: seq<Action>, k: nat, z: nat, since: nat)
    requires k < |schedule| && z < n && PhaseAt(n, schedule, k) == Mid(z, since) && since <= k
    requires !schedule[k].SwapRets? && InPhase(After(n, schedule, k).poller, PhaseAt(n, schedule, k), k)
    requires HoldsSince(n, schedule, k, z, since)
    ensures HoldsSince(n, schedule, k + 1, z, since)
  {
    LateKept(n, schedule, k, z);
    BumpCounts(SegsRecorded(n, schedule, k, z) - SegsRecorded(n, schedule, since, z));
  }

  lemma LateStart(n: nat, schedule: seq<Action>, k: nat, z: nat)
    requires k < |schedule| && z < n && schedule[k].SwapSegs? && PhaseAt(n, schedule, k) == At(z)
    requires InPhase(After(n, schedule, k).poller, At(z), k)
    ensures HoldsSince(n, schedule, k + 1, z, k + 1)
  {}

  /** How a zone comes to lie between its swaps, or stays there. */
  lemma PhaseBefore(n: nat, schedule: seq<Action>, k: nat)
    requires k < |schedule| && PhaseAt(n, schedule, k + 1).Mid?
    ensures var p, q := PhaseAt(n, schedule, k), PhaseAt(n, schedule, k + 1);
            || (p == q && !schedule[k].SwapRets?)
            || (p == At(q.zone) && schedule[k].SwapSegs? && q.since == k + 1)
  {}

  lemma LateStep(n: nat, schedule: seq<Action>, k: nat)
    requires k < |schedule| && LateExact(n, schedule, k)
    ensures LateExact(n, schedule, k + 1)
  {
    var p, q := PhaseAt(n, schedule, k), PhaseAt(n, schedule, k + 1);
    if q.Mid? {
      AlwaysInPhase(n, schedule, k);
      PhaseBefore(n, schedule, k);
      if p == q {
        LateMoves(n, schedule, k, q.zone, q.since);
      } else {
        LateStart(n, schedule, k, q.zone);
      }
    }
  }

  lemma {:induction false} AlwaysLate(n: nat, schedule: seq<Action>, k: nat)
    requires k <= |schedule|
    ensures LateExact(n, schedule, k)
  {
    if k == 0 {
      assert PhaseAt(n, schedule, 0).Rest?;
    } else {
      AlwaysLate(n, schedule, k - 1);
      LateStep(n, schedule, k - 1);
    }
  }

  lemma CutsUntouched(s: State, a: Action, z: nat)
    requires Shaped(s) && Enabled(s, a) && z < |s.segs| && !a.SwapRets?
    ensures Apply(s, a).ledger[z].cuts == s.ledger[z].cuts
  {}

  lemma CutAdded(s: State, z: nat)
    requires Shaped(s) && s.poller.Between? && z < |s.segs|
    ensures Apply(s, SwapRets).ledger[z].cuts ==
              s.ledger[z].cuts +
              if z == |s.poller.got| then [Cut(s.segs[z], s.ledger[z].plain, Half(s.reader, z))] else []
  {}

  lemma CutsExactStep(n: nat, schedule: seq<Action>, k: nat, z: nat)
    requires k < |schedule| && z < n && After(n, schedule, k).ledger[z].cuts == CutsOf(n, schedule, k, z)
    ensures After(n, schedule, k + 1).ledger[z].cuts == CutsOf(n, schedule, k + 1, z)
  {
    var s, a := After(n, schedule, k), schedule[k];
    AlwaysInPhase(n, schedule, k);
    if a.SwapRets? && Enabled(s, a) {
      AlwaysLate(n, schedule, k);
      AlwaysExact(n, schedule, k, z);
      CutAdded(s, z);
    } else if Enabled(s, a) {
      CutsUntouched(s, a, z);
    }
  }

  lemma NoCutsYet(n: nat, schedule: seq<Action>, z: nat)
    requires z < n
    ensures After(n, schedule, 0).ledger[z].cuts == CutsOf(n, schedule, 0, z) == []
  {}

  /** The cuts in the ledger are those of the schedule. */
  lemma {:induction false} CutsExact(n: nat, schedule: seq<Action>, k: nat, z: nat)
    requires k <= |schedule| && z < n
    ensures After(n, schedule, k).ledger[z].cuts == CutsOf(n, schedule, k, z)
  {
    if k == 0 {
      NoCutsYet(n, schedule, z);
    } else {
      CutsExact(n, schedule, k - 1, z);
      CutsExactStep(n, schedule, k - 1, z);
    }
  }

  /** The cut before snapshot j. */
  function CutBefore(cuts: seq<Cut>, j: nat): Cut
    requires j <= |cuts|
  {
    if j == 0 then Cut(0, 0, 0) else cuts[j - 1]
  }

  /** A stretch of snapshots i, ..., j - 1 can be compared by its two cuts. */
  ghost predicate Ordered(cuts: seq<Cut>, i: nat, j: nat)
    requires i < j <= |cuts|
  {
    var b, e := CutBefore(cuts, i), cuts[j - 1];
    e.late + b.half <= b.late + (e.plain - b.plain) + e.half
  }

  /**
   Exactly when the snapshots i, ..., j - 1 of a zone together report no more retransmits than
   segments: the segments that came late in the last of them, and a retransmit left half recorded
   before the first, are made up for by the late ones before the first, the plain segments in
   between, and a retransmit half recorded at the end.
   */
  lemma StretchOrderedIff(n: nat, schedule: seq<Action>, k: nat, z: nat, i: nat, j: nat)
    requires k <= |schedule| && z < n && i < j <= |After(n, schedule, k).snaps|
    requires SegsRecorded(n, schedule, k, z) < U64
    ensures j <= |CutsOf(n, schedule, k, z)|
    ensures var s := After(n, schedule, k);
            RetSum(s.snaps, z, j) - RetSum(s.snaps, z, i) <= SegSum(s.snaps, z, j) - SegSum(s.snaps, z, i) <==>
            Ordered(CutsOf(n, schedule, k, z), i, j)
  {
    AlwaysCuts(n, schedule, k, z);
    AlwaysExact(n, schedule, k, z);
    CutsExact(n, schedule, k, z);
    var s := After(n, schedule, k);
    assert Matches(SegSum(s.snaps, z, j - 1 + 1), RetSum(s.snaps, z, j - 1 + 1), s.ledger[z].cuts[j - 1]);
    if i > 0 {
      assert Matches(SegSum(s.snaps, z, i - 1 + 1), RetSum(s.snaps, z, i - 1 + 1), s.ledger[z].cuts[i - 1]);
    }
  }

  /** One snapshot, exactly. */
  lemma SnapshotOrderedIff(n: nat, schedule: seq<Action>, k: nat, z: nat, j: nat)
    requires k <= |schedule| && z < n && j < |After(n, schedule, k).snaps|
    requires SegsRecorded(n, schedule, k, z) < U64
    ensures j < |CutsOf(n, schedule, k, z)|
    ensures var s := After(n, schedule, k);
            s.snaps[j][z].rets <= s.snaps[j][z].segs <==> Ordered(CutsOf(n, schedule, k, z), j, j + 1)
  {
    StretchOrderedIff(n, schedule, k, z, j, j + 1);
  }

  /** All snapshots up to j, exactly: the late segments at its second swap are covered by plain and half-recorded ones. */
  lemma CumulativeOrderedIff(n: nat, schedule: seq<Action>, k: nat, z: nat, j: nat)
    requires k <= |schedule| && z < n && j < |After(n, schedule, k).snaps|
    requires SegsRecorded(n, schedule, k, z) < U64
    ensures j < |CutsOf(n, schedule, k, z)|
    ensures var s := After(n, schedule, k);
            var c := CutsOf(n, schedule, k, z)[j];
            RetSum(s.snaps, z, j + 1) <= SegSum(s.snaps, z, j + 1) <==> c.late <= c.plain + c.half
  {
    StretchOrderedIff(n, schedule, k, z, 0, j + 1);
  }

  /** So a snapshot with no late segment, after one with no half-recorded retransmit, is in order. */
  lemma UndisturbedOrdered(n: nat, schedule: seq<Action>, k: nat, z: nat, j: nat)
    requires k <= |schedule| && z < n && j < |After(n, schedule, k).snaps|
    requires SegsRecorded(n, schedule, k, z) < U64
    requires var cuts := CutsOf(n, schedule, k, z);
             j < |cuts| && cuts[j].late == 0 && CutBefore(cuts, j).half == 0
    ensures var s := After(n, schedule, k); s.snaps[j][z].rets <= s.snaps[j][z].segs
  {
    SnapshotOrderedIff(n, schedule, k, z, j);
    AlwaysCuts(n, schedule, k, z);
    CutsExact(n, schedule, k, z);
  }

  /**
   Order can be lost: a first snapshot with a retransmit and no segment, then one with a segment
   and a retransmit, two retransmits for one segment in all.
   */
  lemma SnapshotsCanShowTooManyRetrans() returns (schedule: seq<Action>)
    ensures var snaps := After(1, schedule, |schedule|).snaps;
            |snaps| == 2 && snaps[0][0] == Snap(0, 1) && snaps[1][0] == Snap(1, 1)
    ensures SegsRecorded(1, schedule, |schedule|, 0) == 2
  {
    var record := [Begin, SwapSegs, AddSeg(0, true), AddRet, SwapRets];
    schedule := record + record;
    var a := After(1, schedule, 5);
    LateRecord(schedule, 0);
    LateRecord(schedule, 5);
    AlwaysExact(1, schedule, |schedule|, 0);
    assert After(1, schedule, 0) == Fresh(1);
    assert a.segs[0] == 1 && a.rets[0] == 0 && a.ledger[0].segAdds == 1;
    assert a.snaps[0][0] == Snap(0, 1);
  }

  /** One round in which a retransmit is recorded between the two swaps of the only zone. */
  lemma LateRecord(schedule: seq<Action>, k: nat)
    requires k + 5 <= |schedule| && schedule[k..k + 5] == [Begin, SwapSegs, AddSeg(0, true), AddRet, SwapRets]
    requires var s := After(1, schedule, k); s.reader.Idle? && s.poller.Resting?
    requires After(1, schedule, k).rets[0] == 0
    ensures var s, t := After(1, schedule, k), After(1, schedule, k + 5);
            && t.reader.Idle? && t.poller.Resting? && t.segs[0] == 1 && t.rets[0] == 0
            && |t.snaps| == |s.snaps| + 1 && t.snaps[..|s.snaps|] == s.snaps
            && t.snaps[|s.snaps|][0] == Snap(s.segs[0], 1)
            && t.ledger[0].segAdds == s.ledger[0].segAdds + 1
  {
    var s := After(1, schedule, k);
    var round := schedule[k..k + 5];
    assert schedule[k] == round[0] && schedule[k + 1] == round[1] && schedule[k + 2] == round[2];
    assert schedule[k + 3] == round[3] && schedule[k + 4] == round[4];
    var s1 := After(1, schedule, k + 1);
    assert s1 == s.(poller := AtZone([]));
    var s2 := After(1, schedule, k + 2);
    assert s2.poller == Between([], s.segs[0]) && s2.segs[0] == 0 && s2.snaps == s.snaps && s2.ledger == s.ledger;
    var s3 := After(1, schedule, k + 3);
    assert s3.segs[0] == 1 && s3.reader == MidRecord(0) && s3.poller == s2.poller && s3.snaps == s.snaps;
    var s4 := After(1, schedule, k + 4);
    assert s4.rets[0] == 1 && s4.segs[0] == 1 && s4.poller == s2.poller && s4.snaps == s.snaps;
    assert After(1, schedule, k + 5) == Apply(s4, SwapRets);
  }
}
