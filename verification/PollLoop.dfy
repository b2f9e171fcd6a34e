/**
 The poll loop: what snapshots taken in a race with the ring reader make of the published loss
 percentages.
 */
module PollLoop {
  import opened Wrappers
  import opened AccumulatorRace
  import opened LossWindow
  import EmaLaws

  ghost predicate HasZone(snaps: seq<seq<Snap>>, z: nat) {
    forall j :: 0 <= j < |snaps| ==> z < |snaps[j]|
  }

  /** The polls of zone z: snapshot i is taken at times[i]. */
  function PollsOf(snaps: seq<seq<Snap>>, z: nat, times: seq<int>): (ps: seq<Poll>)
    requires HasZone(snaps, z) && |times| == |snaps|
    ensures |ps| == |snaps|
  {
    seq(|snaps|, i requires 0 <= i < |snaps| => Poll(times[i], Sample(snaps[i][z].segs, snaps[i][z].rets)))
  }

  /** The first snapshot still in a window of cap slots after m snapshots. */
  function Oldest(cap: nat, m: nat): nat {
    if m <= cap then 0 else m - cap
  }

  lemma {:induction false} StretchSums(snaps: seq<seq<Snap>>, z: nat, times: seq<int>, i: nat, m: nat)
    requires HasZone(snaps, z) && |times| == |snaps| && i <= m <= |snaps|
    ensures var w := Samples(PollsOf(snaps, z, times))[i..m];
            && SumSeg(w) == SegSum(snaps, z, m) - SegSum(snaps, z, i)
            && SumRet(w) == RetSum(snaps, z, m) - RetSum(snaps, z, i)
  {
    if i < m {
      StretchSums(snaps, z, times, i, m - 1);
      var all := Samples(PollsOf(snaps, z, times));
      assert all[i..m] == all[i..m - 1] + [all[m - 1]];
      SumAppend(all[i..m - 1], all[m - 1]);
    }
  }

  /** The window after m polls adds up a stretch of snapshots. */
  lemma WindowSums(c: Params, snaps: seq<seq<Snap>>, z: nat, times: seq<int>, m: nat)
    requires c.cap >= 1 && HasZone(snaps, z) && |times| == |snaps| && m <= |snaps|
    ensures var w, i := Window(c, PollsOf(snaps, z, times)[..m]), Oldest(c.cap, m);
            && SumSeg(w) == SegSum(snaps, z, m) - SegSum(snaps, z, i)
            && SumRet(w) == RetSum(snaps, z, m) - RetSum(snaps, z, i)
  {
    var ps, i := PollsOf(snaps, z, times), Oldest(c.cap, m);
    WindowIsTail(c, ps[..m]);
    assert Tail(Samples(ps[..m]), c.cap) == Samples(ps)[i..m];
    StretchSums(snaps, z, times, i, m);
  }

  lemma {:induction false} SumsGrow(snaps: seq<seq<Snap>>, z: nat, i: nat, j: nat)
    requires HasZone(snaps, z) && i <= j <= |snaps|
    ensures SegSum(snaps, z, i) <= SegSum(snaps, z, j) && RetSum(snaps, z, i) <= RetSum(snaps, z, j)
  {
    if i < j { SumsGrow(snaps, z, i, j - 1); }
  }

  /** A race of the reader and m snapshots of n zones, in a schedule with fewer than 2^64 segments of zone z. */
  ghost predicate Raced(s: State, n: nat, schedule: seq<Action>, z: nat) {
    z < n && s == After(n, schedule, |schedule|) && SegsRecorded(n, schedule, |schedule|, z) < U64
  }

  lemma WindowFits(s: State, n: nat, schedule: seq<Action>, z: nat, m: nat)
    requires Raced(s, n, schedule, z) && m <= |s.snaps|
    ensures SegSum(s.snaps, z, m) < U64 && RetSum(s.snaps, z, m) < U64
  {
    NothingLost(n, schedule, |schedule|, z);
    SumsGrow(s.snaps, z, m, |s.snaps|);
    AlwaysInv(n, schedule, |schedule|);
    AlwaysExact(n, schedule, |schedule|, z);
    assert Lagged(s, z);
  }

  lemma WindowSums64(c: Params, s: State, n: nat, schedule: seq<Action>, z: nat, times: seq<int>, m: nat)
    requires c.cap >= 1 && Raced(s, n, schedule, z) && |times| == |s.snaps| && m <= |s.snaps|
    ensures var ps, i := PollsOf(s.snaps, z, times)[..m], Oldest(c.cap, m);
            && WinSeg(c, ps) == SegSum(s.snaps, z, m) - SegSum(s.snaps, z, i)
            && WinRet(c, ps) == RetSum(s.snaps, z, m) - RetSum(s.snaps, z, i)
  {
    WindowSums(c, s.snaps, z, times, m);
    WindowFits(s, n, schedule, z, m);
  }

  function AllCuts(n: nat, schedule: seq<Action>, z: nat): seq<Cut> {
    CutsOf(n, schedule, |schedule|, z)
  }

  /** The cuts at both ends of the window after m polls put it in order. */
  ghost predicate WindowInOrder(cuts: seq<Cut>, cap: nat, m: nat) {
    0 < m <= |cuts| && cap >= 1 && Ordered(cuts, Oldest(cap, m), m)
  }

  /** The window after m polls is in order exactly when the race left it so. */
  lemma WindowOrderedIff(c: Params, s: State, n: nat, schedule: seq<Action>, z: nat, times: seq<int>, m: nat)
    requires c.cap >= 1 && Raced(s, n, schedule, z) && |times| == |s.snaps| && 0 < m <= |s.snaps|
    ensures var ps := PollsOf(s.snaps, z, times)[..m];
            WinRet(c, ps) <= WinSeg(c, ps) <==> WindowInOrder(AllCuts(n, schedule, z), c.cap, m)
  {
    var i := Oldest(c.cap, m);
    WindowSums64(c, s, n, schedule, z, times, m);
    StretchOrderedIff(n, schedule, |schedule|, z, i, m);
  }

  /** Every window that had a segment was left in order by the race. */
  ghost predicate RaceInOrder(c: Params, cuts: seq<Cut>, ps: seq<Poll>)
    requires c.cap >= 1
  {
    forall m :: 0 < m <= |ps| && Active(c, ps[..m]) ==> WindowInOrder(cuts, c.cap, m)
  }

  lemma RunOrderedIff(c: Params, s: State, n: nat, schedule: seq<Action>, z: nat, times: seq<int>)
    requires c.cap >= 1 && Raced(s, n, schedule, z) && |times| == |s.snaps|
    ensures EmaLaws.WindowsOrdered(c, PollsOf(s.snaps, z, times)) <==>
              RaceInOrder(c, AllCuts(n, schedule, z), PollsOf(s.snaps, z, times))
  {
    var ps := PollsOf(s.snaps, z, times);
    forall m | 0 < m <= |s.snaps|
      ensures WinRet(c, ps[..m]) <= WinSeg(c, ps[..m]) <==> WindowInOrder(AllCuts(n, schedule, z), c.cap, m)
    {
      WindowOrderedIff(c, s, n, schedule, z, times, m);
    }
    if RaceInOrder(c, AllCuts(n, schedule, z), PollsOf(s.snaps, z, times)) {
      forall m | 0 <= m <= |ps| ensures EmaLaws.WindowOrdered(c, ps[..m]) {
        if m == 0 { EmaLaws.NothingActive(c); }
      }
    }
    if EmaLaws.WindowsOrdered(c, ps) {
      forall m | 0 < m <= |s.snaps| && Active(c, ps[..m]) ensures WindowInOrder(AllCuts(n, schedule, z), c.cap, m) {
        assert EmaLaws.WindowOrdered(c, ps[..m]);
      }
    }
  }

  /**
   End to end for the user-space half: however recording and snapshots interleave, all instants
   published for a zone are percentages exactly when every window with a segment lies between
   cuts in order.
   */
  lemma PercentagesIff(c: Params, s: State, n: nat, schedule: seq<Action>, z: nat, times: seq<int>)
    requires c.cap >= 1 && Raced(s, n, schedule, z) && |times| == |s.snaps|
    ensures EmaLaws.Percentages(EmaLaws.Moves(c, PollsOf(s.snaps, z, times))) <==>
              RaceInOrder(c, AllCuts(n, schedule, z), PollsOf(s.snaps, z, times))
  {
    EmaLaws.InstantsInRangeIff(c, PollsOf(s.snaps, z, times));
    RunOrderedIff(c, s, n, schedule, z, times);
  }

  /** Then the EMA is a percentage too. */
  lemma RacedEmaIsPercentage(c: Params, s: State, n: nat, schedule: seq<Action>, z: nat, times: seq<int>)
    requires EmaLaws.Sound(c) && Raced(s, n, schedule, z) && |times| == |s.snaps|
    requires RaceInOrder(c, AllCuts(n, schedule, z), PollsOf(s.snaps, z, times))
    requires forall i :: 0 <= i < |times| ==> times[i] != 0
    ensures 0.0 <= Published(c, PollsOf(s.snaps, z, times)).ema <= 100.0
  {
    RunOrderedIff(c, s, n, schedule, z, times);
    EmaLaws.EmaIsPercentage(c, PollsOf(s.snaps, z, times));
  }

  /** No snapshot had a late segment or left a retransmit half recorded. */
  ghost predicate Undisturbed(cuts: seq<Cut>) {
    forall j :: 0 <= j < |cuts| ==> cuts[j].late == 0 && cuts[j].half == 0
  }

  /** A race in which no snapshot was disturbed is in order. */
  lemma UndisturbedRun(c: Params, s: State, n: nat, schedule: seq<Action>, z: nat, times: seq<int>)
    requires c.cap >= 1 && Raced(s, n, schedule, z) && |times| == |s.snaps|
    requires Undisturbed(AllCuts(n, schedule, z))
    ensures RaceInOrder(c, AllCuts(n, schedule, z), PollsOf(s.snaps, z, times))
  {
    AlwaysCuts(n, schedule, |schedule|, z);
    CutsExact(n, schedule, |schedule|, z);
  }

  /** And disturbed snapshots can publish 200 percent, from two retransmits recorded. */
  lemma RacePublishes200(c: Params, times: seq<int>) returns (schedule: seq<Action>)
    requires c.cap >= 2 && |times| == 2
    ensures var s := After(1, schedule, |schedule|);
            && Raced(s, 1, schedule, 0) && |s.snaps| == 2
            && Published(c, PollsOf(s.snaps, 0, times)).instant == 200.0
  {
    schedule := SnapshotsCanShowTooManyRetrans();
    EmaLaws.RaceLeavesRange(c, PollsOf(After(1, schedule, |schedule|).snaps, 0, times));
  }
}
