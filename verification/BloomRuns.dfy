/**
 Whole runs of the filter over zoned packets: what an answer means in terms of the packets
 before it, how long an insertion is remembered, and how soon it is forgotten.
 */
module BloomRuns {
  import opened Wrappers
  import opened BloomHash
  import opened BloomFilter

  /** A zoned packet: the clock reading at which it rolls the epoch, and the bits of the key it probes, if any. */
  datatype Packet = Packet(now: nat, probe: Option<set<nat>>)

  function Step(f: Filter, p: Packet): Filter {
    var r := Roll(f, p.now);
    if p.probe.Some? then Insert(r, p.probe.value) else r
  }

  /** The filter before packet i of the run. */
  function Before(ps: seq<Packet>, i: nat): Filter
    requires i <= |ps|
  {
    if i == 0 then EMPTY else Step(Before(ps, i - 1), ps[i - 1])
  }

  /** The filter that packet i meets, after the epoch had its chance to roll. */
  function At(ps: seq<Packet>, i: nat): Filter
    requires i < |ps|
  {
    Roll(Before(ps, i), ps[i].now)
  }

  /** Is packet i flagged as a repeat? */
  predicate Flagged(ps: seq<Packet>, i: nat)
    requires i < |ps|
  {
    ps[i].probe.Some? && Seen(At(ps, i), ps[i].probe.value)
  }

  predicate Inserts(p: Packet, b: nat) {
    p.probe.Some? && b in p.probe.value
  }

  /** Packet j, before packet i, inserted bit b in generation g. */
  predicate InsertedIn(ps: seq<Packet>, i: nat, j: nat, b: nat, g: int)
    requires i <= |ps|
  {
    j < i && Inserts(ps[j], b) && At(ps, j).gen == g
  }

  ghost predicate SomeInsertion(ps: seq<Packet>, i: nat, b: nat, g: int)
    requires i <= |ps|
  {
    exists j: nat :: InsertedIn(ps, i, j, b, g)
  }

  /** `f` holds exactly the bits that the first i packets inserted in its own and its previous generation. */
  ghost predicate Exact(ps: seq<Packet>, i: nat, f: Filter)
    requires i <= |ps|
  {
    && (forall b: nat :: b in f.cur <==> SomeInsertion(ps, i, b, f.gen))
    && (forall b: nat :: b in f.prev <==> SomeInsertion(ps, i, b, f.gen - 1))
  }

  lemma {:induction false} GenMonotone(ps: seq<Packet>, j: nat, i: nat)
    requires j <= i < |ps|
    ensures At(ps, j).gen <= Before(ps, i).gen + (if j == i then 1 else 0)
    ensures At(ps, j).gen <= At(ps, i).gen
  {
    if j < i { GenMonotone(ps, j, i - 1); }
  }

  lemma {:induction false} BeforeExact(ps: seq<Packet>, i: nat)
    requires i <= |ps|
    ensures Exact(ps, i, Before(ps, i))
  {
    if i == 0 {
      NothingYet(ps);
    } else {
      BeforeExact(ps, i - 1);
      AtExact(ps, i - 1);
      InsertExact(ps, i - 1);
    }
  }

  lemma NothingYet(ps: seq<Packet>)
    ensures Exact(ps, 0, EMPTY)
  {}

  lemma AtExact(ps: seq<Packet>, i: nat)
    requires i < |ps| && Exact(ps, i, Before(ps, i))
    ensures Exact(ps, i, At(ps, i))
  {
    var f, g := Before(ps, i), At(ps, i);
    if f != g {
      forall b: nat ensures !SomeInsertion(ps, i, b, g.gen) {
        forall j: nat | InsertedIn(ps, i, j, b, g.gen) ensures false {
          GenMonotone(ps, j, i);
        }
      }
    }
  }

  /** Packet i adds its own insertions to those before it. */
  lemma InsertionsGrow(ps: seq<Packet>, i: nat, b: nat, g: int)
    requires i < |ps|
    ensures SomeInsertion(ps, i + 1, b, g) <==> SomeInsertion(ps, i, b, g) || (Inserts(ps[i], b) && At(ps, i).gen == g)
  {
    if SomeInsertion(ps, i, b, g) {
      var j: nat :| InsertedIn(ps, i, j, b, g);
      assert InsertedIn(ps, i + 1, j, b, g);
    }
    if Inserts(ps[i], b) && At(ps, i).gen == g {
      assert InsertedIn(ps, i + 1, i, b, g);
    }
    if SomeInsertion(ps, i + 1, b, g) {
      var j: nat :| InsertedIn(ps, i + 1, j, b, g);
      if j < i { assert InsertedIn(ps, i, j, b, g); }
    }
  }

  lemma StepInserts(f: Filter, p: Packet, b: nat)
    ensures var r, s := Roll(f, p.now), Step(f, p);
            s.gen == r.gen && s.prev == r.prev && (b in s.cur <==> b in r.cur || Inserts(p, b))
  {}

  lemma InsertExactBit(ps: seq<Packet>, i: nat, b: nat)
    requires i < |ps| && Exact(ps, i, At(ps, i))
    ensures var h := Before(ps, i + 1);
            && (b in h.cur <==> SomeInsertion(ps, i + 1, b, h.gen))
            && (b in h.prev <==> SomeInsertion(ps, i + 1, b, h.gen - 1))
  {
    var f := At(ps, i);
    StepInserts(Before(ps, i), ps[i], b);
    assert Before(ps, i + 1) == Step(Before(ps, i), ps[i]);
    assert b in f.cur <==> SomeInsertion(ps, i, b, f.gen);
    assert b in f.prev <==> SomeInsertion(ps, i, b, f.gen - 1);
    InsertionsGrow(ps, i, b, f.gen);
    InsertionsGrow(ps, i, b, f.gen - 1);
  }

  lemma InsertExact(ps: seq<Packet>, i: nat)
    requires i < |ps| && Exact(ps, i, At(ps, i))
    ensures Exact(ps, i + 1, Before(ps, i + 1))
  {
    var h := Before(ps, i + 1);
    forall b: nat ensures b in h.cur <==> SomeInsertion(ps, i + 1, b, h.gen) {
      InsertExactBit(ps, i, b);
    }
    forall b: nat ensures b in h.prev <==> SomeInsertion(ps, i + 1, b, h.gen - 1) {
      InsertExactBit(ps, i, b);
    }
  }

  /** Bit b was inserted before packet i in the generation packet i meets, or in the one before that. */
  ghost predicate Live(ps: seq<Packet>, i: nat, b: nat)
    requires i < |ps|
  {
    SomeInsertion(ps, i, b, At(ps, i).gen) || SomeInsertion(ps, i, b, At(ps, i).gen - 1)
  }

  /**
   Refinement over runs, for any clock: a packet is flagged exactly when each bit of its key
   was inserted by some earlier packet in the current or the previous generation.
   */
  lemma FlaggedIff(ps: seq<Packet>, i: nat)
    requires i < |ps| && ps[i].probe.Some?
    ensures Flagged(ps, i) <==> forall b :: b in ps[i].probe.value ==> Live(ps, i, b)
  {
    BeforeExact(ps, i);
    AtExact(ps, i);
  }

  /** For a key: under each of the three seeds its bit was. */
  lemma KeyFlaggedIff(ps: seq<Packet>, i: nat, k: Key)
    requires i < |ps| && ps[i].probe == Some(BitsOf(k))
    ensures Flagged(ps, i) <==>
              Live(ps, i, BitIndex(k, SEED0)) && Live(ps, i, BitIndex(k, SEED1)) && Live(ps, i, BitIndex(k, SEED2))
  {
    FlaggedIff(ps, i);
    assert forall b :: b in ps[i].probe.value <==> b in BitsOf(k);
  }

  // ---- time ----

  /** The clock never runs backwards along the run. */
  ghost predicate Monotone(ps: seq<Packet>) {
    forall i, j :: 0 <= i <= j < |ps| ==> ps[i].now <= ps[j].now
  }

  /** From packet j on, a second roll is always more than an epoch away. */
  lemma {:induction false} RollSpacing(ps: seq<Packet>, j: nat, i: nat)
    requires Monotone(ps) && j <= i < |ps|
    ensures At(ps, i).gen == At(ps, j).gen ==> At(ps, i).start == At(ps, j).start
    ensures
      var g := At(ps, j).gen;
      || At(ps, i).gen == g
      || (At(ps, i).gen == g + 1 && At(ps, i).start > ps[j].now)
      || ps[i].now > ps[j].now + EPOCH_NS + 1
  {
    if j < i {
      RollSpacing(ps, j, i - 1);
      GenMonotone(ps, j, i - 1);
      assert Before(ps, i) == Step(Before(ps, i - 1), ps[i - 1]);
      assert ps[j].now <= ps[i - 1].now <= ps[i].now;
    }
  }

  /**
   No missed repeats: a packet whose bits were all inserted by a packet at most one epoch (1.5 s)
   earlier is always flagged, with one nanosecond to spare. A repeated key has the same bits; so,
   by `SameBitIff`, has any key of the flow that is congruent to it modulo 2^21.
   */
  lemma NoMissedRepeat(ps: seq<Packet>, j: nat, i: nat)
    requires Monotone(ps) && j < i < |ps|
    requires ps[j].probe.Some? && ps[i].probe == ps[j].probe
    requires ps[i].now - ps[j].now <= EPOCH_NS + 1
    ensures Flagged(ps, i)
  {
    RollSpacing(ps, j, i);
    forall b | b in ps[i].probe.value ensures Live(ps, i, b) {
      assert InsertedIn(ps, i, j, b, At(ps, j).gen);
    }
    FlaggedIff(ps, i);
  }

  /** The bound is sharp: after any longer gap a repeat can be missed, whatever its bits. */
  lemma RepeatCanBeMissed(bits: set<nat>, gap: nat) returns (ps: seq<Packet>)
    requires bits != {} && gap >= EPOCH_NS + 2
    ensures |ps| == 3 && Repeats(ps, 0, 2, bits, gap)
    ensures !Flagged(ps, 2)
  {
    ps := [Packet(EPOCH_NS, Some(bits)), Packet(EPOCH_NS + 1, None), Packet(EPOCH_NS + gap, Some(bits))];
    assert Before(ps, 1) == Step(EMPTY, ps[0]);
    assert Before(ps, 2) == Step(Before(ps, 1), ps[1]);
    assert At(ps, 2).cur == {} && At(ps, 2).prev == {};
  }

  /** In a run with a forward clock, packet i probes the same bits as packet j, gap nanoseconds later. */
  ghost predicate Repeats(ps: seq<Packet>, j: nat, i: nat, bits: set<nat>, gap: nat) {
    && Monotone(ps) && j < i < |ps|
    && ps[j].probe == ps[i].probe == Some(bits) && ps[i].now == ps[j].now + gap
  }

  ghost predicate AlwaysFlagged(bits: set<nat>, gap: nat) {
    forall ps: seq<Packet>, j: nat, i: nat :: Repeats(ps, j, i, bits, gap) ==> Flagged(ps, i)
  }

  /** A repeat is flagged in every run exactly when it comes within an epoch and a nanosecond. */
  lemma AlwaysFlaggedIff(bits: set<nat>, gap: nat)
    requires bits != {}
    ensures AlwaysFlagged(bits, gap) <==> gap <= EPOCH_NS + 1
  {
    if gap <= EPOCH_NS + 1 {
      forall ps: seq<Packet>, j: nat, i: nat | Repeats(ps, j, i, bits, gap) ensures Flagged(ps, i) {
        NoMissedRepeat(ps, j, i);
      }
    } else {
      var ps := RepeatCanBeMissed(bits, gap);
      assert Repeats(ps, 0, 2, bits, gap);
    }
  }

  /** Consecutive packets are at most d apart. */
  ghost predicate Dense(ps: seq<Packet>, d: nat) {
    forall i :: 0 < i < |ps| ==> ps[i].now <= ps[i - 1].now + d
  }

  /** The start of the epoch that packet i meets, seen from a packet j one generation earlier or less. */
  lemma {:induction false} StartBounded(ps: seq<Packet>, j: nat, i: nat, d: nat)
    requires Monotone(ps) && Dense(ps, d) && j <= i < |ps|
    ensures ps[i].now <= At(ps, i).start + EPOCH_NS
    ensures At(ps, i).gen == At(ps, j).gen ==> At(ps, i).start == At(ps, j).start
    ensures At(ps, i).gen == At(ps, j).gen + 1 ==> At(ps, i).start <= At(ps, j).start + EPOCH_NS + d
  {
    if j < i {
      StartBounded(ps, j, i - 1, d);
      GenMonotone(ps, j, i - 1);
      assert Before(ps, i) == Step(Before(ps, i - 1), ps[i - 1]);
      assert ps[i - 1].now <= ps[i].now <= ps[i - 1].now + d;
    }
  }

  lemma {:induction false} StartPast(ps: seq<Packet>, i: nat)
    requires Monotone(ps) && i < |ps|
    ensures At(ps, i).start <= ps[i].now
  {
    if i > 0 {
      StartPast(ps, i - 1);
      assert Before(ps, i) == Step(Before(ps, i - 1), ps[i - 1]);
      assert ps[i - 1].now <= ps[i].now;
    }
  }

  lemma LiveIsRecent(ps: seq<Packet>, i: nat, j: nat, b: nat, g: int, d: nat)
    requires Monotone(ps) && Dense(ps, d) && i < |ps|
    requires InsertedIn(ps, i, j, b, g) && At(ps, i).gen - 1 <= g <= At(ps, i).gen
    ensures ps[i].now <= ps[j].now + 2 * EPOCH_NS + d
  {
    StartBounded(ps, j, i, d);
    StartPast(ps, j);
  }

  /** Bit b was inserted before packet i, no more than two epochs and d ago. */
  ghost predicate Recent(ps: seq<Packet>, i: nat, b: nat, d: nat)
    requires i < |ps|
  {
    exists j: nat :: j < i && Inserts(ps[j], b) && ps[i].now <= ps[j].now + 2 * EPOCH_NS + d
  }

  /**
   Bounded memory: with packets at most d apart, every bit behind a flag at time t was inserted
   at or after t - (2 * EPOCH_NS + d).
   */
  lemma BoundedMemory(ps: seq<Packet>, i: nat, b: nat, d: nat)
    requires Monotone(ps) && Dense(ps, d) && i < |ps|
    requires Flagged(ps, i) && b in ps[i].probe.value
    ensures Recent(ps, i, b, d)
  {
    FlaggedIff(ps, i);
    assert Live(ps, i, b);
    var g := if SomeInsertion(ps, i, b, At(ps, i).gen) then At(ps, i).gen else At(ps, i).gen - 1;
    var j: nat :| InsertedIn(ps, i, j, b, g);
    LiveIsRecent(ps, i, j, b, g, d);
  }

  /** Whatever the clock shows, each generation costs more than an epoch, so 64 bits never run out. */
  lemma {:induction false} GenerationsCostTime(ps: seq<Packet>, i: nat)
    requires i <= |ps|
    ensures Before(ps, i).gen * (EPOCH_NS + 1) <= Before(ps, i).start
    ensures (forall j :: 0 <= j < i ==> ps[j].now < U64) ==> Before(ps, i).start < U64 && Before(ps, i).gen < U64 - 1
  {
    if i > 0 { GenerationsCostTime(ps, i - 1); }
  }
}
