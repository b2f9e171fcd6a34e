/**
 `bloom_set_bit_gen` on many CPUs at once. Every memory access is a step of its own: the load
 of the epoch, the two loads of a word's stamp, the compare-and-swap, the clear and the OR;
 the steps of different CPUs, and rolls of the epoch, interleave freely.
 */
module BloomConcurrent {
  import opened BloomHash

  /** A word of the table; `bits` are the bit numbers (of the whole filter) it holds. */
  datatype Word = Word(stamp: nat, bits: set<Bit>)

  /** Where a CPU is inside the insertion of `bit`, and then of `rest`, for generation `gen`. */
  datatype Cpu =
    | Idle
    | Look(gen: nat, bit: Bit, rest: seq<Bit>)              // about to compare the stamp with gen
    | Reload(gen: nat, bit: Bit, rest: seq<Bit>)            // it differed; about to load the expected value
    | Swap(gen: nat, bit: Bit, rest: seq<Bit>, seen: nat)   // about to compare-and-swap
    | Clear(gen: nat, bit: Bit, rest: seq<Bit>)             // another stamp came back; about to zero the bits
    | Set(gen: nat, bit: Bit, rest: seq<Bit>)               // about to OR the mask in
  {
    /** The word the CPU works on. */
    function At(): nat
      requires !Idle?
    {
      Slot(bit, gen)
    }
  }

  /**
   The last three fields only observe: the (word, generation) pairs zeroed so far, the
   (bit, generation) pairs OR-ed in so far, and those of them OR-ed in when the word had been
   zeroed for that generation (or, in generation 0, never needed to be).
   */
  datatype State = State(epoch: nat, words: seq<Word>, cpus: seq<Cpu>,
                         cleared: multiset<(nat, nat)>, ored: set<(Bit, nat)>, settled: set<(Bit, nat)>)

  predicate WellFormed(s: State) {
    |s.words| == 2 * WORDS
  }

  ghost predicate Init(s: State) {
    && s.epoch == 0
    && |s.words| == 2 * WORDS
    && (forall i :: 0 <= i < |s.words| ==> s.words[i] == Word(0, {}))
    && (forall c :: 0 <= c < |s.cpus| ==> s.cpus[c] == Idle)
    && s.cleared == multiset{} && s.ored == {} && s.settled == {}
  }

  function SetCpu(s: State, c: nat, cpu: Cpu): State
    requires c < |s.cpus|
  {
    s.(cpus := s.cpus[c := cpu])
  }

  function SetWord(s: State, i: nat, w: Word): State
    requires i < |s.words|
  {
    s.(words := s.words[i := w])
  }

  /** The next step of a busy CPU is determined by the shared state. */
  function Advance(s: State, c: nat): State
    requires c < |s.cpus| && !s.cpus[c].Idle? && WellFormed(s)
  {
    var p := s.cpus[c];
    var g, b, rest, i := p.gen, p.bit, p.rest, p.At();
    var w := s.words[i];
    match p
    case Look(_, _, _) => SetCpu(s, c, if w.stamp != g then Reload(g, b, rest) else Set(g, b, rest))
    case Reload(_, _, _) => SetCpu(s, c, Swap(g, b, rest, w.stamp))
    case Swap(_, _, _, seen) =>
      var s' := if w.stamp == seen then SetWord(s, i, w.(stamp := g)) else s;
      SetCpu(s', c, if w.stamp != g then Clear(g, b, rest) else Set(g, b, rest))
    case Clear(_, _, _) =>
      SetCpu(SetWord(s, i, w.(bits := {})), c, Set(g, b, rest)).(cleared := s.cleared + multiset{(i, g)})
    case Set(_, _, _) =>
      var s' := SetWord(s, i, w.(bits := w.bits + {b}));
      var done := if g == 0 || (i, g) in s.cleared then {(b, g)} else {};
      SetCpu(s', c, if rest == [] then Idle else Look(g, rest[0], rest[1..]))
      .(ored := s.ored + {(b, g)}, settled := s.settled + done)
  }

  /** An idle CPU loads the epoch counter and starts inserting some bits. */
  ghost predicate Begin(s: State, s': State, c: nat, b: Bit, rest: seq<Bit>) {
    c < |s.cpus| && s.cpus[c] == Idle && s' == SetCpu(s, c, Look(s.epoch, b, rest))
  }

  ghost predicate CpuStep(s: State, s': State, c: nat)
    requires WellFormed(s)
  {
    c < |s.cpus| && !s.cpus[c].Idle? && s' == Advance(s, c)
  }

  ghost predicate Next(s: State, s': State)
    requires WellFormed(s)
  {
    || s' == s.(epoch := s.epoch + 1)
    || (exists c: nat, b: Bit, rest: seq<Bit> :: Begin(s, s', c, b, rest))
    || (exists c: nat :: CpuStep(s, s', c))
  }

  /** Every interleaving, as the sequence of states it passes through. */
  ghost predicate Run(ss: seq<State>)
    ensures Run(ss) ==> ss != []
  {
    && ss != [] && Init(ss[0])
    && (forall k :: 0 <= k < |ss| ==> WellFormed(ss[k]))
    && (forall k :: 0 < k < |ss| ==> Next(ss[k - 1], ss[k]))
  }

  /** What `bloom_test_bit_gen` would answer in this state. */
  predicate Visible(s: State, b: Bit, g: nat)
    requires WellFormed(s)
  {
    s.words[Slot(b, g)].stamp == g && b in s.words[Slot(b, g)].bits
  }

  // ---- in every interleaving ----

  /** Stamps have their bank's parity and never run ahead of the epoch; neither do insertions. */
  ghost predicate Sane(s: State) {
    && WellFormed(s)
    && (forall i :: 0 <= i < |s.words| ==> StampSane(i, s.words[i].stamp, s.epoch))
    && (forall c :: 0 <= c < |s.cpus| && !s.cpus[c].Idle? ==> s.cpus[c].gen <= s.epoch)
  }

  predicate StampSane(i: nat, stamp: nat, epoch: nat) {
    stamp <= epoch && (stamp != 0 ==> stamp % 2 == i / WORDS)
  }

  lemma SaneStep(s: State, s': State)
    requires Sane(s) && Next(s, s') && WellFormed(s')
    ensures Sane(s')
  {}

  lemma {:induction false} AlwaysSane(ss: seq<State>, k: nat)
    requires Run(ss) && k < |ss|
    ensures Sane(ss[k])
  {
    if k > 0 {
      AlwaysSane(ss, k - 1);
      SaneStep(ss[k - 1], ss[k]);
    }
  }

  /** Bit b was OR-ed into word i for some generation. */
  ghost predicate OredAt(s: State, i: nat, b: Bit) {
    exists g: nat :: (b, g) in s.ored && Slot(b, g) == i
  }

  ghost predicate Grounded(s: State) {
    forall i, b :: 0 <= i < |s.words| && b in s.words[i].bits ==> OredAt(s, i, b)
  }

  lemma GroundedStep(s: State, s': State)
    requires WellFormed(s) && Grounded(s) && Next(s, s')
    ensures Grounded(s')
  {
    forall i, b | 0 <= i < |s'.words| && b in s'.words[i].bits ensures OredAt(s', i, b) {
      if b in s.words[i].bits {
        var g: nat :| (b, g) in s.ored && Slot(b, g) == i;
        assert (b, g) in s'.ored;
      } else {
        var c: nat :| CpuStep(s, s', c);
        assert (b, s.cpus[c].gen) in s'.ored;
      }
    }
  }

  lemma {:induction false} AlwaysGrounded(ss: seq<State>, k: nat)
    requires Run(ss) && k < |ss|
    ensures Grounded(ss[k])
  {
    if k > 0 {
      AlwaysGrounded(ss, k - 1);
      assert Next(ss[k - 1], ss[k]);
      GroundedStep(ss[k - 1], ss[k]);
    }
  }

  /** In every interleaving a bit that answers the test was inserted, for that generation or another of its parity. */
  lemma VisibleWasInserted(ss: seq<State>, k: nat, b: Bit, g: nat)
    requires Run(ss) && k < |ss| && Visible(ss[k], b, g)
    ensures exists h: nat :: (b, h) in ss[k].ored && h % 2 == g % 2
  {
    AlwaysGrounded(ss, k);
    assert OredAt(ss[k], Slot(b, g), b);
    var h: nat :| (b, h) in ss[k].ored && Slot(b, h) == Slot(b, g);
    assert Slot(b, h) / WORDS == h % 2 && Slot(b, g) / WORDS == g % 2;
  }

  /** What one access may do to a word: a swap replaces the stamp it saw, a clear zeroes the bits, a set adds one. */
  ghost predicate Writes(p: Cpu, w: Word, w': Word) {
    || (p.Swap? && p.seen == w.stamp && w' == Word(p.gen, w.bits))
    || (p.Clear? && w' == Word(w.stamp, {}))
    || (p.Set? && w' == Word(w.stamp, w.bits + {p.bit}))
  }

  /** In every interleaving a word changes only so, by a CPU at that word; no step changes two. */
  lemma WordChanges(s: State, s': State, i: nat)
    requires WellFormed(s) && Next(s, s') && WellFormed(s') && i < |s.words| && s'.words[i] != s.words[i]
    ensures exists c: nat :: c < |s.cpus| && !s.cpus[c].Idle? && s.cpus[c].At() == i &&
                             Writes(s.cpus[c], s.words[i], s'.words[i])
    ensures forall j :: 0 <= j < |s.words| && j != i ==> s'.words[j] == s.words[j]
  {
    var c: nat :| CpuStep(s, s', c);
    assert Writes(s.cpus[c], s.words[i], s'.words[i]);
  }

  // ---- what an insertion that was begun gets done ----

  /** CPU c sets bit x for generation g in this step: the word gets it, under the stamp it had, and the CPU moves on. */
  ghost predicate Sets(s: State, s': State, c: nat, x: Bit, g: nat) {
    && WellFormed(s) && WellFormed(s') && c < |s.cpus| && s.cpus[c].Set? && s.cpus[c].bit == x && s.cpus[c].gen == g
    && s'.words[Slot(x, g)] == Word(s.words[Slot(x, g)].stamp, s.words[Slot(x, g)].bits + {x})
    && c < |s'.cpus| && s'.cpus[c] != s.cpus[c] && (x, g) in s'.ored
  }

  ghost predicate SetsAt(ss: seq<State>, j: nat, c: nat, x: Bit, g: nat) {
    j + 1 < |ss| && Sets(ss[j], ss[j + 1], c, x, g)
  }

  /** Bit x was set at a step from i on, before state k. */
  ghost predicate SetBetween(ss: seq<State>, i: nat, k: nat, c: nat, x: Bit, g: nat)
    requires k < |ss|
  {
    exists j: nat :: i <= j < k && SetsAt(ss, j, c, x, g)
  }

  /** The bits a CPU still has before it. */
  function Pending(p: Cpu): seq<Bit> {
    if p.Idle? then [] else [p.bit] + p.rest
  }

  /** At state k each of the bits is set or pending; or they all are set, and the CPU may be at something else. */
  ghost predicate Underway(ss: seq<State>, i: nat, k: nat, c: nat, bits: seq<Bit>, g: nat)
    requires k < |ss|
  {
    && c < |ss[k].cpus|
    && ((forall x :: x in bits ==> SetBetween(ss, i, k, c, x, g)) ||
        (!ss[k].cpus[c].Idle? && ss[k].cpus[c].gen == g &&
         forall x :: x in bits ==> SetBetween(ss, i, k, c, x, g) || x in Pending(ss[k].cpus[c])))
  }

  /** A step of the CPU sets the bit it is at, or leaves all of them pending. */
  lemma PendingStep(s: State, s': State, c: nat)
    requires WellFormed(s) && CpuStep(s, s', c) && WellFormed(s')
    ensures |s'.cpus| == |s.cpus|
    ensures var p, q := s.cpus[c], s'.cpus[c];
            && (q.Idle? || q.gen == p.gen)
            && (if p.Set? then Sets(s, s', c, p.bit, p.gen) && Pending(q) == p.rest else Pending(q) == Pending(p))
  {
    var p, q := s.cpus[c], s'.cpus[c];
    if p.Set? {
      assert p.rest != [] ==> p.rest == [p.rest[0]] + p.rest[1..];
    }
  }

  lemma OtherCpu(s: State, s': State, c: nat, d: nat)
    requires WellFormed(s) && CpuStep(s, s', d) && c < |s.cpus| && c != d
    ensures |s'.cpus| == |s.cpus| && s'.cpus[c] == s.cpus[c]
  {}

  lemma OtherBegins(s: State, s': State, c: nat, d: nat, b: Bit, rest: seq<Bit>)
    requires Begin(s, s', d, b, rest) && c < |s.cpus| && !s.cpus[c].Idle?
    ensures |s'.cpus| == |s.cpus| && s'.cpus[c] == s.cpus[c]
  {}

  /** Only its own steps change what a busy CPU is at. */
  lemma OthersStep(s: State, s': State, c: nat)
    requires WellFormed(s) && Next(s, s') && c < |s.cpus| && !CpuStep(s, s', c)
    ensures |s'.cpus| == |s.cpus| && (s.cpus[c].Idle? || s'.cpus[c] == s.cpus[c])
  {
    if d: nat, b: Bit, rest: seq<Bit> :| Begin(s, s', d, b, rest) {
      if !s.cpus[c].Idle? { OtherBegins(s, s', c, d, b, rest); }
    } else if d: nat :| CpuStep(s, s', d) {
      OtherCpu(s, s', c, d);
    }
  }

  lemma SetStays(ss: seq<State>, i: nat, k: nat, c: nat, x: Bit, g: nat)
    requires k + 1 < |ss| && SetBetween(ss, i, k, c, x, g)
    ensures SetBetween(ss, i, k + 1, c, x, g)
  {
    var j: nat :| i <= j < k && SetsAt(ss, j, c, x, g);
  }

  lemma UnderwayOwnStep(ss: seq<State>, i: nat, k: nat, c: nat, bits: seq<Bit>, g: nat)
    requires i <= k && k + 1 < |ss| && Underway(ss, i, k, c, bits, g)
    requires WellFormed(ss[k]) && WellFormed(ss[k + 1]) && CpuStep(ss[k], ss[k + 1], c) && ss[k].cpus[c].gen == g
    requires forall x :: x in bits ==> SetBetween(ss, i, k, c, x, g) || x in Pending(ss[k].cpus[c])
    ensures Underway(ss, i, k + 1, c, bits, g)
  {
    PendingStep(ss[k], ss[k + 1], c);
    var p := ss[k].cpus[c];
    forall x | x in bits ensures SetBetween(ss, i, k + 1, c, x, g) || x in Pending(ss[k + 1].cpus[c]) {
      if SetBetween(ss, i, k, c, x, g) {
        SetStays(ss, i, k, c, x, g);
      } else if p.Set? && x == p.bit {
        assert SetsAt(ss, k, c, x, g);
      }
    }
  }

  lemma UnderwayStep(ss: seq<State>, i: nat, k: nat, c: nat, bits: seq<Bit>, g: nat)
    requires i <= k && k + 1 < |ss| && Underway(ss, i, k, c, bits, g) && StepAt(ss, k)
    ensures Underway(ss, i, k + 1, c, bits, g)
  {
    forall x | x in bits && SetBetween(ss, i, k, c, x, g) ensures SetBetween(ss, i, k + 1, c, x, g) {
      SetStays(ss, i, k, c, x, g);
    }
    if !CpuStep(ss[k], ss[k + 1], c) {
      OthersStep(ss[k], ss[k + 1], c);
    } else {
      PendingStep(ss[k], ss[k + 1], c);
      if !(forall x :: x in bits ==> SetBetween(ss, i, k, c, x, g)) { UnderwayOwnStep(ss, i, k, c, bits, g); }
    }
  }

  lemma BeginUnderway(ss: seq<State>, i: nat, c: nat, b: Bit, rest: seq<Bit>)
    requires i + 1 < |ss| && Begin(ss[i], ss[i + 1], c, b, rest)
    ensures Underway(ss, i, i + 1, c, [b] + rest, ss[i].epoch)
  {
    assert Pending(ss[i + 1].cpus[c]) == [b] + rest;
  }

  ghost predicate StepAt(ss: seq<State>, k: nat) {
    k + 1 < |ss| && WellFormed(ss[k]) && WellFormed(ss[k + 1]) && Next(ss[k], ss[k + 1])
  }

  ghost predicate Chained(ss: seq<State>) {
    forall k: nat :: k + 1 < |ss| ==> StepAt(ss, k)
  }

  lemma RunStep(ss: seq<State>, k: nat)
    requires Run(ss) && k + 1 < |ss|
    ensures StepAt(ss, k)
  {
    var n := k + 1;
    assert Next(ss[n - 1], ss[n]);
  }

  lemma RunChained(ss: seq<State>)
    requires Run(ss)
    ensures Chained(ss)
  {
    forall k: nat | k + 1 < |ss| ensures StepAt(ss, k) {
      RunStep(ss, k);
    }
  }

  lemma {:induction false} AlwaysUnderway(ss: seq<State>, i: nat, k: nat, c: nat, bits: seq<Bit>, g: nat)
    requires Chained(ss) && i < k < |ss| && Underway(ss, i, i + 1, c, bits, g)
    ensures Underway(ss, i, k, c, bits, g)
  {
    if k > i + 1 {
      var m := k - 1;
      AlwaysUnderway(ss, i, m, c, bits, g);
      assert StepAt(ss, m);
      UnderwayStep(ss, i, m, c, bits, g);
    }
  }

  lemma {:induction false} LedgersGrow(ss: seq<State>, j: nat, k: nat)
    requires Chained(ss) && j <= k < |ss|
    ensures ss[j].ored <= ss[k].ored && ss[j].settled <= ss[k].settled
    ensures forall x :: x in ss[j].cleared ==> x in ss[k].cleared
  {
    if j < k {
      LedgersGrow(ss, j, k - 1);
      assert StepAt(ss, k - 1);
      LedgerStep(ss[k - 1], ss[k]);
    }
  }

  lemma LedgerStep(s: State, s': State)
    requires WellFormed(s) && Next(s, s')
    ensures s.ored <= s'.ored && s.settled <= s'.settled
    ensures forall x :: x in s.cleared ==> x in s'.cleared
  {}

  /**
   In every interleaving an insertion that was begun and has come to rest has set every one of
   its bits, each by a step of its own, for the generation it began in.
   */
  lemma InsertionCompletes(ss: seq<State>, i: nat, k: nat, c: nat, b: Bit, rest: seq<Bit>, x: Bit)
    requires Run(ss) && i < k < |ss| && Begin(ss[i], ss[i + 1], c, b, rest)
    requires c < |ss[k].cpus| && ss[k].cpus[c].Idle? && x in [b] + rest
    ensures SetBetween(ss, i, k, c, x, ss[i].epoch) && (x, ss[i].epoch) in ss[k].ored
  {
    BeginUnderway(ss, i, c, b, rest);
    RunChained(ss);
    BitCompleted(ss, i, k, c, [b] + rest, ss[i].epoch, x);
  }

  lemma BitCompleted(ss: seq<State>, i: nat, k: nat, c: nat, bits: seq<Bit>, g: nat, x: Bit)
    requires Chained(ss) && i < k < |ss| && Underway(ss, i, i + 1, c, bits, g)
    requires c < |ss[k].cpus| && ss[k].cpus[c].Idle? && x in bits
    ensures SetBetween(ss, i, k, c, x, g) && (x, g) in ss[k].ored
  {
    AlwaysUnderway(ss, i, k, c, bits, g);
    assert SetBetween(ss, i, k, c, x, g);
    SetIsOred(ss, i, k, c, x, g);
  }

  lemma SetIsOred(ss: seq<State>, i: nat, k: nat, c: nat, x: Bit, g: nat)
    requires Chained(ss) && k < |ss| && SetBetween(ss, i, k, c, x, g)
    ensures (x, g) in ss[k].ored
  {
    var j: nat :| i <= j < k && SetsAt(ss, j, c, x, g);
    LedgersGrow(ss, j + 1, k);
  }

  /** Bit x was set when its word had been zeroed for the generation, or never needed to be. */
  ghost predicate SetWhenCleared(ss: seq<State>, i: nat, k: nat, c: nat, x: Bit, g: nat)
    requires k < |ss|
  {
    exists j: nat :: i <= j < k && SetsAt(ss, j, c, x, g) && (g == 0 || (Slot(x, g), g) in ss[j].cleared)
  }

  lemma SetStepSettles(s: State, s': State, c: nat, x: Bit, g: nat)
    requires Sets(s, s', c, x, g) && Next(s, s') && (g == 0 || (Slot(x, g), g) in s.cleared)
    ensures (x, g) in s'.settled
  {
    if !CpuStep(s, s', c) { OthersStep(s, s', c); }
  }

  lemma SettlesFrom(ss: seq<State>, i: nat, k: nat, c: nat, x: Bit, g: nat)
    requires Chained(ss) && k < |ss| && SetWhenCleared(ss, i, k, c, x, g)
    ensures (x, g) in ss[k].settled
  {
    var j: nat :| i <= j < k && SetsAt(ss, j, c, x, g) && (g == 0 || (Slot(x, g), g) in ss[j].cleared);
    assert StepAt(ss, j);
    SetStepSettles(ss[j], ss[j + 1], c, x, g);
    LedgersGrow(ss, j + 1, k);
  }

  /** Such a bit is settled. */
  lemma SetSettles(ss: seq<State>, i: nat, k: nat, c: nat, x: Bit, g: nat)
    requires Run(ss) && k < |ss| && SetWhenCleared(ss, i, k, c, x, g)
    ensures (x, g) in ss[k].settled
  {
    RunChained(ss);
    SettlesFrom(ss, i, k, c, x, g);
  }

  lemma ClearedWhenSet(ss: seq<State>, i: nat, k: nat, c: nat, x: Bit, g: nat)
    requires Chained(ss) && i < k < |ss| && SetBetween(ss, i, k, c, x, g) && (g == 0 || (Slot(x, g), g) in ss[i].cleared)
    ensures SetWhenCleared(ss, i, k, c, x, g)
  {
    var j: nat :| i <= j < k && SetsAt(ss, j, c, x, g);
    LedgersGrow(ss, i, j);
  }

  /** So is every bit of an insertion that began after the words of its bits were zeroed, once it has come to rest. */
  lemma InsertionSettles(ss: seq<State>, i: nat, k: nat, c: nat, b: Bit, rest: seq<Bit>, x: Bit)
    requires Run(ss) && i < k < |ss| && Begin(ss[i], ss[i + 1], c, b, rest)
    requires c < |ss[k].cpus| && ss[k].cpus[c].Idle? && x in [b] + rest
    requires ss[i].epoch == 0 || (Slot(x, ss[i].epoch), ss[i].epoch) in ss[i].cleared
    ensures SetWhenCleared(ss, i, k, c, x, ss[i].epoch) && (x, ss[i].epoch) in ss[k].settled
  {
    var g := ss[i].epoch;
    InsertionCompletes(ss, i, k, c, b, rest, x);
    RunChained(ss);
    ClearedWhenSet(ss, i, k, c, x, g);
    SettlesFrom(ss, i, k, c, x, g);
  }

  /** How many steps of its own a CPU is from rest, at most. */
  function Work(p: Cpu): nat {
    match p
    case Idle => 0
    case Look(_, _, rest) => 5 * |rest| + 5
    case Reload(_, _, rest) => 5 * |rest| + 4
    case Swap(_, _, rest, _) => 5 * |rest| + 3
    case Clear(_, _, rest) => 5 * |rest| + 2
    case Set(_, _, rest) => 5 * |rest| + 1
  }

  /** Insertions are wait-free: each step of the CPU brings it nearer to rest, and no step of another sets it back. */
  lemma WorkShrinks(s: State, s': State, c: nat)
    requires WellFormed(s) && Next(s, s') && c < |s.cpus| && !s.cpus[c].Idle?
    ensures |s'.cpus| == |s.cpus|
    ensures if CpuStep(s, s', c) then Work(s'.cpus[c]) < Work(s.cpus[c]) else s'.cpus[c] == s.cpus[c]
  {
    if CpuStep(s, s', c) { OwnWork(s, s', c); } else { OthersStep(s, s', c); }
  }

  lemma OwnWork(s: State, s': State, c: nat)
    requires WellFormed(s) && CpuStep(s, s', c)
    ensures |s'.cpus| == |s.cpus| && Work(s'.cpus[c]) < Work(s.cpus[c])
  {}

  // ---- when no insertion outlives its generation by two epochs ----

  ghost predicate Prompt(s: State) {
    forall c :: 0 <= c < |s.cpus| && !s.cpus[c].Idle? ==> s.epoch <= s.cpus[c].gen + 1
  }

  /** What a CPU may rely on about the word it is working on. */
  ghost predicate CpuKnows(p: Cpu, w: Word, cleared: multiset<(nat, nat)>)
    requires !p.Idle?
  {
    && (p.gen == 0 ==> p.Look? || p.Set?)
    && (p.Swap? ==> w.stamp == p.seen || w.stamp == p.gen)
    && (p.Clear? ==> w.stamp == p.gen && (p.At(), p.gen) !in cleared)
    && (p.Set? ==> w.stamp == p.gen)
  }

  ghost predicate Clearing(s: State, c: nat, i: nat)
    requires WellFormed(s)
  {
    c < |s.cpus| && s.cpus[c].Clear? && s.cpus[c].At() == i
  }

  ghost predicate CpusKnow(s: State)
    requires WellFormed(s)
  {
    forall c :: 0 <= c < |s.cpus| && !s.cpus[c].Idle? ==>
      CpuKnows(s.cpus[c], s.words[s.cpus[c].At()], s.cleared)
  }

  ghost predicate OneClears(s: State)
    requires WellFormed(s)
  {
    forall c, d, i :: Clearing(s, c, i) && Clearing(s, d, i) ==> c == d
  }

  /** No word is cleared twice for a generation, and its stamp does not go back below it. */
  ghost predicate ClearedOnce(s: State)
    requires WellFormed(s)
  {
    forall x :: x in s.cleared ==>
      s.cleared[x] == 1 && x.0 < 2 * WORDS && x.0 / WORDS == x.1 % 2 && x.1 <= s.words[x.0].stamp
  }

  ghost predicate SettledCleared(s: State) {
    forall x :: x in s.settled ==> (x.1 == 0 || (Slot(x.0, x.1), x.1) in s.cleared)
  }

  /** A bit that was OR-ed in after the clear is visible until the epoch is two past its generation. */
  ghost predicate SettledVisible(s: State)
    requires WellFormed(s)
  {
    forall x :: x in s.settled && s.epoch < x.1 + 2 ==> Visible(s, x.0, x.1)
  }

  ghost predicate Protocol(s: State) {
    Sane(s) && CpusKnow(s) && OneClears(s) && ClearedOnce(s) && SettledCleared(s) && SettledVisible(s)
  }

  /** Prompt insertions that meet in a bank are for the same generation, and no stamp there is newer. */
  lemma SameBank(s: State, c: nat, d: nat)
    requires Sane(s) && Prompt(s) && c < |s.cpus| && d < |s.cpus|
    requires !s.cpus[c].Idle? && !s.cpus[d].Idle? && s.cpus[c].At() == s.cpus[d].At()
    ensures s.cpus[c].gen == s.cpus[d].gen
    ensures s.words[s.cpus[c].At()].stamp <= s.cpus[c].gen
  {
    var i := s.cpus[c].At();
    assert StampSane(i, s.words[i].stamp, s.epoch);
  }

  lemma QuietStep(s: State, s': State, c: nat)
    requires Protocol(s) && Prompt(s) && CpuStep(s, s', c) && WellFormed(s')
    requires s.cpus[c].Look? || s.cpus[c].Reload?
    ensures Protocol(s')
  {
    SaneStep(s, s');
    SameBank(s, c, c);
    assert forall d :: 0 <= d < |s.cpus| && d != c ==> s'.cpus[d] == s.cpus[d];
    assert forall d, i :: Clearing(s', d, i) ==> Clearing(s, d, i);
    assert forall x :: x in s.settled && Visible(s, x.0, x.1) ==> Visible(s', x.0, x.1);
  }

  lemma InitProtocol(s: State)
    requires Init(s)
    ensures Protocol(s)
  {}

  lemma RollStep(s: State, s': State)
    requires Protocol(s) && s' == s.(epoch := s.epoch + 1)
    ensures Protocol(s')
  {
    SaneStep(s, s');
    assert forall d, i :: Clearing(s', d, i) ==> Clearing(s, d, i);
    assert forall x :: x in s.settled && Visible(s, x.0, x.1) ==> Visible(s', x.0, x.1);
  }

  lemma BeginStep(s: State, s': State, c: nat, b: Bit, rest: seq<Bit>)
    requires Protocol(s) && Begin(s, s', c, b, rest)
    ensures Protocol(s')
  {
    SaneStep(s, s');
    assert forall d :: 0 <= d < |s.cpus| && d != c ==> s'.cpus[d] == s.cpus[d];
    assert forall d, i :: Clearing(s', d, i) ==> Clearing(s, d, i);
    assert forall x :: x in s.settled && Visible(s, x.0, x.1) ==> Visible(s', x.0, x.1);
  }

  /** A compare-and-swap that finds another stamp is the first of its generation at that word. */
  lemma SwapFirst(s: State, c: nat)
    requires Protocol(s) && Prompt(s) && c < |s.cpus| && s.cpus[c].Swap?
    requires s.words[s.cpus[c].At()].stamp != s.cpus[c].gen
    ensures s.words[s.cpus[c].At()].stamp == s.cpus[c].seen
    ensures (s.cpus[c].At(), s.cpus[c].gen) !in s.cleared
    ensures forall d :: 0 <= d < |s.cpus| && !s.cpus[d].Idle? && s.cpus[d].At() == s.cpus[c].At() ==>
              s.cpus[d].gen == s.cpus[c].gen && !s.cpus[d].Clear? && !s.cpus[d].Set?
    ensures forall x :: x in s.settled && s.epoch < x.1 + 2 ==> Slot(x.0, x.1) != s.cpus[c].At()
  {
    var i := s.cpus[c].At();
    forall d | 0 <= d < |s.cpus| && !s.cpus[d].Idle? && s.cpus[d].At() == i
      ensures s.cpus[d].gen == s.cpus[c].gen && !s.cpus[d].Clear? && !s.cpus[d].Set?
    {
      SameBank(s, c, d);
      assert CpuKnows(s.cpus[d], s.words[i], s.cleared);
    }
    SameBank(s, c, c);
    assert CpuKnows(s.cpus[c], s.words[i], s.cleared);
    forall x | x in s.settled && s.epoch < x.1 + 2 ensures Slot(x.0, x.1) != i {
      if Slot(x.0, x.1) == i { LiveSlot(s, c, x); }
    }
  }

  /** A prompt insertion at the word of a live settled bit is for that bit's generation. */
  lemma LiveSlot(s: State, c: nat, x: (Bit, nat))
    requires Protocol(s) && Prompt(s) && c < |s.cpus| && !s.cpus[c].Idle?
    requires x in s.settled && s.epoch < x.1 + 2 && Slot(x.0, x.1) == s.cpus[c].At()
    ensures s.cpus[c].gen == x.1 == s.words[s.cpus[c].At()].stamp
    ensures x.1 == 0 || (s.cpus[c].At(), x.1) in s.cleared
  {
    var i := s.cpus[c].At();
    assert Visible(s, x.0, x.1);
    assert StampSane(i, s.words[i].stamp, s.epoch);
  }

  /** A swap that finds its own generation leaves the words alone. */
  lemma SwapLate(s: State, s': State, c: nat)
    requires Protocol(s) && CpuStep(s, s', c) && s.cpus[c].Swap?
    requires s.words[s.cpus[c].At()].stamp == s.cpus[c].gen
    ensures Protocol(s')
  {
    SaneStep(s, s');
    assert s'.words == s.words;
    assert forall d :: 0 <= d < |s.cpus| && d != c ==> s'.cpus[d] == s.cpus[d];
    assert forall d, i :: Clearing(s', d, i) ==> Clearing(s, d, i);
    assert forall x :: x in s.settled && Visible(s, x.0, x.1) ==> Visible(s', x.0, x.1);
  }

  lemma SwapWinsCpus(s: State, s': State, c: nat)
    requires Protocol(s) && Prompt(s) && CpuStep(s, s', c) && s.cpus[c].Swap?
    requires s.words[s.cpus[c].At()].stamp != s.cpus[c].gen
    ensures CpusKnow(s') && OneClears(s')
  {
    var i, g := s.cpus[c].At(), s.cpus[c].gen;
    SwapFirst(s, c);
    assert forall d :: 0 <= d < |s.cpus| && d != c ==> s'.cpus[d] == s.cpus[d];
    assert forall j :: 0 <= j < |s.words| && j != i ==> s'.words[j] == s.words[j];
    assert forall d, j :: Clearing(s', d, j) ==> (d == c && j == i) || (Clearing(s, d, j) && j != i);
  }

  lemma SwapWins(s: State, s': State, c: nat)
    requires Protocol(s) && Prompt(s) && CpuStep(s, s', c) && s.cpus[c].Swap?
    requires s.words[s.cpus[c].At()].stamp != s.cpus[c].gen
    ensures Protocol(s')
  {
    SaneStep(s, s');
    SwapWinsCpus(s, s', c);
    SwapFirst(s, c);
    SameBank(s, c, c);
    assert forall j :: 0 <= j < |s.words| && j != s.cpus[c].At() ==> s'.words[j] == s.words[j];
    assert forall x :: x in s.settled && s.epoch < x.1 + 2 && Visible(s, x.0, x.1) ==> Visible(s', x.0, x.1);
  }

  lemma ClearKeepsCpus(s: State, s': State, c: nat)
    requires Protocol(s) && CpuStep(s, s', c) && s.cpus[c].Clear?
    ensures CpusKnow(s') && OneClears(s')
  {
    var i, g := s.cpus[c].At(), s.cpus[c].gen;
    assert Clearing(s, c, i);
    assert forall d, j :: Clearing(s', d, j) ==> Clearing(s, d, j) && d != c;
    forall d | 0 <= d < |s'.cpus| && !s'.cpus[d].Idle?
      ensures CpuKnows(s'.cpus[d], s'.words[s'.cpus[d].At()], s'.cleared)
    {
      assert CpuKnows(s.cpus[d], s.words[s.cpus[d].At()], s.cleared);
      assert Clearing(s, d, i) ==> d == c;
    }
  }

  lemma ClearKeepsLedger(s: State, s': State, c: nat)
    requires Protocol(s) && CpuStep(s, s', c) && s.cpus[c].Clear?
    ensures ClearedOnce(s') && SettledCleared(s')
  {
    var i, g := s.cpus[c].At(), s.cpus[c].gen;
    assert CpuKnows(s.cpus[c], s.words[i], s.cleared);
    assert forall j :: 0 <= j < |s.words| ==> s'.words[j].stamp == s.words[j].stamp;
    assert forall x :: x in s'.cleared <==> x in s.cleared || x == (i, g);
    assert forall x :: x in s.cleared && x != (i, g) ==> s'.cleared[x] == s.cleared[x];
  }

  lemma ClearStep(s: State, s': State, c: nat)
    requires Protocol(s) && Prompt(s) && CpuStep(s, s', c) && s.cpus[c].Clear?
    ensures Protocol(s')
  {
    SaneStep(s, s');
    ClearKeepsCpus(s, s', c);
    ClearKeepsLedger(s, s', c);
    var i := s.cpus[c].At();
    assert CpuKnows(s.cpus[c], s.words[i], s.cleared);
    forall x | x in s.settled && s.epoch < x.1 + 2 ensures Visible(s', x.0, x.1) {
      assert Visible(s, x.0, x.1);
      if Slot(x.0, x.1) == i { LiveSlot(s, c, x); }
    }
  }

  lemma SetKeepsCpus(s: State, s': State, c: nat)
    requires Protocol(s) && CpuStep(s, s', c) && s.cpus[c].Set?
    ensures CpusKnow(s') && OneClears(s') && ClearedOnce(s')
  {
    assert forall d :: 0 <= d < |s.cpus| && d != c ==> s'.cpus[d] == s.cpus[d];
    assert forall j :: 0 <= j < |s.words| ==> s'.words[j].stamp == s.words[j].stamp;
    assert forall d, j :: Clearing(s', d, j) ==> Clearing(s, d, j);
  }

  lemma SetKeepsCleared(s: State, s': State, c: nat)
    requires Protocol(s) && CpuStep(s, s', c) && s.cpus[c].Set?
    ensures SettledCleared(s')
  {
    var p := s.cpus[c];
    assert forall x :: x in s'.settled ==>
             x in s.settled || (x == (p.bit, p.gen) && (p.gen == 0 || (p.At(), p.gen) in s.cleared));
  }

  lemma SetKeepsVisible(s: State, s': State, c: nat)
    requires Protocol(s) && CpuStep(s, s', c) && s.cpus[c].Set?
    ensures SettledVisible(s')
  {
    var p := s.cpus[c];
    assert CpuKnows(p, s.words[p.At()], s.cleared);
    forall x | x in s'.settled && s'.epoch < x.1 + 2 ensures Visible(s', x.0, x.1) {
      if x in s.settled {
        assert Visible(s, x.0, x.1);
      } else {
        assert x == (p.bit, p.gen);
      }
    }
  }

  lemma SetStep(s: State, s': State, c: nat)
    requires Protocol(s) && CpuStep(s, s', c) && s.cpus[c].Set?
    ensures Protocol(s')
  {
    SaneStep(s, s');
    SetKeepsCpus(s, s', c);
    SetKeepsCleared(s, s', c);
    SetKeepsVisible(s, s', c);
  }

  lemma ProtocolStep(s: State, s': State)
    requires Protocol(s) && Prompt(s) && Next(s, s')
    ensures Protocol(s')
  {
    if s' == s.(epoch := s.epoch + 1) {
      RollStep(s, s');
    } else if c: nat, b: Bit, rest: seq<Bit> :| Begin(s, s', c, b, rest) {
      BeginStep(s, s', c, b, rest);
    } else {
      var c: nat :| CpuStep(s, s', c);
      match s.cpus[c]
      case Look(_, _, _) => QuietStep(s, s', c);
      case Reload(_, _, _) => QuietStep(s, s', c);
      case Swap(g, _, _, _) => if s.words[s.cpus[c].At()].stamp == g { SwapLate(s, s', c); } else { SwapWins(s, s', c); }
      case Clear(_, _, _) => ClearStep(s, s', c);
      case Set(_, _, _) => SetStep(s, s', c);
    }
  }

  lemma {:induction false} AlwaysProtocol(ss: seq<State>, k: nat)
    requires Run(ss) && k < |ss|
    requires forall j :: 0 <= j < k ==> Prompt(ss[j])
    ensures Protocol(ss[k])
  {
    if k == 0 {
      InitProtocol(ss[0]);
    } else {
      AlwaysProtocol(ss, k - 1);
      assert Next(ss[k - 1], ss[k]);
      ProtocolStep(ss[k - 1], ss[k]);
    }
  }

  /**
   In every interleaving whose insertions all finish before the epoch is two past their
   generation, no word is cleared twice for a generation, and every bit OR-ed in after the clear
   answers the test until then.
   */
  lemma PromptRunsKeepBits(ss: seq<State>, k: nat)
    requires Run(ss) && k < |ss|
    requires forall j :: 0 <= j < k ==> Prompt(ss[j])
    ensures ClearedOnce(ss[k]) && SettledVisible(ss[k])
  {
    AlwaysProtocol(ss, k);
  }

  /** Once zeroed for its generation (never, in generation 0), a word shows only settled bits of that generation. */
  ghost predicate NothingOld(s: State) {
    forall i :: 0 <= i < |s.words| ==> OwnBits(i, s.words[i], s.cleared, s.settled)
  }

  ghost predicate OwnBits(i: nat, w: Word, cleared: multiset<(nat, nat)>, settled: set<(Bit, nat)>) {
    (w.stamp == 0 || (i, w.stamp) in cleared) ==> forall b :: b in w.bits ==> (b, w.stamp) in settled
  }

  lemma NothingOldCpu(s: State, s': State, c: nat)
    requires Protocol(s) && Prompt(s) && NothingOld(s) && CpuStep(s, s', c)
    ensures NothingOld(s')
  {
    var p, i := s.cpus[c], s.cpus[c].At();
    assert CpuKnows(p, s.words[i], s.cleared);
    if p.Swap? && s.words[i].stamp != p.gen { SwapFirst(s, c); }
    forall j | 0 <= j < |s'.words| ensures OwnBits(j, s'.words[j], s'.cleared, s'.settled) {
      assert OwnBits(j, s.words[j], s.cleared, s.settled);
    }
  }

  lemma NothingOldStep(s: State, s': State)
    requires Protocol(s) && Prompt(s) && NothingOld(s) && Next(s, s')
    ensures NothingOld(s')
  {
    if c: nat :| CpuStep(s, s', c) {
      NothingOldCpu(s, s', c);
    }
  }

  lemma {:induction false} PromptRunsShowNothingOld(ss: seq<State>, k: nat)
    requires Run(ss) && k < |ss|
    requires forall j :: 0 <= j < k ==> Prompt(ss[j])
    ensures NothingOld(ss[k])
  {
    if k > 0 {
      PromptRunsShowNothingOld(ss, k - 1);
      AlwaysProtocol(ss, k - 1);
      assert Next(ss[k - 1], ss[k]);
      NothingOldStep(ss[k - 1], ss[k]);
    }
  }

  /**
   Exactly which bits answer the test in prompt interleavings: once its word is zeroed for the
   generation, and until the epoch is two past it, a bit is visible iff it was OR-ed in after that.
   */
  lemma VisibleIffSettled(ss: seq<State>, k: nat, b: Bit, g: nat)
    requires Run(ss) && k < |ss|
    requires forall j :: 0 <= j < k ==> Prompt(ss[j])
    requires (g == 0 || (Slot(b, g), g) in ss[k].cleared) && ss[k].epoch < g + 2
    ensures Visible(ss[k], b, g) <==> (b, g) in ss[k].settled
  {
    AlwaysProtocol(ss, k);
    PromptRunsShowNothingOld(ss, k);
    var i := Slot(b, g);
    assert OwnBits(i, ss[k].words[i], ss[k].cleared, ss[k].settled);
  }

  /**
   So in prompt interleavings an insertion that began after the words of its bits were zeroed, and
   has come to rest, is seen in full: every bit it was given answers the test until the epoch is
   two past its generation.
   */
  lemma InsertionVisible(ss: seq<State>, i: nat, k: nat, c: nat, b: Bit, rest: seq<Bit>, x: Bit)
    requires Run(ss) && i < k < |ss| && Begin(ss[i], ss[i + 1], c, b, rest)
    requires forall j :: 0 <= j < k ==> Prompt(ss[j])
    requires c < |ss[k].cpus| && ss[k].cpus[c].Idle? && x in [b] + rest && ss[k].epoch < ss[i].epoch + 2
    requires ss[i].epoch == 0 || (Slot(x, ss[i].epoch), ss[i].epoch) in ss[i].cleared
    ensures Visible(ss[k], x, ss[i].epoch)
  {
    InsertionSettles(ss, i, k, c, b, rest, x);
    SettledIsVisible(ss, k, x, ss[i].epoch);
  }

  lemma SettledIsVisible(ss: seq<State>, k: nat, x: Bit, g: nat)
    requires Run(ss) && k < |ss| && (x, g) in ss[k].settled && ss[k].epoch < g + 2
    requires forall j :: 0 <= j < k ==> Prompt(ss[j])
    ensures Visible(ss[k], x, g)
  {
    PromptRunsKeepBits(ss, k);
  }

  // ---- why promptness and the clear both matter ----

  lemma ExtendByRoll(ss: seq<State>) returns (ss': seq<State>)
    requires Run(ss)
    ensures Run(ss') && ss <= ss' && |ss'| == |ss| + 1
    ensures ss'[|ss|] == ss[|ss| - 1].(epoch := ss[|ss| - 1].epoch + 1)
  {
    ss' := ss + [ss[|ss| - 1].(epoch := ss[|ss| - 1].epoch + 1)];
  }

  lemma ExtendByStart(ss: seq<State>, c: nat, b: Bit) returns (ss': seq<State>)
    requires Run(ss) && c < |ss[|ss| - 1].cpus| && ss[|ss| - 1].cpus[c] == Idle
    ensures Run(ss') && ss <= ss' && |ss'| == |ss| + 1
    ensures ss'[|ss|] == SetCpu(ss[|ss| - 1], c, Look(ss[|ss| - 1].epoch, b, []))
  {
    var s := ss[|ss| - 1];
    var s' := SetCpu(s, c, Look(s.epoch, b, []));
    assert Begin(s, s', c, b, []);
    ss' := ss + [s'];
  }

  lemma ExtendByCpu(ss: seq<State>, c: nat) returns (ss': seq<State>)
    requires Run(ss) && c < |ss[|ss| - 1].cpus| && !ss[|ss| - 1].cpus[c].Idle?
    ensures Run(ss') && ss <= ss' && |ss'| == |ss| + 1
    ensures ss'[|ss|] == Advance(ss[|ss| - 1], c)
  {
    var s := ss[|ss| - 1];
    assert CpuStep(s, Advance(s, c), c);
    ss' := ss + [Advance(s, c)];
  }

  function Last(ss: seq<State>): State
    requires ss != []
  {
    ss[|ss| - 1]
  }

  ghost predicate AllPrompt(ss: seq<State>) {
    forall j :: 0 <= j < |ss| ==> Prompt(ss[j])
  }

  lemma StillPrompt(ss: seq<State>, ss': seq<State>)
    requires AllPrompt(ss) && ss <= ss' && |ss'| == |ss| + 1 && Prompt(ss'[|ss|])
    ensures AllPrompt(ss')
  {
    forall j | 0 <= j < |ss'| ensures Prompt(ss'[j]) {
      if j < |ss| { assert ss'[j] == ss[j]; }
    }
  }

  /** CPU 0 is about to insert bit 0 in generation 1. */
  lemma Approach() returns (ss: seq<State>)
    ensures Run(ss) && AllPrompt(ss)
    ensures Last(ss) == State(1, seq(2 * WORDS, _ => Word(0, {})), [Look(1, 0, []), Idle], multiset{}, {}, {})
  {
    ss := [State(0, seq(2 * WORDS, _ => Word(0, {})), [Idle, Idle], multiset{}, {}, {})];
    var before := ss;
    ss := ExtendByRoll(ss);
    StillPrompt(before, ss);
    before := ss;
    ss := ExtendByStart(ss, 0, 0);
    StillPrompt(before, ss);
  }

  /** It has found another stamp and is about to swap. */
  lemma AboutToSwap() returns (ss: seq<State>)
    ensures Run(ss) && AllPrompt(ss)
    ensures Last(ss) == State(1, seq(2 * WORDS, _ => Word(0, {})), [Swap(1, 0, [], 0), Idle], multiset{}, {}, {})
  {
    ss := Approach();
    var words, before := Last(ss).words, ss;
    ss := ExtendByCpu(ss, 0);
    assert Last(ss) == State(1, words, [Reload(1, 0, []), Idle], multiset{}, {}, {});
    StillPrompt(before, ss);
    before := ss;
    ss := ExtendByCpu(ss, 0);
    StillPrompt(before, ss);
  }

  /** CPU 0 stalls before its swap for generation 1 while the epoch moves on to 3. */
  lemma Stall() returns (ss: seq<State>)
    ensures Run(ss)
    ensures Last(ss) == State(3, seq(2 * WORDS, _ => Word(0, {})), [Swap(1, 0, [], 0), Idle], multiset{}, {}, {})
  {
    ss := AboutToSwap();
    ss := ExtendByRoll(ss);
    ss := ExtendByRoll(ss);
  }

  /** CPU 1 then settles bit 0 in generation 3. */
  lemma Overtake() returns (ss: seq<State>)
    ensures Run(ss)
    ensures var s := Last(ss); s.epoch == 3 && s.cpus == [Swap(1, 0, [], 0), Idle] && (0, 3) in s.settled
    ensures Last(ss).words[Slot(0, 1)] == Word(3, {0})
  {
    ss := Stall();
    var p, words := Swap(1, 0, [], 0), Last(ss).words;
    ss := ExtendByStart(ss, 1, 0);
    assert Last(ss) == State(3, words, [p, Look(3, 0, [])], multiset{}, {}, {});
    ss := ExtendByCpu(ss, 1);
    assert Last(ss) == State(3, words, [p, Reload(3, 0, [])], multiset{}, {}, {});
    ss := ExtendByCpu(ss, 1);
    assert Last(ss) == State(3, words, [p, Swap(3, 0, [], 0)], multiset{}, {}, {});
    ss := OvertakeSwap(ss, words);
  }

  lemma OvertakeSwap(ss: seq<State>, words: seq<Word>) returns (ss': seq<State>)
    requires Run(ss) && |words| == 2 * WORDS && words[WORDS] == Word(0, {})
    requires Last(ss) == State(3, words, [Swap(1, 0, [], 0), Swap(3, 0, [], 0)], multiset{}, {}, {})
    ensures Run(ss')
    ensures var s := Last(ss'); s.epoch == 3 && s.cpus == [Swap(1, 0, [], 0), Idle] && (0, 3) in s.settled
    ensures Last(ss').words[WORDS] == Word(3, {0})
  {
    var p := Swap(1, 0, [], 0);
    ss' := ExtendByCpu(ss, 1);
    assert Last(ss') == State(3, words[WORDS := Word(3, {})], [p, Clear(3, 0, [])], multiset{}, {}, {});
    ss' := ExtendByCpu(ss', 1);
    assert Last(ss') == State(3, words[WORDS := Word(3, {})], [p, Set(3, 0, [])], multiset{(WORDS, 3)}, {}, {});
    ss' := ExtendByCpu(ss', 1);
  }

  /**
   Without promptness a settled bit can vanish: when CPU 0 resumes, its swap fails on the newer
   stamp, and it still zeroes the word.
   */
  lemma StaleInsertionLosesBit() returns (ss: seq<State>)
    ensures Run(ss)
    ensures var s := Last(ss);
            s.epoch == 3 && (0, 3) in s.settled && !Visible(s, 0, 3) && s.words[Slot(0, 3)] == Word(3, {})
  {
    ss := Overtake();
    ss := ExtendByCpu(ss, 0);
    assert Last(ss).cpus[0] == Clear(1, 0, []) && Last(ss).words[WORDS] == Word(3, {0});
    ss := ExtendByCpu(ss, 0);
  }

  /** CPU 0 has stamped its word for generation 1 and is about to zero it; CPU 1 is idle. */
  lemma Stamp() returns (ss: seq<State>)
    ensures Run(ss) && AllPrompt(ss)
    ensures var s := Last(ss);
            && s == State(1, s.words, [Clear(1, 0, []), Idle], multiset{}, {}, {})
            && s.words[WORDS] == Word(1, {}) && s.words[0] == Word(0, {})
  {
    ss := AboutToSwap();
    var before := ss;
    ss := ExtendByCpu(ss, 0);
    assert Slot(0, 1) == WORDS;
    StillPrompt(before, ss);
  }

  /** CPU 1 has found the new stamp and is about to set bit 1 of the same word. */
  lemma Overlap() returns (ss: seq<State>)
    ensures Run(ss) && AllPrompt(ss)
    ensures var s := Last(ss);
            && s == State(1, s.words, [Clear(1, 0, []), Set(1, 1, [])], multiset{}, {}, {})
            && s.words[WORDS] == Word(1, {}) && s.words[0] == Word(0, {})
  {
    ss := Stamp();
    var before, words := ss, Last(ss).words;
    ss := ExtendByStart(ss, 1, 1);
    assert Last(ss) == State(1, words, [Clear(1, 0, []), Look(1, 1, [])], multiset{}, {}, {});
    StillPrompt(before, ss);
    before := ss;
    assert Slot(1, 1) == WORDS;
    ss := ExtendByCpu(ss, 1);
    StillPrompt(before, ss);
  }

  /** It sets the bit before CPU 0 zeroes the word. */
  lemma SlipIn() returns (ss: seq<State>)
    ensures Run(ss) && AllPrompt(ss)
    ensures var s := Last(ss);
            && s == State(1, s.words, [Clear(1, 0, []), Idle], multiset{}, {(1, 1)}, {})
            && s.words[WORDS].stamp == 1 && s.words[0] == Word(0, {})
  {
    ss := Overlap();
    var before := ss;
    assert Slot(1, 1) == WORDS;
    ss := ExtendByCpu(ss, 1);
    StillPrompt(before, ss);
  }

  /**
   Without the clear a bit can vanish even when every insertion is prompt: CPU 0 zeroes the word
   after CPU 1 found its stamp current and set its bit. Both CPUs are then done, and the bit is
   in neither generation.
   */
  lemma PromptLoss() returns (ss: seq<State>)
    ensures Run(ss) && AllPrompt(ss)
    ensures var s := Last(ss);
            && s.epoch == 1 && s.cpus == [Idle, Idle] && (Slot(1, 1), 1) in s.cleared
            && (1, 1) in s.ored && !Visible(s, 1, 1) && !Visible(s, 1, 0)
  {
    ss := SlipIn();
    var before := ss;
    assert Slot(0, 1) == Slot(1, 1) == WORDS && Slot(1, 0) == 0;
    ss := ExtendByCpu(ss, 0);
    assert Last(ss).cpus == [Set(1, 0, []), Idle] && Last(ss).words[WORDS] == Word(1, {});
    StillPrompt(before, ss);
    before := ss;
    ss := ExtendByCpu(ss, 0);
    StillPrompt(before, ss);
  }
}
