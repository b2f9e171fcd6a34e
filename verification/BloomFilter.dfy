/**
 The two-generation filter, one packet at a time: the simple object it implements, and the
 lazily cleared, generation-stamped table that implements it.
 */
module BloomFilter {
  import opened Wrappers
  import opened Bitwise
  import opened BloomHash

  const EPOCH_NS: nat := 1_500_000_000

  /**
   The simple object: the bits inserted in the current generation and in the one before.
   Rolling forgets `prev`; nothing is ever cleared word by word.
   */
  datatype Filter = Filter(gen: nat, start: nat, cur: set<nat>, prev: set<nat>)

  const EMPTY: Filter := Filter(0, 0, {}, {})

  predicate Due(start: nat, now: nat) {
    now > start && now - start > EPOCH_NS
  }

  function Roll(f: Filter, now: nat): Filter {
    if Due(f.start, now) then Filter(f.gen + 1, now, {}, f.cur) else f
  }

  function Insert(f: Filter, bits: set<nat>): Filter {
    f.(cur := f.cur + bits)
  }

  predicate Seen(f: Filter, bits: set<nat>) {
    bits <= f.cur + f.prev
  }

  /** A stamp a word may carry: never from the future, and of its bank's parity unless never used. */
  predicate StampFits(i: nat, stamp: nat, gen: nat) {
    stamp <= gen && (stamp == 0 || stamp % 2 == i / WORDS)
  }

  /** `bloom_bits` and `bloom_epoch`. All 64-bit values; `model` is the simple object they stand for. */
  class Table {
    const stamps: array<nat>
    const words: array<nat>
    var gen: nat
    var start: nat
    ghost var model: Filter

    /** What `bloom_test_bit_gen` computes. */
    predicate Lit(b: nat, g: nat)
      requires b < BITS && Sized()
      reads stamps, words
    {
      var i := Slot(b, g);
      stamps[i] == g && HasBit(words[i], b)
    }

    predicate Sized() {
      stamps.Length == 2 * WORDS && words.Length == 2 * WORDS && stamps != words
    }

    ghost predicate Shaped()
      reads this, stamps
    {
      && Sized()
      && (forall i :: 0 <= i < 2 * WORDS ==> StampFits(i, stamps[i], gen))
      && gen * (EPOCH_NS + 1) <= start < U64
    }

    ghost predicate Refines()
      requires Sized()
      reads this, stamps, words
    {
      && model.gen == gen && model.start == start
      && (forall b :: b in model.cur ==> b < BITS)
      && (forall b :: b in model.prev ==> b < BITS)
      && (forall b :: 0 <= b < BITS ==> (b in model.cur <==> Lit(b, gen)))
      && (forall b :: 0 <= b < BITS ==> (b in model.prev <==> gen > 0 && Lit(b, gen - 1)))
    }

    ghost predicate Valid()
      reads this, stamps, words
    {
      Shaped() && Refines()
    }

    constructor ()
      ensures Valid() && model == EMPTY && fresh(stamps) && fresh(words)
    {
      stamps := new nat[2 * WORDS](_ => 0);
      words := new nat[2 * WORDS](_ => 0);
      gen, start := 0, 0;
      model := EMPTY;
    }

    /**
     Whatever the clock showed, the 64-bit generation is far from wrapping, and the wrapped
     predecessor of generation 0 is no word's stamp.
     */
    lemma GenBounded()
      requires Shaped()
      ensures gen + 1 < U64 - 1
      ensures forall i :: 0 <= i < 2 * WORDS ==> stamps[i] != U64 - 1
    {
      forall i | 0 <= i < 2 * WORDS ensures stamps[i] != U64 - 1 {
        assert StampFits(i, stamps[i], gen);
      }
    }

    /** `bloom_test_bit_gen`: `g` may be the wrapped predecessor of generation 0. */
    method TestBit(b: nat, g: nat) returns (r: bool)
      requires Sized() && b < BITS
      ensures r == Lit(b, g)
    {
      var i := Slot(b, g);
      if stamps[i] != g {
        return false;
      }
      r := And(words[i], Mask(b)) != 0;
    }

    /** `bloom_set_bit_gen` for the current generation. */
    method SetBit(b: nat)
      requires Valid() && b < BITS
      modifies this`model, stamps, words
      ensures Valid()
      ensures model == old(model).(cur := old(model).cur + {b})
    {
      var i := Slot(b, gen);
      if stamps[i] != gen {
        ClearWord(i);
      }
      label cleared:
      words[i] := Or(words[i], Mask(b));
      model := model.(cur := model.cur + {b});
      forall c | 0 <= c < BITS ensures c in model.cur <==> Lit(c, gen) {
        assert old@cleared(Lit(c, gen)) <==> c in old@cleared(model.cur);
        OrAddsBit(old@cleared(words[i]), b, c);
        CellOf(b, c, gen);
      }
      forall c | 0 <= c < BITS ensures c in model.prev <==> gen > 0 && Lit(c, gen - 1) {
        if gen > 0 {
          CellOf(c, b, gen - 1);
          assert Lit(c, gen - 1) == old@cleared(Lit(c, gen - 1));
        }
      }
    }

    /** Stamp a word of the current bank with the current generation; what it held is out of date. */
    method ClearWord(i: nat)
      requires Valid() && i < 2 * WORDS && i / WORDS == gen % 2 && stamps[i] != gen
      modifies stamps, words
      ensures Valid() && stamps[i] == gen
    {
      stamps[i] := gen;
      words[i] := 0;
      forall c | 0 <= c < BITS
        ensures c in model.cur <==> Lit(c, gen)
        ensures c in model.prev <==> gen > 0 && Lit(c, gen - 1)
      {
        assert old(Lit(c, gen)) <==> c in model.cur;
        ZeroHasNoBit(c % 64);
        MaskTestsBit(0, c % 64);
      }
    }

    /** `bloom_maybe_roll_epoch` */
    method MaybeRoll(now: nat)
      requires Valid() && now < U64
      modifies this`gen, this`start, this`model
      ensures Valid()
      ensures model == Roll(old(model), now)
    {
      if now > start && now - start > EPOCH_NS {
        start := now;
        GenBounded();
        gen := (gen + 1) % U64;
        model := Roll(model, now);
      }
    }

    /** `bloom_test_and_set` */
    method TestAndSet(k: Key) returns (seen: bool)
      requires Valid()
      modifies this`model, stamps, words
      ensures Valid()
      ensures model == Insert(old(model), BitsOf(k))
      ensures seen == Seen(old(model), BitsOf(k))
    {
      seen := TestAndSetBits(BitIndex(k, SEED0), BitIndex(k, SEED1), BitIndex(k, SEED2));
    }

    /** The three tests, all before the three insertions. */
    method TestAndSetBits(b0: nat, b1: nat, b2: nat) returns (seen: bool)
      requires Valid() && b0 < BITS && b1 < BITS && b2 < BITS
      modifies this`model, stamps, words
      ensures Valid()
      ensures model == Insert(old(model), {b0, b1, b2})
      ensures seen == Seen(old(model), {b0, b1, b2})
    {
      seen := TestBits(b0, b1, b2);
      SetBit(b0);
      SetBit(b1);
      SetBit(b2);
      assert model.cur == old(model).cur + {b0, b1, b2};
    }

    method TestBits(b0: nat, b1: nat, b2: nat) returns (seen: bool)
      requires Valid() && b0 < BITS && b1 < BITS && b2 < BITS
      ensures seen == Seen(model, {b0, b1, b2})
    {
      var cur := gen;
      var prev := if cur == 0 then U64 - 1 else cur - 1;
      var seen0 := TestEither(b0, cur, prev);
      var seen1 := TestEither(b1, cur, prev);
      var seen2 := TestEither(b2, cur, prev);
      seen := seen0 && seen1 && seen2;
    }

    /** One bit tested in the current and the previous generation; at generation 0 the latter wraps. */
    method TestEither(b: nat, cur: nat, prev: nat) returns (r: bool)
      requires Valid() && b < BITS
      requires cur == gen && prev == (if cur == 0 then U64 - 1 else cur - 1)
      ensures r <==> b in model.cur + model.prev
    {
      r := TestBit(b, cur);
      if !r {
        r := TestBit(b, prev);
        assert StampFits(Slot(b, prev), stamps[Slot(b, prev)], gen);
      }
    }
  }
}
