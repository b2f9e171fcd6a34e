/**
 The hash behind the Bloom filter and the layout of its bits
 (`bloom_hash`, `bloom_bit_index` and the addressing in `bloom_test_bit_gen`).
 All values are unsigned integers; 32-bit sums and shifts are reduced explicitly.
 */
module BloomHash {
  import opened Bitwise

  const WORDS: nat := 32768
  const BITS: nat := WORDS * 64

  type Bit = b: nat | b < BITS

  const U32: nat := 0x1_0000_0000

  /** A connection, as the raw header fields. */
  datatype Flow = Flow(saddr: nat, daddr: nat, sport: nat, dport: nat)

  /** What one call of `bloom_test_and_set` looks up: a flow and a sequence key. */
  datatype Key = Key(flow: Flow, seqKey: nat)

  const SEED0: nat := 0x12345678
  const SEED1: nat := 0x9e3779b9
  const SEED2: nat := 0xdeadbeef

  /** What a mixing step adds to the value it folds into the running hash `h`. */
  function Offset(h: nat): nat {
    0x9e3779b9 + (h * 64) % U32 + h / 4
  }

  /** One mixing step. */
  function Mix(h: nat, x: nat): nat {
    Xor(h, (x + Offset(h)) % U32)
  }

  /** The hash state just before the sequence key is mixed in. */
  function FlowHash(f: Flow, seed: nat): nat {
    Xor(Mix(Xor(seed, f.saddr), f.daddr), f.sport * 0x10000 + f.dport)
  }

  function Hash(k: Key, seed: nat): nat {
    Mix(FlowHash(k.flow, seed), k.seqKey)
  }

  /** The hash masked to the filter's 2^21 bits. */
  function BitIndex(k: Key, seed: nat): (b: nat)
    ensures b < BITS
  {
    Hash(k, seed) % BITS
  }

  /** The three bits of a key. */
  function BitsOf(k: Key): set<nat> {
    {BitIndex(k, SEED0), BitIndex(k, SEED1), BitIndex(k, SEED2)}
  }

  // ---- structure of the hash ----

  lemma ShiftCancels(a: nat, b: nat, k: nat, m: nat)
    requires m > 0
    ensures (a + k) % m == (b + k) % m <==> a % m == b % m
  {
    DivMod(a, m); DivMod(b, m); DivMod(a + k, m); DivMod(b + k, m);
    if (a + k) % m == (b + k) % m {
      Distribute(m, (a + k) / m, -((b + k) / m));
      SameResidue(a, b, (a + k) / m - (b + k) / m, m);
    }
    if a % m == b % m {
      Distribute(m, a / m, -(b / m));
      SameResidue(a + k, b + k, a / m - b / m, m);
    }
  }

  lemma DivMod(a: nat, m: nat)
    requires m > 0
    ensures a == m * (a / m) + a % m
  {}

  lemma Distribute(m: nat, x: int, y: int)
    ensures m * (x + y) == m * x + m * y
  {}

  lemma SameResidue(a: nat, b: nat, d: int, m: nat)
    requires m > 0 && a - b == m * d
    ensures a % m == b % m
  {
    var q := b / m + d;
    Distribute(m, b / m, d);
    DivMod(b, m);
    Multiple(m, q);
    ModUnique(a, m, q, b % m);
  }

  lemma PowersUsed()
    ensures Pow2(21) == BITS && Pow2(32) == U32
  {
    assert Pow2(8) == 256;
    assert Pow2(16) == 0x10000;
    assert Pow2(21) == 0x200000;
    assert Pow2(24) == 0x1000000;
    assert Pow2(32) == U32;
  }

  /** Reducing to 32 bits first does not change the low 21 bits. */
  lemma LowOfLow(x: nat)
    ensures (x % U32) % BITS == x % BITS
  {
    SameResidue(x, x % U32, 2048 * (x / U32), BITS);
  }

  /** A mixing step neither merges nor splits 32-bit values. */
  lemma MixInjective(h: nat, a: nat, b: nat)
    ensures Mix(h, a) == Mix(h, b) <==> a % U32 == b % U32
  {
    var k := Offset(h);
    XorCancels(h, (a + k) % U32); XorCancels(h, (b + k) % U32);
    ShiftCancels(a, b, k, U32);
  }

  lemma XorInjectiveLow(h: nat, x: nat, y: nat)
    ensures Xor(h, x) % BITS == Xor(h, y) % BITS <==> x % BITS == y % BITS
  {
    PowersUsed();
    XorLow(h, x, 21); XorLow(h, y, 21);
    XorCancels(h % BITS, x % BITS); XorCancels(h % BITS, y % BITS);
  }

  /** And it keeps, and reflects, agreement in the low 21 bits. */
  lemma MixKeepsLow(h: nat, a: nat, b: nat)
    ensures Mix(h, a) % BITS == Mix(h, b) % BITS <==> a % BITS == b % BITS
  {
    var k := Offset(h);
    XorInjectiveLow(h, (a + k) % U32, (b + k) % U32);
    LowOfLow(a + k); LowOfLow(b + k);
    ShiftCancels(a, b, k, BITS);
  }

  /** For one flow and one seed the 32-bit hash loses nothing of the sequence key. */
  lemma HashInjective(f: Flow, a: nat, b: nat, seed: nat)
    requires a < U32 && b < U32
    ensures Hash(Key(f, a), seed) == Hash(Key(f, b), seed) <==> a == b
  {
    var h := FlowHash(f, seed);
    assert Hash(Key(f, a), seed) == Mix(h, a) && Hash(Key(f, b), seed) == Mix(h, b);
    assert a % U32 == a && b % U32 == b;
    MixInjective(h, a, b);
  }

  /**
   Two keys of one flow collide under a seed exactly when they agree modulo 2^21. The condition
   does not mention the seed: one collision means that all three bits collide.
   */
  lemma SameBitIff(f: Flow, a: nat, b: nat, seed: nat)
    ensures BitIndex(Key(f, a), seed) == BitIndex(Key(f, b), seed) <==> a % BITS == b % BITS
  {
    MixKeepsLow(FlowHash(f, seed), a, b);
  }

  /** So within a flow the three hash functions act as one. */
  lemma SeedsCollideTogether(f: Flow, a: nat, b: nat)
    ensures a % BITS == b % BITS ==> BitsOf(Key(f, a)) == BitsOf(Key(f, b))
    ensures a % BITS != b % BITS ==>
              forall s | s in {SEED0, SEED1, SEED2} :: BitIndex(Key(f, a), s) != BitIndex(Key(f, b), s)
  {
    SameBitIff(f, a, b, SEED0);
    SameBitIff(f, a, b, SEED1);
    SameBitIff(f, a, b, SEED2);
  }

  // ---- nothing of a connection is left out ----

  /** Takes a mixing step back. */
  function Unmix(h: nat, y: nat): nat {
    (Xor(h, y) + 4 * U32 - Offset(h) % U32) % U32
  }

  lemma OffsetCancels(x: nat, k: nat)
    requires x < U32
    ensures ((x + k) % U32 + 4 * U32 - k % U32) % U32 == x
  {
    DivMod(k, U32);
    SameResidue(x + k, x + k % U32, k / U32, U32);
    var y := x + k % U32;
    if y >= U32 { ModUnique(y, U32, 1, y - U32); } else { ModUnique(y, U32, 0, y); }
  }

  lemma UnmixMix(h: nat, x: nat)
    requires x < U32
    ensures Unmix(h, Mix(h, x)) == x
  {
    var k := Offset(h);
    var y := (x + k) % U32;
    assert Xor(h, Mix(h, x)) == y by { XorCancels(h, y); }
    OffsetCancels(x, k);
  }

  /** Both ports as the one number that is folded in. */
  function Ports(f: Flow): nat {
    f.sport * 0x10000 + f.dport
  }

  /**
   Round trip: from the hash state, the source address, the ports and the seed the destination
   address can be computed, and from the hash and the state the sequence key.
   */
  lemma DaddrRecovered(f: Flow, seqKey: nat, seed: nat)
    requires f.daddr < U32 && seqKey < U32
    ensures Unmix(Xor(seed, f.saddr), Xor(Ports(f), FlowHash(f, seed))) == f.daddr
    ensures Unmix(FlowHash(f, seed), Hash(Key(f, seqKey), seed)) == seqKey
  {
    var h := Xor(seed, f.saddr);
    XorCommutes(Mix(h, f.daddr), Ports(f));
    XorCancels(Ports(f), Mix(h, f.daddr));
    UnmixMix(h, f.daddr);
    UnmixMix(FlowHash(f, seed), seqKey);
  }

  /** So are the ports, from the state, the addresses and the seed. */
  lemma PortsRecovered(f: Flow, seed: nat)
    ensures Xor(Mix(Xor(seed, f.saddr), f.daddr), FlowHash(f, seed)) == Ports(f)
  {
    XorCancels(Mix(Xor(seed, f.saddr), f.daddr), Ports(f));
  }

  /** Between the same addresses, only connections with the same ports share the hash state. */
  lemma PortsSeparate(f: Flow, g: Flow, seed: nat)
    requires f.saddr == g.saddr && f.daddr == g.daddr
    requires f.sport < 0x10000 && f.dport < 0x10000 && g.sport < 0x10000 && g.dport < 0x10000
    ensures FlowHash(f, seed) == FlowHash(g, seed) <==> f == g
  {
    PortsRecovered(f, seed);
    PortsRecovered(g, seed);
    assert Ports(f) == Ports(g) ==> f.sport == g.sport && f.dport == g.dport;
  }

  /** From the same source and with the same ports, only connections to the same destination do. */
  lemma DaddrSeparates(f: Flow, g: Flow, seed: nat)
    requires f.saddr == g.saddr && f.sport == g.sport && f.dport == g.dport && f.daddr < U32 && g.daddr < U32
    ensures FlowHash(f, seed) == FlowHash(g, seed) <==> f == g
  {
    DaddrRecovered(f, 0, seed);
    DaddrRecovered(g, 0, seed);
  }

  /** The state after the source address is folded in tells source addresses apart. */
  lemma SaddrSeparates(f: Flow, g: Flow, seed: nat)
    ensures Xor(seed, f.saddr) == Xor(seed, g.saddr) <==> f.saddr == g.saddr
  {
    XorCancels(seed, f.saddr);
    XorCancels(seed, g.saddr);
  }

  /** The constant and the two shifts, number for number at two points. */
  lemma OffsetSamples(z: nat, h: nat)
    requires z == 0 && h == 0x9e3779b9
    ensures Offset(z) % U32 == 0x9e3779b9 && Offset(h) % U32 == 0x53a3c667
  {}

  lemma MixBound(h: nat, x: nat)
    requires h < U32
    ensures Mix(h, x) < U32
  {
    PowersUsed();
    XorBound(h, (x + Offset(h)) % U32, 32);
  }

  lemma XorBound32(a: nat, b: nat)
    requires a < U32 && b < U32
    ensures Xor(a, b) < U32
  {
    PowersUsed();
    XorBound(a, b, 32);
  }

  /** The hash of 32-bit fields is a 32-bit value. */
  lemma HashBound(k: Key, seed: nat)
    requires k.flow.saddr < U32 && k.flow.sport < 0x10000 && k.flow.dport < 0x10000 && seed < U32
    ensures Hash(k, seed) < U32
  {
    var f := k.flow;
    var h := Xor(seed, f.saddr);
    XorBound32(seed, f.saddr);
    MixBound(h, f.daddr);
    XorBound32(Mix(h, f.daddr), f.sport * 0x10000 + f.dport);
    MixBound(FlowHash(f, seed), k.seqKey);
  }

  // ---- layout of the bits ----

  /** Index of the word that holds bit `b` in generation `g`: the parity of `g` selects the bank. */
  function Slot(b: nat, g: nat): (i: nat)
    requires b < BITS
    ensures i < 2 * WORDS
    ensures i / WORDS == g % 2
  {
    (g % 2) * WORDS + b / 64
  }

  function Mask(b: nat): nat {
    Pow2(b % 64)
  }

  /** Is bit `b` set in the 64-bit word `w`? */
  predicate HasBit(w: nat, b: nat) {
    And(w, Mask(b)) != 0
  }

  /** OR-ing in a mask adds the positions congruent to its bit and no others. */
  lemma OrAddsBit(w: nat, a: nat, b: nat)
    ensures HasBit(Or(w, Mask(a)), b) <==> HasBit(w, b) || a % 64 == b % 64
  {
    MaskTestsBit(Or(w, Mask(a)), b % 64);
    MaskTestsBit(w, b % 64);
    OrBit(w, Mask(a), b % 64);
    PowerBit(a % 64, b % 64);
  }

  lemma CellOf(a: nat, b: nat, g: nat)
    requires a < BITS && b < BITS
    ensures Slot(a, g) == Slot(b, g) && a % 64 == b % 64 <==> a == b
    ensures Slot(a, g) != Slot(b, g + 1)
  {}

  /** Distinct bits, or one bit in generations of different parity, never share a cell of the table. */
  lemma NoAliasing(a: nat, g: nat, b: nat, h: nat)
    requires a < BITS && b < BITS
    ensures Slot(a, g) == Slot(b, h) && Mask(a) == Mask(b) <==> a == b && g % 2 == h % 2
  {
    PowerBit(a % 64, b % 64);
    PowerBit(b % 64, b % 64);
  }
}
