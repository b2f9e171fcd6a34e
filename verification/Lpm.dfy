/** The kernel's longest-prefix table, as a map from prefixes to zone ids. */
module Lpm {
  import opened Wrappers
  import opened Bitwise

  /** Addresses are 32-bit numbers, most significant byte first on the wire. */
  const ADDR: nat := 0x1_0000_0000

  /** `addr` has its host bits cleared. */
  datatype Prefix = Prefix(len: nat, addr: int)

  type PrefixTable = map<Prefix, nat>

  /** The network part of an address. */
  function Masked(a: nat, len: nat): int
    requires len <= 32
  {
    a - a % Pow2(32 - len)
  }

  predicate Contains(p: Prefix, a: nat) {
    p.len <= 32 && Masked(a, p.len) == p.addr
  }

  /** A prefix with cleared host bits contains the 2^(32 - len) addresses from its own on. */
  lemma ContainsIff(len: nat, addr: nat, a: nat)
    requires len <= 32 && addr % Pow2(32 - len) == 0
    ensures Contains(Prefix(len, addr), a) <==> addr <= a < addr + Pow2(32 - len)
  {
    AlignedBlock(addr, Pow2(32 - len), a);
  }

  lemma AlignedBlock(addr: nat, p: nat, a: nat)
    requires p > 0 && addr % p == 0
    ensures a - a % p == addr <==> addr <= a < addr + p
  {
    if addr <= a < addr + p {
      var q, r := addr / p, a - addr;
      assert addr == p * q;
      ModUnique(a, p, q, r);
    }
  }

  function LookupUpTo(t: PrefixTable, a: nat, len: nat): Option<nat>
    requires len <= 32
  {
    var p := Prefix(len, Masked(a, len));
    if p in t then Some(t[p]) else if len == 0 then None else LookupUpTo(t, a, len - 1)
  }

  /** `bpf_map_lookup_elem` on the table with a full-length key. */
  function Lookup(t: PrefixTable, a: nat): Option<nat> {
    LookupUpTo(t, a, 32)
  }

  /** p is the longest prefix of the table that contains a. */
  ghost predicate Longest(t: PrefixTable, a: nat, p: Prefix) {
    p in t && Contains(p, a) && forall q :: q in t && Contains(q, a) ==> q.len <= p.len
  }

  lemma {:induction false} LookupUpToExact(t: PrefixTable, a: nat, len: nat)
    requires len <= 32
    ensures LookupUpTo(t, a, len).None? <==> forall q :: q in t && Contains(q, a) ==> q.len > len
    ensures LookupUpTo(t, a, len).Some? ==>
              exists p :: p in t && Contains(p, a) && p.len <= len && t[p] == LookupUpTo(t, a, len).value &&
                          forall q :: q in t && Contains(q, a) && q.len <= len ==> q.len <= p.len
  {
    var p := Prefix(len, Masked(a, len));
    if p in t {
      assert Contains(p, a);
    } else if len > 0 {
      LookupUpToExact(t, a, len - 1);
    }
  }

  /** A lookup yields the id of the longest matching prefix, and nothing exactly when none matches. */
  lemma LookupExact(t: PrefixTable, a: nat)
    ensures Lookup(t, a).None? <==> forall q :: q in t ==> !Contains(q, a)
    ensures Lookup(t, a).Some? ==> exists p :: Longest(t, a, p) && t[p] == Lookup(t, a).value
  {
    LookupUpToExact(t, a, 32);
    if Lookup(t, a).Some? {
      var p :| p in t && Contains(p, a) && p.len <= 32 && t[p] == Lookup(t, a).value &&
               forall q :: q in t && Contains(q, a) && q.len <= 32 ==> q.len <= p.len;
      assert Longest(t, a, p);
    }
  }

  /** The empty prefix contains every address. */
  lemma DefaultContainsAll(a: nat)
    requires a < ADDR
    ensures Contains(Prefix(0, 0), a)
  {
    assert Pow2(8) == 256;
    assert Pow2(16) == 0x10000;
    assert Pow2(24) == 0x1000000;
    assert Pow2(32) == ADDR;
  }
}
