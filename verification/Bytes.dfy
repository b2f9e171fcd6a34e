/** Bytes and the multi-byte integers made of them. */
module Bytes {
  type Byte = b: nat | b < 256

  function Join2(a: nat, b: nat): nat {
    a * 0x100 + b
  }

  function Join4(a: nat, b: nat, c: nat, d: nat): nat {
    Join2(a, b) * 0x10000 + Join2(c, d)
  }

  /** Most significant byte first. */
  function Split2(x: nat): (b: seq<Byte>)
    requires x < 0x10000
    ensures |b| == 2 && Join2(b[0], b[1]) == x
  {
    [x / 0x100, x % 0x100]
  }

  function Split4(x: nat): (b: seq<Byte>)
    requires x < 0x1_0000_0000
    ensures |b| == 4 && Join4(b[0], b[1], b[2], b[3]) == x
  {
    Split2(x / 0x10000) + Split2(x % 0x10000)
  }

  /** A 32-bit load in the machine's own byte order. */
  function Native32(b: seq<Byte>, little: bool): nat
    requires |b| == 4
  {
    if little then Join4(b[3], b[2], b[1], b[0]) else Join4(b[0], b[1], b[2], b[3])
  }

  /** How the machine stores a 32-bit value. */
  function Bytes32(x: nat, little: bool): (b: seq<Byte>)
    requires x < 0x1_0000_0000
    ensures |b| == 4 && Native32(b, little) == x
  {
    var big := Split4(x);
    if little then [big[3], big[2], big[1], big[0]] else big
  }

  lemma Join2Injective(a: Byte, b: Byte, w: Byte, x: Byte)
    ensures Join2(a, b) < 0x10000
    ensures Join2(a, b) == Join2(w, x) <==> a == w && b == x
  {}

  lemma HalvesInjective(p: nat, q: nat, r: nat, s: nat)
    requires q < 0x10000 && s < 0x10000
    ensures p * 0x10000 + q == r * 0x10000 + s <==> p == r && q == s
  {}

  /** Bytes can be read back from the number they make. */
  lemma Join4Injective(a: Byte, b: Byte, c: Byte, d: Byte, w: Byte, x: Byte, y: Byte, z: Byte)
    ensures Join4(a, b, c, d) == Join4(w, x, y, z) <==> a == w && b == x && c == y && d == z
  {
    Join2Injective(a, b, w, x);
    Join2Injective(c, d, y, z);
    Join2Injective(y, z, c, d);
    HalvesInjective(Join2(a, b), Join2(c, d), Join2(w, x), Join2(y, z));
  }
}
