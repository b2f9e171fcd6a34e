/** C's bit operators on unsigned integers of any width, bit by bit, and the few laws used here. */
module Bitwise {
  function Pow2(n: nat): (p: nat)
    ensures p > 0
  {
    if n == 0 then 1 else 2 * Pow2(n - 1)
  }

  function Xor(a: nat, b: nat): nat {
    if a == 0 && b == 0 then 0 else 2 * Xor(a / 2, b / 2) + (a % 2 + b % 2) % 2
  }

  function Or(a: nat, b: nat): nat {
    if a == 0 && b == 0 then 0
    else 2 * Or(a / 2, b / 2) + (if a % 2 == 1 || b % 2 == 1 then 1 else 0)
  }

  function And(a: nat, b: nat): nat {
    if a == 0 || b == 0 then 0
    else 2 * And(a / 2, b / 2) + (if a % 2 == 1 && b % 2 == 1 then 1 else 0)
  }

  /** The low n bits of x. */
  function Low(x: nat, n: nat): nat {
    if n == 0 then 0 else 2 * Low(x / 2, n - 1) + x % 2
  }

  /** The low n bits are the remainder modulo 2^n. */
  lemma {:induction false} LowIsMod(x: nat, n: nat)
    ensures Low(x, n) == x % Pow2(n)
  {
    if n > 0 {
      LowIsMod(x / 2, n - 1);
      HalveMod(x, Pow2(n - 1));
    }
  }

  lemma HalveMod(x: nat, p: nat)
    requires p > 0
    ensures x % (2 * p) == 2 * ((x / 2) % p) + x % 2
  {
    var q, r := x / 2 / p, (x / 2) % p;
    assert x == (2 * p) * q + (2 * r + x % 2);
    ModUnique(x, 2 * p, q, 2 * r + x % 2);
  }

  lemma ModUnique(x: nat, m: nat, q: nat, r: nat)
    requires m > 0 && x == m * q + r && r < m
    ensures x % m == r && x / m == q
  {
    var d := x / m - q;
    assert m * d == r - x % m;
    Multiple(m, d);
  }

  /** A multiple of m other than zero is at least m away from zero. */
  lemma Multiple(m: nat, d: int)
    ensures d >= 1 ==> m * d >= m
    ensures d <= -1 ==> m * d + m <= 0
  {}

  lemma {:induction false} XorBound(a: nat, b: nat, n: nat)
    requires a < Pow2(n) && b < Pow2(n)
    ensures Xor(a, b) < Pow2(n)
  {
    if n > 0 && !(a == 0 && b == 0) {
      XorBound(a / 2, b / 2, n - 1);
    }
  }

  /** Xor, one binary digit at a time. */
  lemma XorDigits(a: nat, i: nat, b: nat, j: nat)
    requires i < 2 && j < 2
    ensures Xor(2 * a + i, 2 * b + j) == 2 * Xor(a, b) + (i + j) % 2
  {
    assert (2 * a + i) / 2 == a && (2 * b + j) / 2 == b;
  }

  lemma DigitCancels(i: nat, j: nat)
    requires i < 2 && j < 2
    ensures (i + (i + j) % 2) % 2 == j
  {}

  lemma CancelDigits(a: nat, i: nat, b: nat, j: nat)
    requires i < 2 && j < 2 && Xor(a, Xor(a, b)) == b
    ensures Xor(2 * a + i, Xor(2 * a + i, 2 * b + j)) == 2 * b + j
  {
    var x, k := Xor(a, b), (i + j) % 2;
    assert Xor(2 * a + i, 2 * b + j) == 2 * x + k by { XorDigits(a, i, b, j); }
    assert Xor(2 * a + i, 2 * x + k) == 2 * Xor(a, x) + (i + k) % 2 by { XorDigits(a, i, x, k); }
    assert (i + k) % 2 == j by { DigitCancels(i, j); }
  }

  /** Xor is its own inverse. */
  lemma {:induction false} XorCancels(a: nat, b: nat)
    ensures Xor(a, Xor(a, b)) == b
    decreases a + b
  {
    if !(a == 0 && b == 0) {
      XorCancels(a / 2, b / 2);
      CancelDigits(a / 2, a % 2, b / 2, b % 2);
    }
  }

  lemma {:induction false} XorCommutes(a: nat, b: nat)
    ensures Xor(a, b) == Xor(b, a)
    decreases a + b
  {
    if !(a == 0 && b == 0) { XorCommutes(a / 2, b / 2); }
  }

  lemma {:induction false} XorLowBits(a: nat, b: nat, n: nat)
    ensures Low(Xor(a, b), n) == Xor(Low(a, n), Low(b, n))
  {
    if n > 0 {
      var a', i, b', j := a / 2, a % 2, b / 2, b % 2;
      var k, la, lb := (i + j) % 2, Low(a', n - 1), Low(b', n - 1);
      calc {
        Low(Xor(a, b), n);
        { assert a == 2 * a' + i && b == 2 * b' + j; XorDigits(a', i, b', j); }
        Low(2 * Xor(a', b') + k, n);
        { LowDigits(Xor(a', b'), k, n); }
        2 * Low(Xor(a', b'), n - 1) + k;
        { XorLowBits(a', b', n - 1); }
        2 * Xor(la, lb) + k;
        { XorDigits(la, i, lb, j); }
        Xor(2 * la + i, 2 * lb + j);
        Xor(Low(a, n), Low(b, n));
      }
    }
  }

  lemma LowDigits(x: nat, i: nat, n: nat)
    requires i < 2 && n > 0
    ensures Low(2 * x + i, n) == 2 * Low(x, n - 1) + i
  {
    assert (2 * x + i) / 2 == x;
  }

  /** The low n bits of a xor are the xor of the low n bits. */
  lemma XorLow(a: nat, b: nat, n: nat)
    ensures Xor(a, b) % Pow2(n) == Xor(a % Pow2(n), b % Pow2(n))
  {
    XorLowBits(a, b, n);
    LowIsMod(a, n); LowIsMod(b, n); LowIsMod(Xor(a, b), n);
  }

  /** Bit p of w. */
  predicate BitAt(w: nat, p: nat) {
    if p == 0 then w % 2 == 1 else BitAt(w / 2, p - 1)
  }

  lemma {:induction false} ZeroHasNoBit(p: nat)
    ensures !BitAt(0, p)
  {
    if p > 0 { ZeroHasNoBit(p - 1); }
  }

  lemma OrHalves(a: nat, b: nat)
    requires a > 0 || b > 0
    ensures Or(a, b) / 2 == Or(a / 2, b / 2)
    ensures Or(a, b) % 2 == 1 <==> a % 2 == 1 || b % 2 == 1
  {}

  lemma BitHalves(w: nat, h: nat, p: nat)
    requires p > 0 && h == w / 2
    ensures BitAt(w, p) <==> BitAt(h, p - 1)
  {}

  lemma {:induction false} OrBit(a: nat, b: nat, p: nat)
    ensures BitAt(Or(a, b), p) <==> BitAt(a, p) || BitAt(b, p)
  {
    if a == 0 && b == 0 {
      ZeroHasNoBit(p);
    } else {
      OrHalves(a, b);
      if p > 0 {
        OrBit(a / 2, b / 2, p - 1);
        BitHalves(Or(a, b), Or(a / 2, b / 2), p);
      }
    }
  }

  lemma {:induction false} PowerBit(q: nat, p: nat)
    ensures BitAt(Pow2(q), p) <==> p == q
  {
    if q == 0 && p > 0 {
      ZeroHasNoBit(p - 1);
    } else if q > 0 && p > 0 {
      PowerBit(q - 1, p - 1);
    }
  }

  /** `w & (1 << p)` is non-zero exactly when bit p of w is set. */
  lemma {:induction false} MaskTestsBit(w: nat, p: nat)
    ensures And(w, Pow2(p)) != 0 <==> BitAt(w, p)
  {
    if w == 0 {
      ZeroHasNoBit(p);
    } else if p == 0 {
      assert And(w / 2, 0) == 0;
    } else {
      MaskTestsBit(w / 2, p - 1);
    }
  }
}
