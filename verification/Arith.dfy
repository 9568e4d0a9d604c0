/** The integer arithmetic the drivers rely on: bytes, 16-bit wrap-around, remainders and bit masks. */
module Arith {
  type byte = x: int | 0 <= x < 256
  type u16 = x: int | 0 <= x < 0x1_0000
  type u32 = x: int | 0 <= x < 0x1_0000_0000

  /** The upper and the lower byte of a 16-bit register, as they appear at its two byte addresses. */
  function Hi(v: u16): byte { v / 256 }

  function Lo(v: u16): byte { v % 256 }

  function Join(hi: byte, lo: byte): u16 { hi * 256 + lo }

  lemma JoinBack(v: u16)
    ensures Join(Hi(v), Lo(v)) == v
    ensures 256 * Hi(v) + Lo(v) == v
  {
  }

  /** A 16-bit pointer advanced by n, the carry dropped. */
  function Advance(p: u16, n: nat): u16 { (p + n) % 0x1_0000 }

  /** How far the 16-bit pointer `to` is ahead of `from`. */
  function Dist(from: u16, to: u16): u16 { (to - from) % 0x1_0000 }

  lemma AdvanceIs(p: u16, n: nat)
    ensures Advance(p, n) == (p + n) % 0x1_0000
  {
  }

  lemma DistEnd(from: u16, to: u16)
    ensures Advance(from, Dist(from, to)) == to
    ensures to == (from + Dist(from, to)) % 0x1_0000
    ensures Dist(from, from) == 0
  {
  }

  lemma DistShrinks(from: u16, to: u16, k: nat)
    requires k <= Dist(from, to)
    ensures Dist(Advance(from, k), to) == Dist(from, to) - k
  {
  }

  lemma DistGrows(from: u16, to: u16, k: nat)
    requires Dist(from, to) + k < 0x1_0000
    ensures Dist(from, Advance(to, k)) == Dist(from, to) + k
  {
  }

  // ----- remainders by a variable divisor -----

  lemma MulBound(d: int, k: int)
    requires d > 0
    ensures k >= 1 ==> d * k >= d
    ensures k <= -1 ==> d * k <= -d
  {
  }

  lemma SameQuotient(d: int, q: int, r: int, q': int, r': int)
    requires 0 <= r < d && 0 <= r' < d
    requires d * q + r == d * q' + r'
    ensures q == q' && r == r'
  {
    MulBound(d, q - q');
    assert d * (q - q') == d * q - d * q';
  }

  lemma DivModUnique(x: int, d: int, q: int, r: int)
    requires 0 <= r < d && x == d * q + r
    ensures x / d == q && x % d == r
  {
    SameQuotient(d, q, r, x / d, x % d);
  }

  lemma ModShift(x: int, d: int, k: int)
    requires d > 0
    ensures (x + d * k) % d == x % d
  {
    assert x + d * k == d * (x / d + k) + x % d by {
      assert d * (x / d + k) == d * (x / d) + d * k;
    }
    DivModUnique(x + d * k, d, x / d + k, x % d);
  }

  /** Dropping the carry at 65536 is invisible to a ring whose size divides 65536. */
  lemma WrapInvisible(p: int, i: int, size: int)
    requires size > 0 && 0x1_0000 % size == 0
    ensures (p % 0x1_0000 + i) % size == (p + i) % size
  {
    var c, t := 0x1_0000 / size, p / 0x1_0000;
    assert size * c == 0x1_0000;
    assert p % 0x1_0000 == p - 0x1_0000 * t;
    assert size * (c * t) == size * c * t;
    ModShift(p % 0x1_0000 + i, size, c * t);
  }

  /** Two positions less than a ring size apart never share a slot. */
  lemma SlotsDistinct(a: int, b: int, size: int)
    requires size > 0 && a < b < a + size
    ensures a % size != b % size
  {
    if a % size == b % size {
      SameQuotient(size, 0, b - a, b / size - a / size, 0);
    }
  }

  lemma ModAbsorb(a: int, b: int, d: int)
    requires d > 0
    ensures (a % d + b) % d == (a + b) % d
  {
    ModShift(a % d + b, d, a / d);
  }

  // ----- masks -----

  /** Bitwise AND of two non-negative integers. */
  function And(a: nat, b: nat): nat
  {
    if a == 0 || b == 0 then 0
    else (if a % 2 == 1 && b % 2 == 1 then 1 else 0) + 2 * And(a / 2, b / 2)
  }

  /** Bitwise exclusive or. */
  function Xor(a: nat, b: nat): nat
    decreases a + b
  {
    if a == 0 && b == 0 then 0 else (if a % 2 != b % 2 then 1 else 0) + 2 * Xor(a / 2, b / 2)
  }

  /** It has no more bits than its operands. */
  lemma {:induction false} XorBound(a: nat, b: nat, k: nat)
    requires a < Pow2(k) && b < Pow2(k)
    ensures Xor(a, b) < Pow2(k)
    decreases k
  {
    if k > 0 {
      XorBound(a / 2, b / 2, k - 1);
    }
  }

  function Pow2(k: nat): (r: nat)
    ensures r > 0
  {
    if k == 0 then 1 else 2 * Pow2(k - 1)
  }

  lemma ModHalves(p: nat, q: nat)
    requires q > 0
    ensures p % (2 * q) == p % 2 + 2 * ((p / 2) % q)
  {
    var a, b := p / 2 / q, p / 2 % q;
    assert p / 2 == q * a + b;
    assert (2 * q) * a == 2 * (q * a);
    DivModUnique(p, 2 * q, a, 2 * b + p % 2);
  }

  lemma Pow2Step(k: nat)
    ensures Pow2(k) == if k == 0 then 1 else 2 * Pow2(k - 1)
  {
  }

  lemma AndNothing(a: nat, b: nat)
    requires a == 0 || b == 0
    ensures And(a, b) == 0
  {
  }

  lemma AndStep(p: nat, q: nat)
    requires p > 0 && q > 0
    ensures And(p, 2 * q - 1) == p % 2 + 2 * And(p / 2, q - 1)
  {
    assert (2 * q - 1) / 2 == q - 1 && (2 * q - 1) % 2 == 1;
  }

  /** `ptr & (size - 1)` is the remainder by `size` when `size` is a power of two. */
  lemma {:induction false} MaskIsRemainder(p: nat, k: nat)
    ensures And(p, Pow2(k) - 1) == p % Pow2(k)
  {
    hide And, Pow2;
    Pow2Step(k);
    var m := Pow2(k);
    if k == 0 || p == 0 {
      AndNothing(p, m - 1);
      DivModUnique(p, m, if k == 0 then p else 0, 0);
    } else {
      var q := Pow2(k - 1);
      MaskIsRemainder(p / 2, k - 1);
      ModHalves(p, q);
      AndStep(p, q);
      assert m == 2 * q;
    }
  }
}
