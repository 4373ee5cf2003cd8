/** Integer and bit-level helpers shared by every part of the model.
    Python's integers are unbounded, so the model works on `nat` and writes
    Python's `|`, `&`, `<<` and `>>` out as functions on naturals. */
module Bits {

  /** One byte of a `bytes`/`bytearray` object. */
  newtype byte = x: int | 0 <= x < 256

  function Pow2(n: nat): (r: nat)
    ensures r >= 1
  {
    if n == 0 then 1 else 2 * Pow2(n - 1)
  }

  /** Python `a >> n` on a non-negative integer. */
  function Shr(a: nat, n: nat): nat
  {
    DivNonNegative(a, Pow2(n));
    a / Pow2(n)
  }

  /** Python `a << n`. */
  function Shl(a: nat, n: nat): nat
  {
    a * Pow2(n)
  }

  /** Python `a | b` on non-negative integers, bit by bit from the bottom. */
  function Or(a: nat, b: nat): nat
    decreases a + b
  {
    if a == 0 then b
    else if b == 0 then a
    else 2 * Or(a / 2, b / 2) + (if a % 2 == 1 || b % 2 == 1 then 1 else 0)
  }

  /** Python `a & b` on non-negative integers. */
  function And(a: nat, b: nat): nat
    decreases a + b
  {
    if a == 0 || b == 0 then 0
    else 2 * And(a / 2, b / 2) + (if a % 2 == 1 && b % 2 == 1 then 1 else 0)
  }

  /** Bit `i` of `a`, as 0 or 1. */
  function Bit(a: nat, i: nat): nat
  {
    (a / Pow2(i)) % 2
  }

  /** Number of bits needed to write `a` (0 for 0). */
  function BitLength(a: nat): nat
  {
    if a == 0 then 0 else 1 + BitLength(a / 2)
  }

  // ---------------------------------------------------------------------
  // Division facts

  lemma DivNonNegative(a: nat, d: nat)
    requires d > 0
    ensures a / d >= 0
  {
  }

  lemma MulAtLeast(k: int, d: int)
    requires k >= 1 && d > 0
    ensures k * d >= d
    decreases k
  {
    if k > 1 {
      MulAtLeast(k - 1, d);
      assert k * d == (k - 1) * d + d;
    }
  }

  lemma MulTwice(q: int, p: int)
    ensures q * (2 * p) == 2 * (q * p)
  {
  }

  lemma DivModUnique(n: int, d: int, q: int, r: int)
    requires d > 0 && 0 <= r < d && n == q * d + r
    ensures n / d == q && n % d == r
  {
    var q', r' := n / d, n % d;
    assert n == q' * d + r';
    if q' > q {
      assert (q' - q) * d == r - r';
      MulAtLeast(q' - q, d);
    } else if q' < q {
      assert (q - q') * d == r' - r;
      MulAtLeast(q - q', d);
    }
  }

  lemma Pow2Add(a: nat, b: nat)
    ensures Pow2(a + b) == Pow2(a) * Pow2(b)
  {
    if a > 0 {
      Pow2Add(a - 1, b);
    }
  }

  lemma Pow2Monotone(a: nat, b: nat)
    requires a <= b
    ensures Pow2(a) <= Pow2(b)
  {
    if a < b {
      Pow2Monotone(a, b - 1);
    }
  }

  lemma DivDiv(n: nat, d1: nat, d2: nat)
    requires d1 > 0 && d2 > 0
    ensures n / d1 / d2 == n / (d1 * d2)
  {
    var q, r1, r0 := MixedRadix(n, d1, d2);
  }

  /** (n / a) % b == (n % (a * b)) / a: both are the middle digit of n in the
      mixed radix (a, b). */
  lemma ModDivSwap(n: nat, a: nat, b: nat)
    requires a > 0 && b > 0
    ensures (n / a) % b == (n % (a * b)) / a
  {
    var q, r1, r0 := MixedRadix(n, a, b);
  }

  /** n written as (q * d2 + r1) * d1 + r0 with r1 < d2 and r0 < d1: q and r1
      are the quotient and remainder of n / d1 by d2, and r1 and r0 those of
      n % (d1 * d2) by d1. */
  lemma MixedRadix(n: nat, d1: nat, d2: nat) returns (q: nat, r1: nat, r0: nat)
    requires d1 > 0 && d2 > 0
    ensures n / d1 / d2 == q && (n / d1) % d2 == r1
    ensures n / (d1 * d2) == q && (n % (d1 * d2)) / d1 == r1
  {
    var d := d1 * d2;
    MulLe(1, d2, d1);
    var r;
    q, r := Divide(n, d);
    r1, r0 := Divide(r, d1);
    if r1 >= d2 {
      MulLe(d2, r1, d1);
    }
    assert q * d == (q * d2) * d1;
    DivModUnique(n, d, q, r);
    DivModUnique(r, d1, r1, r0);
    DivModUnique(n, d1, q * d2 + r1, r0);
    DivModUnique(n / d1, d2, q, r1);
  }

  /** Division of a by b > 0, with the quotient and remainder named. */
  lemma Divide(a: nat, b: nat) returns (q: nat, r: nat)
    requires b > 0
    ensures a == q * b + r && r < b
  {
    q, r := a / b, a % b;
  }

  lemma MulLe(a: nat, b: nat, c: nat)
    requires a <= b
    ensures a * c <= b * c
  {
  }

  lemma ShrShr(a: nat, m: nat, n: nat)
    ensures Shr(Shr(a, m), n) == Shr(a, m + n)
  {
    Pow2Add(m, n);
    DivDiv(a, Pow2(m), Pow2(n));
  }

  /** x % (2 * p) splits into the low bit and the rest. */
  lemma ModDouble(x: nat, p: nat)
    requires p > 0
    ensures x % (2 * p) == 2 * ((x / 2) % p) + x % 2
  {
    var q, r := (x / 2) / p, (x / 2) % p;
    assert x / 2 == q * p + r;
    assert x == q * (2 * p) + (2 * r + x % 2);
    DivModUnique(x, 2 * p, q, 2 * r + x % 2);
  }

  // ---------------------------------------------------------------------
  // Facts about Or and And

  lemma OrZero(a: nat)
    ensures Or(a, 0) == a && Or(0, a) == a
  {
  }

  /** The defining recursion of Or holds unconditionally. */
  lemma OrStep(a: nat, b: nat)
    ensures Or(a, b) == 2 * Or(a / 2, b / 2) + (if a % 2 == 1 || b % 2 == 1 then 1 else 0)
  {
    if a == 0 {
      assert Or(a / 2, b / 2) == b / 2;
    } else if b == 0 {
      assert Or(a / 2, b / 2) == a / 2;
    }
  }

  lemma AndStep(a: nat, b: nat)
    ensures And(a, b) == 2 * And(a / 2, b / 2) + (if a % 2 == 1 && b % 2 == 1 then 1 else 0)
  {
  }

  lemma BitHalf(a: nat, i: nat)
    ensures Bit(a / 2, i) == Bit(a, i + 1)
  {
    DivDiv(a, 2, Pow2(i));
  }

  /** The low bit and the rest of x = 2h + c. */
  lemma BitLow(x: nat, h: nat, c: nat)
    requires c < 2 && x == 2 * h + c
    ensures Bit(x, 0) == c && x / 2 == h
  {
    DivModUnique(x, 2, h, c);
  }

  lemma {:induction false} OrBit(a: nat, b: nat, i: nat)
    ensures Bit(Or(a, b), i) == (if Bit(a, i) == 1 || Bit(b, i) == 1 then 1 else 0)
    decreases i
  {
    OrStep(a, b);
    BitLow(Or(a, b), Or(a / 2, b / 2), if a % 2 == 1 || b % 2 == 1 then 1 else 0);
    BitLow(a, a / 2, a % 2);
    BitLow(b, b / 2, b % 2);
    if i > 0 {
      OrBit(a / 2, b / 2, i - 1);
      BitHalf(Or(a, b), i - 1);
      BitHalf(a, i - 1);
      BitHalf(b, i - 1);
    }
  }

  lemma {:induction false} AndBit(a: nat, b: nat, i: nat)
    ensures Bit(And(a, b), i) == (if Bit(a, i) == 1 && Bit(b, i) == 1 then 1 else 0)
    decreases i
  {
    AndStep(a, b);
    BitLow(And(a, b), And(a / 2, b / 2), if a % 2 == 1 && b % 2 == 1 then 1 else 0);
    BitLow(a, a / 2, a % 2);
    BitLow(b, b / 2, b % 2);
    if i > 0 {
      AndBit(a / 2, b / 2, i - 1);
      BitHalf(And(a, b), i - 1);
      BitHalf(a, i - 1);
      BitHalf(b, i - 1);
    }
  }

  /** Two naturals with the same bits are equal. */
  lemma {:induction false} BitExtensionality(a: nat, b: nat)
    requires forall i: nat :: Bit(a, i) == Bit(b, i)
    ensures a == b
    decreases a + b
  {
    if a != 0 || b != 0 {
      assert Bit(a, 0) == Bit(b, 0);
      forall i: nat ensures Bit(a / 2, i) == Bit(b / 2, i) {
        BitHalf(a, i);
        BitHalf(b, i);
        assert Bit(a, i + 1) == Bit(b, i + 1);
      }
      BitExtensionality(a / 2, b / 2);
    }
  }

  lemma BitShr(a: nat, n: nat, i: nat)
    ensures Bit(Shr(a, n), i) == Bit(a, i + n)
  {
    Pow2Add(n, i);
    DivDiv(a, Pow2(n), Pow2(i));
  }

  /** Bits of a value below 2^n vanish from position n on. */
  lemma BitAbove(a: nat, n: nat, i: nat)
    requires a < Pow2(n) && n <= i
    ensures Bit(a, i) == 0
  {
    Pow2Monotone(n, i);
    DivModUnique(a, Pow2(i), 0, a);
  }

  lemma {:induction false} BitMod(a: nat, n: nat, i: nat)
    ensures Bit(a % Pow2(n), i) == if i < n then Bit(a, i) else 0
    decreases n
  {
    if i >= n {
      BitAbove(a % Pow2(n), n, i);
    } else {
      assert Pow2(n) == 2 * Pow2(n - 1);
      ModDouble(a, Pow2(n - 1));
      var m := a % Pow2(n);
      BitLow(m, (a / 2) % Pow2(n - 1), a % 2);
      BitLow(a, a / 2, a % 2);
      if i > 0 {
        BitHalf(m, i - 1);
        BitMod(a / 2, n - 1, i - 1);
        BitHalf(a, i - 1);
      }
    }
  }

  /** Bits of 2^n - 1: ones below n, zeros from n on. */
  lemma {:induction false} BitLowMask(n: nat, i: nat)
    ensures Bit(Pow2(n) - 1, i) == if i < n then 1 else 0
    decreases n
  {
    if i >= n {
      BitAbove(Pow2(n) - 1, n, i);
    } else {
      var p := Pow2(n - 1);
      assert Pow2(n) - 1 == 2 * (p - 1) + 1;
      BitLow(Pow2(n) - 1, p - 1, 1);
      if i > 0 {
        BitHalf(Pow2(n) - 1, i - 1);
        BitLowMask(n - 1, i - 1);
      }
    }
  }

  /** x & (2^n - 1) == x % 2^n. */
  lemma AndLowMask(x: nat, n: nat)
    ensures And(x, Pow2(n) - 1) == x % Pow2(n)
  {
    var m: nat := Pow2(n) - 1;
    var y := x % Pow2(n);
    forall i: nat ensures Bit(And(x, m), i) == Bit(y, i) {
      AndBit(x, m, i);
      BitLowMask(n, i);
      BitMod(x, n, i);
    }
    BitExtensionality(And(x, m), y);
  }

  /** Or of numbers below 2^n stays below 2^n. */
  lemma {:induction false} OrBelow(a: nat, b: nat, n: nat)
    requires a < Pow2(n) && b < Pow2(n)
    ensures Or(a, b) < Pow2(n)
    decreases n
  {
    OrStep(a, b);
    if n > 0 && (a != 0 || b != 0) {
      OrBelow(a / 2, b / 2, n - 1);
    }
  }

  lemma {:induction false} OrAtLeast(a: nat, b: nat)
    ensures Or(a, b) >= a && Or(a, b) >= b
    decreases a + b
  {
    if a != 0 && b != 0 {
      OrAtLeast(a / 2, b / 2);
    }
  }

  /** Or with a low part that does not overlap the high part is addition. */
  lemma OrDisjoint(h: nat, l: nat, n: nat)
    requires l < Pow2(n)
    ensures Or(h * Pow2(n), l) == h * Pow2(n) + l
  {
    var a := h * Pow2(n);
    forall i: nat ensures Bit(Or(a, l), i) == Bit(a + l, i) {
      OrBit(a, l, i);
      DivModUnique(a + l, Pow2(n), h, l);
      DivModUnique(a, Pow2(n), h, 0);
      assert (a + l) % Pow2(n) == l;
      assert a % Pow2(n) == 0;
      BitMod(a + l, n, i);
      BitMod(a, n, i);
      if i >= n {
        BitAbove(l, n, i);
        var k: nat := i - n;
        BitShr(a + l, n, k);
        BitShr(a, n, k);
        assert Shr(a + l, n) == h && Shr(a, n) == h;
      } else {
        assert Bit(a % Pow2(n), i) == 0;
        assert Bit((a + l) % Pow2(n), i) == Bit(l, i);
      }
    }
    BitExtensionality(Or(a, l), a + l);
  }

  lemma MulComm3(x: int, p: int, q: int)
    ensures x * (p * q) == (x * q) * p
  {
  }

  lemma ShlBelow(x: nat, i: nat, j: nat)
    ensures (x * Pow2(i + j)) / Pow2(i) == x * Pow2(j)
  {
    Pow2Add(i, j);
    MulComm3(x, Pow2(i), Pow2(j));
    DivModUnique(x * Pow2(i + j), Pow2(i), x * Pow2(j), 0);
  }

  lemma EvenMul(x: nat, j: nat)
    requires j >= 1
    ensures (x * Pow2(j)) % 2 == 0
  {
    var h := Pow2(j - 1);
    assert Pow2(j) == 2 * h;
    MulComm3(x, 2, h);
    DivModUnique(x * Pow2(j), 2, x * h, 0);
  }

  lemma BitShl(x: nat, k: nat, i: nat)
    ensures Bit(x * Pow2(k), i) == if i < k then 0 else Bit(x, i - k)
  {
    if i < k {
      ShlBelow(x, i, k - i);
      EvenMul(x, k - i);
    } else {
      DivModUnique(x * Pow2(k), Pow2(k), x, 0);
      DivDiv(x * Pow2(k), Pow2(k), Pow2(i - k));
      Pow2Add(k, i - k);
    }
  }

  /** `a & ((2^n - 1) << k)` keeps bits k .. k+n-1 of a in place. */
  lemma AndShiftedMask(a: nat, n: nat, k: nat)
    ensures And(a, (Pow2(n) - 1) * Pow2(k)) == ((a / Pow2(k)) % Pow2(n)) * Pow2(k)
  {
    var m: nat := (Pow2(n) - 1) * Pow2(k);
    var f: nat := (a / Pow2(k)) % Pow2(n);
    forall i: nat ensures Bit(And(a, m), i) == Bit(f * Pow2(k), i) {
      AndShiftedMaskBit(a, n, k, i, m, f);
    }
    BitExtensionality(And(a, m), f * Pow2(k));
  }

  lemma AndShiftedMaskBit(a: nat, n: nat, k: nat, i: nat, m: nat, f: nat)
    requires m == (Pow2(n) - 1) * Pow2(k) && f == (a / Pow2(k)) % Pow2(n)
    ensures Bit(And(a, m), i) == Bit(f * Pow2(k), i)
  {
    AndBit(a, m, i);
    BitShl(Pow2(n) - 1, k, i);
    BitShl(f, k, i);
    if i >= k {
      BitLowMask(n, i - k);
      BitMod(Shr(a, k), n, i - k);
      BitShr(a, k, i - k);
    }
  }

  /** Or with 2^n - 1 keeps the high part and fills the low n bits. */
  lemma OrLowMask(x: nat, n: nat)
    ensures Or(x, Pow2(n) - 1) == (x / Pow2(n)) * Pow2(n) + Pow2(n) - 1
  {
    var m: nat, q := Pow2(n) - 1, Shr(x, n);
    OrDisjoint(q, m, n);
    forall i: nat ensures Bit(Or(x, m), i) == Bit(Or(q * Pow2(n), m), i) {
      OrBit(x, m, i);
      OrBit(q * Pow2(n), m, i);
      BitLowMask(n, i);
      BitShl(q, n, i);
      if i >= n {
        BitShr(x, n, i - n);
      }
    }
    BitExtensionality(Or(x, m), Or(q * Pow2(n), m));
  }

  lemma BitLengthBounds(a: nat)
    requires a >= 1
    ensures BitLength(a) >= 1
    ensures Pow2(BitLength(a) - 1) <= a < Pow2(BitLength(a))
  {
    if a >= 2 {
      BitLengthBounds(a / 2);
    }
  }

  lemma BitLengthBelow(a: nat, n: nat)
    requires a < Pow2(n)
    ensures BitLength(a) <= n
  {
    if a >= 1 {
      BitLengthBounds(a);
      if BitLength(a) > n {
        Pow2Monotone(n, BitLength(a) - 1);
      }
    }
  }

  // ---------------------------------------------------------------------
  // Little-endian integers in byte sequences

  /** The `n`-byte little-endian unsigned integer at `off`. */
  function LeUint(s: seq<byte>, off: nat, n: nat): (v: nat)
    requires off + n <= |s|
    ensures v < Pow2(8 * n)
    decreases n
  {
    if n == 0 then 0
    else
      var rest := LeUint(s, off + 1, n - 1);
      assert Pow2(8 * n) == 256 * Pow2(8 * (n - 1)) by {
        Pow2Add(8, 8 * (n - 1));
      }
      s[off] as nat + 256 * rest
  }

  /** An integer of n + m bytes is its low n bytes plus its high m bytes
      shifted up by 8n bits. */
  lemma {:induction false} LeUintSplit(s: seq<byte>, off: nat, n: nat, m: nat)
    requires off + n + m <= |s|
    ensures LeUint(s, off, n + m) == LeUint(s, off, n) + Pow2(8 * n) * LeUint(s, off + n, m)
    decreases n
  {
    if n > 0 {
      LeUintSplit(s, off + 1, n - 1, m);
      SplitStep(s, off, n, m);
    }
  }

  /** The step of LeUintSplit: one more low byte on both sides. */
  lemma SplitStep(s: seq<byte>, off: nat, n: nat, m: nat)
    requires off + n + m <= |s| && n > 0
    requires LeUint(s, off + 1, n - 1 + m) == LeUint(s, off + 1, n - 1) + Pow2(8 * (n - 1)) * LeUint(s, off + n, m)
    ensures LeUint(s, off, n + m) == LeUint(s, off, n) + Pow2(8 * n) * LeUint(s, off + n, m)
  {
    LeUintHead(s, off, n + m, n - 1 + m);
    LeUintHead(s, off, n, n - 1);
    Pow2Byte(n, n - 1);
    ShiftByteIn(LeUint(s, off, n + m), LeUint(s, off + 1, n - 1 + m), LeUint(s, off, n), Pow2(8 * n),
                Pow2(8 * (n - 1)), s[off] as nat, LeUint(s, off + 1, n - 1), LeUint(s, off + n, m));
  }

  lemma LeUintHead(s: seq<byte>, off: nat, n: nat, k: nat)
    requires off + n <= |s| && n == k + 1
    ensures LeUint(s, off, n) == s[off] as nat + 256 * LeUint(s, off + 1, k)
  {
  }

  lemma Pow2Byte(n: nat, k: nat)
    requires n == k + 1
    ensures Pow2(8 * n) == 256 * Pow2(8 * k)
  {
    Pow2Add(8, 8 * k);
    assert 8 * n == 8 + 8 * k;
  }

  lemma ShiftByteIn(a: nat, whole: nat, b: nat, pn: nat, p: nat, x: nat, lo: nat, hi: nat)
    requires a == x + 256 * whole && whole == lo + p * hi
    requires b == x + 256 * lo && pn == 256 * p
    ensures a == b + pn * hi
  {
  }

  /** The 3-bit field at bit k of a value below 2^n is untouched by
      whatever lies above bit n, as long as the field ends below bit n. */
  lemma ShrLowField(a: nat, b: nat, k: nat, n: nat)
    requires a < Pow2(n) && k + 3 <= n
    ensures Shr(a + Pow2(n) * b, k) % 8 == Shr(a, k) % 8
  {
    var pk, c := Pow2(k), Pow2(n - k - 3) * b;
    HighPart(b, k, n);
    DivAddMultiple(a, c * 8, pk);
    DivAddMultiple(Shr(a, k), c, 8);
  }

  lemma HighPart(b: nat, k: nat, n: nat)
    requires k + 3 <= n
    ensures Pow2(n) * b == ((Pow2(n - k - 3) * b) * 8) * Pow2(k)
  {
    var r := Pow2(n - k - 3);
    Pow2Add(k, n - k);
    Pow2Add(3, n - k - 3);
    assert Pow2(3) == 8;
    assert Pow2(n) == Pow2(k) * (8 * r);
    Reassociate(Pow2(k), r, b);
  }

  lemma Reassociate(p: nat, r: nat, b: nat)
    ensures (p * (8 * r)) * b == ((r * b) * 8) * p
  {
  }

  /** Adding a multiple of d moves the quotient by that multiple and keeps
      the remainder. */
  lemma DivAddMultiple(a: nat, h: nat, d: nat)
    requires d > 0
    ensures (a + h * d) / d == a / d + h && (a + h * d) % d == a % d
  {
    MulDist(a / d, h, d);
    DivModUnique(a + h * d, d, a / d + h, a % d);
  }

  lemma MulDist(a: nat, b: nat, c: nat)
    ensures (a + b) * c == a * c + b * c
  {
  }

  /** A signed two's-complement integer of `bits` bits from its unsigned form. */
  function Signed(v: nat, bits: nat): int
    requires bits >= 1
  {
    if v >= Pow2(bits - 1) then v - Pow2(bits) else v
  }
}
