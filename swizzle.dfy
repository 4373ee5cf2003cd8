/** The deswizzle engine: rounding helpers, the Tegra block-linear ("GOB")
    address computation and the copy from a tiled surface to linear order. */
module Swizzle {
  import opened Bits

  /** DIV_ROUND_UP: the ceiling of n / d. */
  function DivRoundUp(n: nat, d: nat): (q: nat)
    requires d > 0
  {
    (n + d - 1) / d
  }

  /** DIV_ROUND_UP(n, d) is the least q with q * d >= n. */
  lemma DivRoundUpIsCeiling(n: nat, d: nat)
    requires d > 0
    ensures DivRoundUp(n, d) * d >= n
    ensures forall q: nat :: q * d >= n ==> q >= DivRoundUp(n, d)
  {
    var c := DivRoundUp(n, d);
    var r := (n + d - 1) % d;
    assert n + d - 1 == c * d + r;
    forall q: nat | q * d >= n ensures q >= c {
      if q < c {
        MulAtLeast(c - q, d);
      }
    }
  }

  /** round_up(x, y) = ((x - 1) | (y - 1)) + 1.  For x = 0 Python computes
      (-1 | (y - 1)) + 1 = -1 + 1 = 0, which the first branch writes out. */
  function RoundUp(x: nat, y: nat): nat
    requires y >= 1
  {
    if x == 0 then 0 else Or(x - 1, y - 1) + 1
  }

  /** For a power-of-two y, round_up(x, y) is the least multiple of y that is >= x. */
  lemma RoundUpIsLeastMultiple(x: nat, k: nat)
    ensures RoundUp(x, Pow2(k)) % Pow2(k) == 0
    ensures x <= RoundUp(x, Pow2(k)) < x + Pow2(k)
  {
    if x > 0 {
      RoundUpPositive(x, k, Pow2(k));
    }
  }

  lemma RoundUpPositive(x: nat, k: nat, p: nat)
    requires x > 0 && p == Pow2(k)
    ensures RoundUp(x, p) % p == 0 && x <= RoundUp(x, p) < x + p
  {
    RoundUpValue(x, k, p);
    NextMultiple(x, p, RoundUp(x, p));
  }

  lemma RoundUpValue(x: nat, k: nat, p: nat)
    requires x > 0 && p == Pow2(k)
    ensures RoundUp(x, p) == (x - 1) / p * p + p
  {
    OrLowMask(x - 1, k);
  }

  /** The multiple of p just above x - 1. */
  lemma NextMultiple(x: nat, p: nat, r: nat)
    requires x > 0 && p > 0 && r == (x - 1) / p * p + p
    ensures r % p == 0 && x <= r < x + p
  {
    var q := (x - 1) / p;
    var qp := q * p;
    MulSucc(q, p);
    DivModUnique(qp + p, p, q + 1, 0);
    DivModSplit(x - 1, p);
  }

  lemma DivModSplit(n: nat, d: nat)
    requires d > 0
    ensures n == (n / d) * d + n % d && n % d < d
  {
  }

  lemma MulSucc(q: int, p: int)
    ensures (q + 1) * p == q * p + p
  {
  }

  lemma RoundUpAtLeast(x: nat, k: nat)
    ensures RoundUp(x, Pow2(k)) >= x
  {
    RoundUpIsLeastMultiple(x, k);
  }

  // ---------------------------------------------------------------------
  // pow2_round_up

  /** The least power of two that is >= x, for x >= 1. */
  function LeastPow2AtLeast(x: nat): nat
    requires x >= 1
  {
    Pow2(BitLength(x - 1))
  }

  lemma LeastPow2AtLeastIsLeast(x: nat)
    requires x >= 1
    ensures LeastPow2AtLeast(x) >= x
    ensures forall j: nat :: Pow2(j) >= x ==> Pow2(j) >= LeastPow2AtLeast(x)
  {
    var m := x - 1;
    var l := BitLength(m);
    if m >= 1 {
      BitLengthBounds(m);
      forall j: nat | Pow2(j) >= x ensures Pow2(j) >= Pow2(l) {
        if j < l {
          Pow2Monotone(j, l - 1);
        } else {
          Pow2Monotone(l, j);
        }
      }
    } else {
      forall j: nat | Pow2(j) >= x ensures Pow2(j) >= Pow2(l) {
      }
    }
  }

  function Min(a: nat, b: nat): nat
  {
    if a <= b then a else b
  }

  /** The top t of the l low bits of s are ones, and s < 2^l. */
  ghost predicate TopFilled(s: nat, l: nat, t: nat)
  {
    t <= l && s < Pow2(l) && forall i: nat :: l - t <= i < l ==> Bit(s, i) == 1
  }

  /** One step `x |= x >> c` of pow2_round_up widens the run of top ones by c. */
  lemma SmearStep(s: nat, l: nat, t: nat, c: nat)
    requires TopFilled(s, l, t)
    requires c <= t || t == l
    ensures TopFilled(Or(s, Shr(s, c)), l, Min(t + c, l))
  {
    var s' := Or(s, Shr(s, c));
    var t' := if t + c <= l then t + c else l;
    assert Min(t + c, l) == t';
    assert Shr(s, c) <= s;
    OrBelow(s, Shr(s, c), l);
    forall i: nat | l - t' <= i < l ensures Bit(s', i) == 1 {
      SmearBit(s, l, t, c, i);
    }
  }

  /** Bit i of `x | x >> c` is set if bit i or bit i + c of x is, which
      covers the widened run. */
  lemma SmearBit(s: nat, l: nat, t: nat, c: nat, i: nat)
    requires TopFilled(s, l, t)
    requires c <= t || t == l
    requires l - Min(t + c, l) <= i < l
    ensures Bit(Or(s, Shr(s, c)), i) == 1
  {
    OrBit(s, Shr(s, c), i);
    BitShr(s, c, i);
    if i < l - t {
      assert l - t <= i + c < l;
    }
  }

  lemma FilledIsAllOnes(s: nat, l: nat)
    requires TopFilled(s, l, l)
    ensures s == Pow2(l) - 1
  {
    forall i: nat ensures Bit(s, i) == Bit(Pow2(l) - 1, i) {
      BitLowMask(l, i);
      if i >= l {
        BitAbove(s, l, i);
      }
    }
    BitExtensionality(s, Pow2(l) - 1);
  }

  lemma SmearStart(m: nat)
    requires m >= 1
    ensures TopFilled(m, BitLength(m), 1)
  {
    var l := BitLength(m);
    BitLengthBounds(m);
    var k: nat := l - 1;
    var p := Pow2(k);
    assert Pow2(l) == 2 * p;
    DivModUnique(m, p, 1, m - p);
    assert Bit(m, k) == 1;
    forall i: nat | l - 1 <= i < l ensures Bit(m, i) == 1 {
      assert i == k;
    }
  }

  /** The five `x |= x >> c` steps of pow2_round_up, c = 1, 2, 4, 8, 16, set
      every one of the BitLength(m) low bits of m < 2^32: the run of top
      ones, one bit long at first, doubles at every step until it covers
      them all. */
  lemma Smeared(m: nat, x1: nat, x2: nat, x3: nat, x4: nat, x5: nat)
    requires m < Pow2(32)
    requires x1 == Or(m, Shr(m, 1))
    requires x2 == Or(x1, Shr(x1, 2))
    requires x3 == Or(x2, Shr(x2, 4))
    requires x4 == Or(x3, Shr(x3, 8))
    requires x5 == Or(x4, Shr(x4, 16))
    ensures TopFilled(x5, BitLength(m), BitLength(m))
  {
    var l := BitLength(m);
    BitLengthBelow(m, 32);
    SmearedTwice(m, x1, x2);
    SmearDouble(x2, l, 4);
    SmearDouble(x3, l, 8);
    SmearDouble(x4, l, 16);
  }

  /** After the first two steps the run of top ones is min(4, BitLength(m)) long. */
  lemma SmearedTwice(m: nat, x1: nat, x2: nat)
    requires x1 == Or(m, Shr(m, 1)) && x2 == Or(x1, Shr(x1, 2))
    ensures TopFilled(x2, BitLength(m), Min(4, BitLength(m)))
  {
    var l := BitLength(m);
    if m != 0 {
      SmearStart(m);
    }
    SmearDouble(m, l, 1);
    SmearDouble(x1, l, 2);
  }

  /** A run of min(c, l) top ones becomes one of min(2c, l) after `x |= x >> c`. */
  lemma SmearDouble(s: nat, l: nat, c: nat)
    requires TopFilled(s, l, Min(c, l))
    ensures TopFilled(Or(s, Shr(s, c)), l, Min(2 * c, l))
  {
    SmearStep(s, l, Min(c, l), c);
    assert Min(Min(c, l) + c, l) == Min(2 * c, l);
  }

  /** pow2_round_up: Python computes on x - 1 = -1 when x = 0, where every
      `x |= x >> k` leaves -1, so the result is 0. */
  method Pow2RoundUp(x0: nat) returns (r: nat)
    ensures x0 == 0 ==> r == 0
    ensures 1 <= x0 <= Pow2(32) ==> r == LeastPow2AtLeast(x0)
  {
    if x0 == 0 {
      return 0;
    }
    var x := x0 - 1;
    ghost var m := x;
    assert LeastPow2AtLeast(x0) == Pow2(BitLength(m));
    x := Or(x, Shr(x, 1));
    ghost var x1 := x;
    x := Or(x, Shr(x, 2));
    ghost var x2 := x;
    x := Or(x, Shr(x, 4));
    ghost var x3 := x;
    x := Or(x, Shr(x, 8));
    ghost var x4 := x;
    x := Or(x, Shr(x, 16));
    if x0 <= Pow2(32) {
      Smeared(m, x1, x2, x3, x4, x);
      FilledIsAllOnes(x, BitLength(m));
      assert x + 1 == LeastPow2AtLeast(x0);
    }
    r := x + 1;
  }

  // ---------------------------------------------------------------------
  // Block-linear addressing

  /** The GOB part of getAddrBlockLinear: which 512-byte GOB holds block (x, y). */
  function GobAddress(x: nat, y: nat, imageWidth: nat, bpp: nat, base: nat, blockHeight: nat): nat
    requires blockHeight >= 1
  {
    var imageWidthInGobs := DivRoundUp(imageWidth * bpp, 64);
    NatProduct((y / (8 * blockHeight)) * 512 * blockHeight, imageWidthInGobs);
    NatProduct((x * bpp / 64) * 512, blockHeight);
    base
      + (y / (8 * blockHeight)) * 512 * blockHeight * imageWidthInGobs
      + (x * bpp / 64) * 512 * blockHeight
      + (y % (8 * blockHeight) / 8) * 512
  }

  /** The offset inside a GOB of byte column `xb` and row `y`. */
  function GobOffset(xb: nat, y: nat): nat
  {
    ((xb % 64) / 32) * 256 + ((y % 8) / 2) * 64 + ((xb % 32) / 16) * 32 + (y % 2) * 16 + (xb % 16)
  }

  /** getAddrBlockLinear. */
  function BlockLinearAddress(x: nat, y: nat, imageWidth: nat, bpp: nat, base: nat, blockHeight: nat): nat
    requires blockHeight >= 1
  {
    GobAddress(x, y, imageWidth, bpp, base, blockHeight) + GobOffset(x * bpp, y)
  }

  /** With base 0 every GOB starts on a 512-byte boundary and the address lies
      inside its GOB. */
  lemma GobAligned(x: nat, y: nat, imageWidth: nat, bpp: nat, blockHeight: nat)
    requires blockHeight >= 1
    ensures GobAddress(x, y, imageWidth, bpp, 0, blockHeight) % 512 == 0
    ensures 0 <= BlockLinearAddress(x, y, imageWidth, bpp, 0, blockHeight)
                 - GobAddress(x, y, imageWidth, bpp, 0, blockHeight) < 512
  {
    GobMultiple(x, y, imageWidth, bpp, blockHeight);
    GobOffsetBelow(x * bpp, y);
  }

  /** GobAddress with base 0 is a multiple of 512. */
  lemma GobMultiple(x: nat, y: nat, imageWidth: nat, bpp: nat, blockHeight: nat)
    requires blockHeight >= 1
    ensures GobAddress(x, y, imageWidth, bpp, 0, blockHeight) % 512 == 0
  {
    var w := DivRoundUp(imageWidth * bpp, 64);
    var a := (y / (8 * blockHeight)) * blockHeight * w;
    var b := (x * bpp / 64) * blockHeight;
    var c := y % (8 * blockHeight) / 8;
    assert (y / (8 * blockHeight)) * 512 * blockHeight * w == a * 512;
    assert (x * bpp / 64) * 512 * blockHeight == b * 512;
    assert GobAddress(x, y, imageWidth, bpp, 0, blockHeight) == (a + b + c) * 512;
    DivModUnique((a + b + c) * 512, 512, a + b + c, 0);
  }

  /** An offset inside a GOB is below 512. */
  lemma GobOffsetBelow(xb: nat, y: nat)
    ensures GobOffset(xb, y) < 512
  {
  }

  /** Inside one GOB the swizzle pattern is one-to-one: the 64 byte columns
      times 8 rows land on 512 distinct offsets. */
  lemma GobOffsetInjective(xb1: nat, y1: nat, xb2: nat, y2: nat)
    requires xb1 < 64 && y1 < 8 && xb2 < 64 && y2 < 8
    requires GobOffset(xb1, y1) == GobOffset(xb2, y2)
    ensures xb1 == xb2 && y1 == y2
  {
    GobOffsetDigits(xb1, y1);
    GobOffsetDigits(xb2, y2);
    ColumnDigits(xb1);
    ColumnDigits(xb2);
    RowDigits(y1);
    RowDigits(y2);
  }

  /** The digits of a GOB offset give back the column and the row. */
  lemma GobOffsetDigits(xb: nat, y: nat)
    requires xb < 64 && y < 8
    ensures var o := GobOffset(xb, y);
      o % 16 == xb % 16 && (o / 16) % 2 == y % 2 && ((o / 16) / 2) % 2 == (xb % 32) / 16 &&
      (((o / 16) / 2) / 2) % 4 == y / 2 && (((o / 16) / 2) / 2) / 4 == xb / 32
  {
    ColumnDigits(xb);
    RowDigits(y);
    var o := GobOffset(xb, y);
    var a, b, c, d, e := xb / 32, y / 2, (xb % 32) / 16, y % 2, xb % 16;
    assert o == 16 * (16 * a + 4 * b + 2 * c + d) + e;
    DivModUnique(o, 16, 16 * a + 4 * b + 2 * c + d, e);
    DivModUnique(o / 16, 2, 8 * a + 2 * b + c, d);
    DivModUnique(o / 16 / 2, 2, 4 * a + b, c);
    DivModUnique(o / 16 / 2 / 2, 4, a, b);
  }

  lemma ColumnDigits(xb: nat)
    requires xb < 64
    ensures xb % 64 == xb && xb / 32 < 2 && (xb % 32) / 16 < 2
    ensures xb == 32 * (xb / 32) + 16 * ((xb % 32) / 16) + xb % 16
  {
  }

  lemma RowDigits(y: nat)
    requires y < 8
    ensures y % 8 == y && y / 2 < 4
    ensures y == 2 * (y / 2) + y % 2
  {
  }

  // ---------------------------------------------------------------------
  // deswizzle

  /** The geometry deswizzle derives: the size in blocks, the row pitch and
      the size of the padded surface. */
  datatype Surface = Surface(wb: nat, hb: nat, pitch: nat, size: nat)

  function Geometry(width: nat, height: nat, blkWidth: nat, blkHeight: nat, bpp: nat,
                    tileMode: nat, blockHeightLog2: nat): Surface
    requires blkWidth >= 1 && blkHeight >= 1
  {
    var wb := DivRoundUp(width, blkWidth);
    var hb := DivRoundUp(height, blkHeight);
    MulLe(0, wb, bpp);
    if tileMode == 1 then
      var pitch := RoundUp(wb * bpp, Pow2(5));
      MulLe(0, pitch, hb);
      Surface(wb, hb, pitch, pitch * hb)
    else
      var pitch := RoundUp(wb * bpp, Pow2(6));
      var rows := RoundUp(hb, Pow2(blockHeightLog2) * 8);
      MulLe(0, pitch, rows);
      Surface(wb, hb, pitch, pitch * rows)
  }

  /** The source offset of block (x, y). */
  function SourceOffset(g: Surface, x: nat, y: nat, bpp: nat, tileMode: nat, blockHeightLog2: nat): nat
  {
    if tileMode == 1 then y * g.pitch + x * bpp
    else BlockLinearAddress(x, y, g.wb, bpp, 0, Pow2(blockHeightLog2))
  }

  /** Byte i of the linear result: byte i % bpp of block i / bpp (blocks in
      row-major order), copied when its source range fits in the surface and
      zero otherwise. */
  function LinearByte(g: Surface, bpp: nat, tileMode: nat, blockHeightLog2: nat,
                      data: seq<byte>, i: nat): byte
    requires |data| >= g.size
  {
    if bpp == 0 || g.wb == 0 || i / bpp >= g.wb * g.hb then 0
    else
      var x, y := (i / bpp) % g.wb, (i / bpp) / g.wb;
      CopiedByte(data, g.size, SourceOffset(g, x, y, bpp, tileMode, blockHeightLog2), bpp, i % bpp)
  }

  /** Byte c of the bpp-byte block at pos, or zero when the block runs past
      the first size bytes of data. */
  function CopiedByte(data: seq<byte>, size: nat, pos: nat, bpp: nat, c: nat): byte
    requires |data| >= size && c < bpp
  {
    if pos + bpp <= size then data[pos + c] else 0
  }

  /** The linear image of a surface: every byte in row-major block order. */
  function LinearImage(g: Surface, bpp: nat, tileMode: nat, blockHeightLog2: nat, data: seq<byte>): seq<byte>
    requires |data| >= g.size
  {
    seq(g.size, i requires 0 <= i < g.size => LinearByte(g, bpp, tileMode, blockHeightLog2, data, i))
  }

  function Deswizzled(width: nat, height: nat, blkWidth: nat, blkHeight: nat, bpp: nat,
                      tileMode: nat, blockHeightLog2: nat, data: seq<byte>): seq<byte>
    requires blkWidth >= 1 && blkHeight >= 1
    requires |data| >= Geometry(width, height, blkWidth, blkHeight, bpp, tileMode, blockHeightLog2).size
  {
    LinearImage(Geometry(width, height, blkWidth, blkHeight, bpp, tileMode, blockHeightLog2),
                bpp, tileMode, blockHeightLog2, data)
  }

  /** The padded surface holds every block: the pitch covers a row of blocks
      and the surface covers all rows. */
  ghost predicate HoldsBlocks(g: Surface, bpp: nat)
  {
    g.pitch >= g.wb * bpp && g.size >= g.hb * (g.wb * bpp)
  }

  lemma GeometryHoldsBlocks(width: nat, height: nat, blkWidth: nat, blkHeight: nat, bpp: nat,
                            tileMode: nat, blockHeightLog2: nat)
    requires blkWidth >= 1 && blkHeight >= 1
    ensures var g := Geometry(width, height, blkWidth, blkHeight, bpp, tileMode, blockHeightLog2);
            g.wb == DivRoundUp(width, blkWidth) && g.hb == DivRoundUp(height, blkHeight) &&
            HoldsBlocks(g, bpp)
  {
    var wb := DivRoundUp(width, blkWidth);
    var hb := DivRoundUp(height, blkHeight);
    var row := wb * bpp;
    if tileMode == 1 {
      var pitch := RoundUp(row, Pow2(5));
      RoundUpAtLeast(row, 5);
      MulLe(row, pitch, hb);
      assert pitch * hb >= hb * row;
    } else {
      var pitch := RoundUp(row, Pow2(6));
      RoundUpAtLeast(row, 6);
      var k := blockHeightLog2 + 3;
      Pow2Add(blockHeightLog2, 3);
      assert Pow2(blockHeightLog2) * 8 == Pow2(k);
      RoundUpAtLeast(hb, k);
      var ph := RoundUp(hb, Pow2(k));
      MulLe(row, pitch, hb);
      MulLe(hb, ph, pitch);
      assert pitch * ph >= hb * row;
    }
  }

  /** Byte k of block (x, y) in the row-major result: (y * wb + x) * bpp + k. */
  function BlockByte(wb: nat, x: nat, y: nat, bpp: nat, k: nat): nat
  {
    NatProduct(y * wb + x, bpp);
    (y * wb + x) * bpp + k
  }

  /** Byte k of block (x, y) of a linear (tile mode 1) source: y * pitch + x * bpp + k. */
  function RowByte(pitch: nat, x: nat, y: nat, bpp: nat, k: nat): nat
  {
    NatProduct(y, pitch);
    NatProduct(x, bpp);
    y * pitch + x * bpp + k
  }

  /** Block (x, y), x < wb, occupies bytes [(y * wb + x) * bpp, +bpp) of the result. */
  lemma BlockBytes(wb: nat, bpp: nat, x: nat, y: nat, k: nat)
    requires x < wb && k < bpp
    ensures ((y * wb + x) * bpp + k) / bpp == y * wb + x
    ensures ((y * wb + x) * bpp + k) % bpp == k
    ensures (y * wb + x) % wb == x && (y * wb + x) / wb == y
  {
    DivModUnique((y * wb + x) * bpp + k, bpp, y * wb + x, k);
    DivModUnique(y * wb + x, wb, y, x);
  }

  /** Row-major block indices stay below the block count. */
  lemma BlockIndexBelow(wb: nat, hb: nat, x: nat, y: nat)
    requires x < wb && y < hb
    ensures y * wb + x + 1 <= hb * wb
  {
    MulSucc(y, wb);
    MulLe(y + 1, hb, wb);
  }

  /** Every destination range lies inside the result. */
  lemma BlockInSurface(g: Surface, bpp: nat, x: nat, y: nat)
    requires HoldsBlocks(g, bpp) && x < g.wb && y < g.hb
    ensures (y * g.wb + x) * bpp + bpp <= g.size
  {
    var b := y * g.wb + x;
    BlockIndexBelow(g.wb, g.hb, x, y);
    MulLe(b + 1, g.hb * g.wb, bpp);
    MulSucc(b, bpp);
    assert (g.hb * g.wb) * bpp == g.hb * (g.wb * bpp);
  }

  /** Byte k of block (x, y) of the result, in terms of the source. */
  lemma LinearByteOfBlock(g: Surface, bpp: nat, tileMode: nat, blockHeightLog2: nat,
                          data: seq<byte>, x: nat, y: nat, k: nat)
    requires |data| >= g.size && x < g.wb && y < g.hb && k < bpp
    ensures var pos := SourceOffset(g, x, y, bpp, tileMode, blockHeightLog2);
            LinearByte(g, bpp, tileMode, blockHeightLog2, data, BlockByte(g.wb, x, y, bpp, k))
            == if pos + bpp <= g.size then data[pos + k] else 0
  {
    BlockBytes(g.wb, bpp, x, y, k);
    BlockIndexBelow(g.wb, g.hb, x, y);
  }

  /** deswizzle: allocates a zeroed buffer of the padded surface size and
      copies it block by block.  A block whose source range ends past the
      surface is skipped. */
  method Deswizzle(width: nat, height: nat, blkWidth: nat, blkHeight: nat, bpp: nat,
                   tileMode: nat, blockHeightLog2: nat, data: seq<byte>) returns (out: seq<byte>)
    requires blkWidth >= 1 && blkHeight >= 1
    requires |data| >= Geometry(width, height, blkWidth, blkHeight, bpp, tileMode, blockHeightLog2).size
    ensures out == Deswizzled(width, height, blkWidth, blkHeight, bpp, tileMode, blockHeightLog2, data)
  {
    var g := Geometry(width, height, blkWidth, blkHeight, bpp, tileMode, blockHeightLog2);
    GeometryHoldsBlocks(width, height, blkWidth, blkHeight, bpp, tileMode, blockHeightLog2);
    out := CopyBlocks(g, bpp, tileMode, blockHeightLog2, data);
  }

  /** The copy loop of deswizzle over a surface geometry. */
  method CopyBlocks(g: Surface, bpp: nat, tileMode: nat, blockHeightLog2: nat, data: seq<byte>)
    returns (out: seq<byte>)
    requires HoldsBlocks(g, bpp) && |data| >= g.size
    ensures out == LinearImage(g, bpp, tileMode, blockHeightLog2, data)
  {
    ghost var expected := LinearImage(g, bpp, tileMode, blockHeightLog2, data);
    var w, h := g.wb, g.hb;
    var surfSize := g.size;
    var result := new byte[surfSize](_ => 0);
    var y := 0;
    while y < h
      invariant 0 <= y <= h && result.Length == surfSize
      invariant CopiedUpTo(result[..], expected, BlockByte(w, 0, y, bpp, 0))
    {
      var x := 0;
      while x < w
        invariant 0 <= x <= w
        invariant CopiedUpTo(result[..], expected, BlockByte(w, x, y, bpp, 0))
      {
        CopyBlockAt(result, g, bpp, tileMode, blockHeightLog2, data, x, y);
        x := x + 1;
      }
      MulSucc(y, w);
      y := y + 1;
    }
    TailBytesZero(g, bpp, tileMode, blockHeightLog2, data);
    out := result[..];
  }

  /** The body of the copy loop for block (x, y): one more block of the
      result agrees with the linear image. */
  method CopyBlockAt(result: array<byte>, g: Surface, bpp: nat, tileMode: nat, blockHeightLog2: nat,
                     data: seq<byte>, x: nat, y: nat)
    requires HoldsBlocks(g, bpp) && |data| >= g.size && x < g.wb && y < g.hb && result.Length == g.size
    requires CopiedUpTo(result[..], LinearImage(g, bpp, tileMode, blockHeightLog2, data), BlockByte(g.wb, x, y, bpp, 0))
    modifies result
    ensures CopiedUpTo(result[..], LinearImage(g, bpp, tileMode, blockHeightLog2, data), BlockByte(g.wb, x + 1, y, bpp, 0))
  {
    var pos := BlockSource(g, x, y, bpp, tileMode, blockHeightLog2);
    var dest := BlockByte(g.wb, x, y, bpp, 0);
    ghost var before := result[..];
    BlockInSurface(g, bpp, x, y);
    if pos + bpp <= g.size {
      CopyBlock(result, dest, data, pos, bpp);
    }
    CopyStep(g, bpp, tileMode, blockHeightLog2, data, x, y, dest, before, result[..]);
  }

  lemma NatProduct(a: nat, b: nat)
    ensures a * b >= 0
  {
  }

  /** The position deswizzle reads block (x, y) from. */
  method BlockSource(g: Surface, x: nat, y: nat, bpp: nat, tileMode: nat, blockHeightLog2: nat)
    returns (pos: nat)
    ensures pos == SourceOffset(g, x, y, bpp, tileMode, blockHeightLog2)
  {
    if tileMode == 1 {
      pos := y * g.pitch + x * bpp;
    } else {
      pos := BlockLinearAddress(x, y, g.wb, bpp, 0, Pow2(blockHeightLog2));
    }
  }

  /** Copies bytes [pos, pos + bpp) of data onto [dest, dest + bpp) of result. */
  method CopyBlock(result: array<byte>, dest: nat, data: seq<byte>, pos: nat, bpp: nat)
    requires dest + bpp <= result.Length && pos + bpp <= |data|
    modifies result
    ensures forall j :: 0 <= j < result.Length ==>
      result[j] == if dest <= j < dest + bpp then data[pos + (j - dest)] else old(result[j])
  {
    forall k | 0 <= k < bpp {
      result[dest + k] := data[pos + k];
    }
  }

  /** The first n bytes of `r` are those of `expected`, the rest are zero. */
  ghost predicate CopiedUpTo(r: seq<byte>, expected: seq<byte>, n: nat)
  {
    |r| == |expected| && forall j :: 0 <= j < |r| ==> r[j] == if j < n then expected[j] else 0
  }

  /** One iteration of the copy loop extends the copied prefix by one block. */
  lemma CopyStep(g: Surface, bpp: nat, tileMode: nat, blockHeightLog2: nat, data: seq<byte>,
                 x: nat, y: nat, dest: nat, before: seq<byte>, after: seq<byte>)
    requires HoldsBlocks(g, bpp) && |data| >= g.size && x < g.wb && y < g.hb
    requires dest == (y * g.wb + x) * bpp
    requires CopiedUpTo(before, LinearImage(g, bpp, tileMode, blockHeightLog2, data), dest)
    requires |after| == |before|
    requires var pos := SourceOffset(g, x, y, bpp, tileMode, blockHeightLog2);
      forall j :: 0 <= j < |after| ==>
        after[j] == if dest <= j < dest + bpp && pos + bpp <= g.size then data[pos + (j - dest)] else before[j]
    ensures CopiedUpTo(after, LinearImage(g, bpp, tileMode, blockHeightLog2, data), BlockByte(g.wb, x + 1, y, bpp, 0))
  {
    var expected := LinearImage(g, bpp, tileMode, blockHeightLog2, data);
    BlockInSurface(g, bpp, x, y);
    MulSucc(y * g.wb + x, bpp);
    var n := BlockByte(g.wb, x + 1, y, bpp, 0);
    assert n == dest + bpp;
    forall j | 0 <= j < |after|
      ensures after[j] == if j < n then expected[j] else 0
    {
      if dest <= j < n {
        var k := j - dest;
        LinearByteOfBlock(g, bpp, tileMode, blockHeightLog2, data, x, y, k);
        assert BlockByte(g.wb, x, y, bpp, k) == j;
      }
    }
  }

  /** Bytes from wb * hb * bpp on belong to no block and are zero. */
  lemma TailBytesZero(g: Surface, bpp: nat, tileMode: nat, blockHeightLog2: nat, data: seq<byte>)
    requires |data| >= g.size
    ensures forall i: nat :: i >= (g.hb * g.wb) * bpp ==> LinearByte(g, bpp, tileMode, blockHeightLog2, data, i) == 0
  {
    forall i: nat | i >= (g.hb * g.wb) * bpp
      ensures LinearByte(g, bpp, tileMode, blockHeightLog2, data, i) == 0
    {
      if bpp > 0 && g.wb > 0 && i / bpp < g.wb * g.hb {
        var b := i / bpp;
        DivModSplit(i, bpp);
        MulSucc(b, bpp);
        MulLe(b + 1, g.hb * g.wb, bpp);
      }
    }
  }

  // ---------------------------------------------------------------------
  // Properties of the deswizzled surface

  /** The result has the size of the padded surface. */
  lemma DeswizzledLength(width: nat, height: nat, blkWidth: nat, blkHeight: nat, bpp: nat,
                         tileMode: nat, blockHeightLog2: nat, data: seq<byte>)
    requires blkWidth >= 1 && blkHeight >= 1
    requires |data| >= Geometry(width, height, blkWidth, blkHeight, bpp, tileMode, blockHeightLog2).size
    ensures var wb, hb := DivRoundUp(width, blkWidth), DivRoundUp(height, blkHeight);
            |Deswizzled(width, height, blkWidth, blkHeight, bpp, tileMode, blockHeightLog2, data)|
            == if tileMode == 1 then RoundUp(wb * bpp, 32) * hb
               else RoundUp(wb * bpp, 64) * RoundUp(hb, 8 * Pow2(blockHeightLog2))
  {
    assert Pow2(5) == 32 && Pow2(6) == 64;
  }

  /** With tile mode 1 every block is copied from its row at y * pitch. */
  lemma LinearModeCopiesRows(width: nat, height: nat, blkWidth: nat, blkHeight: nat, bpp: nat,
                             blockHeightLog2: nat, data: seq<byte>, x: nat, y: nat, k: nat)
    requires blkWidth >= 1 && blkHeight >= 1
    requires |data| >= Geometry(width, height, blkWidth, blkHeight, bpp, 1, blockHeightLog2).size
    requires x < DivRoundUp(width, blkWidth) && y < DivRoundUp(height, blkHeight) && k < bpp
    ensures var wb := DivRoundUp(width, blkWidth);
            var pitch := RoundUp(wb * bpp, 32);
            var out := Deswizzled(width, height, blkWidth, blkHeight, bpp, 1, blockHeightLog2, data);
            BlockByte(wb, x, y, bpp, k) < |out| && RowByte(pitch, x, y, bpp, k) < |data| &&
            out[BlockByte(wb, x, y, bpp, k)] == data[RowByte(pitch, x, y, bpp, k)]
  {
    var g := Geometry(width, height, blkWidth, blkHeight, bpp, 1, blockHeightLog2);
    assert Pow2(5) == 32;
    GeometryHoldsBlocks(width, height, blkWidth, blkHeight, bpp, 1, blockHeightLog2);
    LinearRowFits(g, bpp, x, y);
    BlockInSurface(g, bpp, x, y);
    LinearByteOfBlock(g, bpp, 1, blockHeightLog2, data, x, y, k);
  }

  /** In tile mode 1 the source range of every block fits in the surface. */
  lemma LinearRowFits(g: Surface, bpp: nat, x: nat, y: nat)
    requires g.pitch >= g.wb * bpp && g.size == g.pitch * g.hb && x < g.wb && y < g.hb
    ensures y * g.pitch + x * bpp + bpp <= g.size
  {
    MulSucc(x, bpp);
    MulLe(x + 1, g.wb, bpp);
    MulSucc(y, g.pitch);
    MulLe(y + 1, g.hb, g.pitch);
  }

  /** Outside tile mode 1 a block whose GOB address range fits is copied from
      there, and one whose range does not fit stays zero. */
  lemma BlockLinearCopies(width: nat, height: nat, blkWidth: nat, blkHeight: nat, bpp: nat,
                          tileMode: nat, blockHeightLog2: nat, data: seq<byte>, x: nat, y: nat, k: nat)
    requires blkWidth >= 1 && blkHeight >= 1 && tileMode != 1
    requires |data| >= Geometry(width, height, blkWidth, blkHeight, bpp, tileMode, blockHeightLog2).size
    requires x < DivRoundUp(width, blkWidth) && y < DivRoundUp(height, blkHeight) && k < bpp
    ensures var wb := DivRoundUp(width, blkWidth);
      var out := Deswizzled(width, height, blkWidth, blkHeight, bpp, tileMode, blockHeightLog2, data);
      var pos := BlockLinearAddress(x, y, wb, bpp, 0, Pow2(blockHeightLog2));
      BlockByte(wb, x, y, bpp, k) < |out| &&
      out[BlockByte(wb, x, y, bpp, k)] == if pos + bpp <= |out| then data[pos + k] else 0
  {
    var g := Geometry(width, height, blkWidth, blkHeight, bpp, tileMode, blockHeightLog2);
    GeometryHoldsBlocks(width, height, blkWidth, blkHeight, bpp, tileMode, blockHeightLog2);
    BlockLinearByte(g, bpp, tileMode, blockHeightLog2, data, x, y, k);
  }

  lemma BlockLinearByte(g: Surface, bpp: nat, tileMode: nat, blockHeightLog2: nat,
                        data: seq<byte>, x: nat, y: nat, k: nat)
    requires HoldsBlocks(g, bpp) && |data| >= g.size && x < g.wb && y < g.hb && k < bpp && tileMode != 1
    ensures var out := LinearImage(g, bpp, tileMode, blockHeightLog2, data);
      var pos := BlockLinearAddress(x, y, g.wb, bpp, 0, Pow2(blockHeightLog2));
      BlockByte(g.wb, x, y, bpp, k) < |out| &&
      out[BlockByte(g.wb, x, y, bpp, k)] == if pos + bpp <= |out| then data[pos + k] else 0
  {
    NatProduct(y * g.wb + x, bpp);
    BlockInSurface(g, bpp, x, y);
    LinearByteOfBlock(g, bpp, tileMode, blockHeightLog2, data, x, y, k);
  }

  /** Bytes past the last block stay zero. */
  lemma TailIsZero(width: nat, height: nat, blkWidth: nat, blkHeight: nat, bpp: nat,
                   tileMode: nat, blockHeightLog2: nat, data: seq<byte>, i: nat)
    requires blkWidth >= 1 && blkHeight >= 1
    requires |data| >= Geometry(width, height, blkWidth, blkHeight, bpp, tileMode, blockHeightLog2).size
    requires DivRoundUp(height, blkHeight) * DivRoundUp(width, blkWidth) * bpp <= i
    requires i < |Deswizzled(width, height, blkWidth, blkHeight, bpp, tileMode, blockHeightLog2, data)|
    ensures Deswizzled(width, height, blkWidth, blkHeight, bpp, tileMode, blockHeightLog2, data)[i] == 0
  {
    var g := Geometry(width, height, blkWidth, blkHeight, bpp, tileMode, blockHeightLog2);
    GeometryHoldsBlocks(width, height, blkWidth, blkHeight, bpp, tileMode, blockHeightLog2);
    TailBytesZero(g, bpp, tileMode, blockHeightLog2, data);
  }
}
