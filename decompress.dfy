/** The block-level helpers of the libtxc_dxtn-style decoders: the RGB565
    endpoint decoding, the colour palette (C2_decode, C3_decode,
    dxt135_imageblock) and the 8-entry alpha ramps (dxt5_alphablock and its
    signed variant).  The image loops are in DecompressImages. */
module Decompress {
  import opened Bits
  import opened Signed8
  import opened Raster
  import BcBase
  import Swizzle

  // ---------------------------------------------------------------------
  // decodeRGB565

  /** decodeRGB565: (R, G, B, 0xFF) with red from bits 11-15, green from
      bits 5-10 and blue from bits 0-4, each shifted to the top of its byte
      and OR-ed with itself shifted right by five. */
  function DecodeRgb565(col: nat): (c: seq<byte>)
    ensures |c| == 4 && c[3] == 0xFF
  {
    var b := Field(col, 0, 5);
    var g := Field(col, 5, 6);
    var r := Field(col, 11, 5);
    [Widen5(r), Widen6(g), Widen5(b), 0xFF]
  }

  /** (col >> k) & (2^n - 1): the n-bit field of col starting at bit k. */
  function Field(col: nat, k: nat, n: nat): (f: nat)
    ensures f == (col / Pow2(k)) % Pow2(n)
  {
    AndLowMask(Shr(col, k), n);
    And(Shr(col, k), Pow2(n) - 1)
  }

  /** A 5-bit field f as decodeRGB565 widens it: (f << 3) | ((f << 3) >> 5),
      which replicates its top three bits below it. */
  function Widen5(f: nat): (v: byte)
    ensures f < 32 ==> v as nat == f * 8 + f / 4
  {
    if f < 32 then
      FiveBitField(f);
      Or(Shl(f, 3), Shr(Shl(f, 3), 5)) as byte
    else 0
  }

  /** A 6-bit field f as decodeRGB565 widens it: (f << 2) | ((f << 2) >> 5).
      The shifted copy overlaps bit 2, so bit 5 of f is OR-ed into its bit 0
      instead of landing below it. */
  function Widen6(f: nat): (v: byte)
    ensures f < 64 ==> v as nat == f * 4 + f / 8 - (if f % 2 == 1 && f >= 32 then 4 else 0)
  {
    if f < 64 then
      SixBitField(f);
      Or(Shl(f, 2), Shr(Shl(f, 2), 5)) as byte
    else 0
  }

  /** (f << 3) | ((f << 3) >> 5) for a 5-bit field f. */
  lemma FiveBitField(f: nat)
    requires f < 32
    ensures Or(Shl(f, 3), Shr(Shl(f, 3), 5)) == f * 8 + f / 4
  {
    assert Pow2(3) == 8 && Pow2(5) == 32;
    assert (f * 8) / 32 == f / 4;
    OrDisjoint(f, f / 4, 3);
  }

  /** (f << 2) | ((f << 2) >> 5) for a 6-bit field f. */
  lemma SixBitField(f: nat)
    requires f < 64
    ensures Or(Shl(f, 2), Shr(Shl(f, 2), 5)) == f * 4 + f / 8 - (if f % 2 == 1 && f >= 32 then 4 else 0)
  {
    var h, b0, v := f / 2, f % 2, f / 8;
    assert Shl(f, 2) == h * Pow2(3) + b0 * 4 by {
      assert Pow2(2) == 4 && Pow2(3) == 8;
    }
    assert Shr(Shl(f, 2), 5) == v by {
      assert Pow2(2) == 4 && Pow2(5) == 32;
      assert (f * 4) / 32 == v;
    }
    assert b0 * 4 < Pow2(3) && v < Pow2(3) by {
      assert Pow2(3) == 8;
    }
    OrHigh(h, b0 * 4, v, 3);
    OrLowBits(b0, v);
    assert Pow2(3) == 8;
  }

  /** (b0 << 2) | v for a bit b0 and a 3-bit v. */
  lemma OrLowBits(b0: nat, v: nat)
    requires b0 < 2 && v < 8
    ensures Or(b0 * 4, v) == if b0 == 1 && v < 4 then v + 4 else v
  {
    if b0 == 1 {
      assert Or(4, 0) == 4 && Or(4, 1) == 5 && Or(4, 2) == 6 && Or(4, 3) == 7;
      assert Or(4, 4) == 4 && Or(4, 5) == 5 && Or(4, 6) == 6 && Or(4, 7) == 7;
    } else {
      OrZero(v);
    }
  }

  /** OR-ing a value below 2^n only touches the low n bits. */
  lemma {:induction false} OrHigh(h: nat, l1: nat, l2: nat, n: nat)
    requires l1 < Pow2(n) && l2 < Pow2(n)
    ensures Or(h * Pow2(n) + l1, l2) == h * Pow2(n) + Or(l1, l2)
  {
    if n == 0 {
      OrZero(h);
      OrZero(0);
    } else {
      var p := Pow2(n - 1);
      var a := h * Pow2(n) + l1;
      assert h * Pow2(n) == (h * p) * 2 by {
        MulTwice(h, p);
      }
      DivModUnique(a, 2, h * p + l1 / 2, l1 % 2);
      OrStep(a, l2);
      OrHigh(h, l1 / 2, l2 / 2, n - 1);
      OrStep(l1, l2);
    }
  }

  /** The channels of decodeRGB565 in arithmetic form: red and blue are the
      usual 5-to-8-bit widening of bits 11-15 and 0-4. */
  lemma DecodeChannels(col: nat)
    requires col < 0x10000
    ensures var c, r5, g6, b5 := DecodeRgb565(col), col / 2048, (col / 32) % 64, col % 32;
      c[0] as nat == r5 * 8 + r5 / 4 && c[2] as nat == b5 * 8 + b5 / 4 &&
      c[1] as nat == g6 * 4 + g6 / 8 - (if g6 % 2 == 1 && g6 >= 32 then 4 else 0)
  {
    var r5, g6, b5 := col / 2048, (col / 32) % 64, col % 32;
    assert Field(col, 11, 5) == r5 by {
      FieldValue(col, 11, 5, 2048, 32);
      DivModUnique(r5, 32, 0, r5);
    }
    assert Field(col, 5, 6) == g6 by {
      FieldValue(col, 5, 6, 32, 64);
    }
    assert Field(col, 0, 5) == b5 by {
      FieldValue(col, 0, 5, 1, 32);
      DivModUnique(col, 1, col, 0);
    }
    var c := DecodeRgb565(col);
    assert c[0] == Widen5(r5) && c[1] == Widen6(g6) && c[2] == Widen5(b5);
  }

  lemma FieldValue(col: nat, k: nat, n: nat, pk: nat, pn: nat)
    requires (k, n, pk, pn) in {(11, 5, 2048, 32), (5, 6, 32, 64), (0, 5, 1, 32)}
    ensures Field(col, k, n) == (col / pk) % pn
  {
    assert Pow2(0) == 1 && Pow2(5) == 32 && Pow2(6) == 64 && Pow2(11) == 2048;
  }

  /** Each channel keeps its source field in its top bits: R >> 3 is bits
      11-15, B >> 3 is bits 0-4 and G >> 3 is bits 6-10. */
  lemma DecodeTopBits(col: nat)
    requires col < 0x10000
    ensures DecodeRgb565(col)[0] as nat / 8 == col / 2048
    ensures DecodeRgb565(col)[2] as nat / 8 == col % 32
    ensures DecodeRgb565(col)[1] as nat / 8 == ((col / 32) % 64) / 2
  {
    DecodeChannels(col);
    var r5, g6, b5 := col / 2048, (col / 32) % 64, col % 32;
    DivModUnique(r5 * 8 + r5 / 4, 8, r5, r5 / 4);
    DivModUnique(b5 * 8 + b5 / 4, 8, b5, b5 / 4);
    var low := g6 * 4 + g6 / 8 - (if g6 % 2 == 1 && g6 >= 32 then 4 else 0) - (g6 / 2) * 8;
    assert 0 <= low < 8;
    DivModUnique((g6 / 2) * 8 + low, 8, g6 / 2, low);
  }

  /** 0xF800 decodes to opaque red and 0x0000 to opaque black. */
  lemma DecodeRgb565Extremes(col: nat)
    requires col == 0xF800 || col == 0
    ensures DecodeRgb565(col) == if col == 0 then [0, 0, 0, 255] else [255, 0, 0, 255]
  {
    DecodeChannels(col);
    var c := DecodeRgb565(col);
    if col == 0 {
      assert c[0] == 0 && c[1] == 0 && c[2] == 0;
    } else {
      DivModUnique(col, 2048, 31, 0);
      DivModUnique(col, 32, 1984, 0);
      DivModUnique(1984, 64, 31, 0);
      assert c[0] == 255 && c[1] == 0 && c[2] == 0;
    }
  }

  /** Red and blue agree with unpackRGB565 with the channel order reversed. */
  lemma DecodeIsUnpackReversed(col: nat)
    requires col < 0x10000
    ensures DecodeRgb565(col)[0] == BcBase.UnpackRgb565(col)[2]
    ensures DecodeRgb565(col)[2] == BcBase.UnpackRgb565(col)[0]
    ensures DecodeRgb565(col)[3] == BcBase.UnpackRgb565(col)[3]
  {
    DecodeChannels(col);
  }

  /** The overlapping green copy makes a green field of 33 decode exactly
      like 32 (both to 132). */
  lemma GreenFieldsCollide(col: nat)
    requires col + 32 < 0x10000 && (col / 32) % 64 == 32
    ensures DecodeRgb565(col + 32) == DecodeRgb565(col) && DecodeRgb565(col)[1] == 132
  {
    NextGreenField(col);
    DecodeChannels(col);
    DecodeChannels(col + 32);
    var c, d := DecodeRgb565(col), DecodeRgb565(col + 32);
    assert c[1] as nat == 132 && d[1] as nat == 132;
    assert c[0] == d[0] && c[2] == d[2] && c[3] == d[3];
  }

  /** unpackRGB565 keeps the green fields 32 and 33 apart (130 and 134). */
  lemma UnpackKeepsGreenApart(col: nat)
    requires col + 32 < 0x10000 && (col / 32) % 64 == 32
    ensures BcBase.UnpackRgb565(col + 32)[1] != BcBase.UnpackRgb565(col)[1]
  {
    NextGreenField(col);
    assert BcBase.UnpackRgb565(col)[1] as nat == 130;
    assert BcBase.UnpackRgb565(col + 32)[1] as nat == 134;
  }

  /** Adding 32 to a colour whose green field is 32 only changes green. */
  lemma NextGreenField(col: nat)
    requires (col / 32) % 64 == 32
    ensures (col + 32) / 2048 == col / 2048 && (col + 32) % 32 == col % 32 && ((col + 32) / 32) % 64 == 33
  {
    var q, b5 := col / 32, col % 32;
    var t := q / 64;
    assert q == 64 * t + 32;
    DivModUnique(col + 32, 32, q + 1, b5);
    DivModUnique(q + 1, 64, t, 33);
    DivModUnique(col, 2048, t, 1024 + b5);
    DivModUnique(col + 32, 2048, t, 1056 + b5);
  }

  // ---------------------------------------------------------------------
  // The four-colour palette: C2_decode, C3_decode, dxt135_imageblock

  /** The per-channel floor mean of two colours, opaque. */
  function Midpoint(a: seq<byte>, b: seq<byte>): (c: seq<byte>)
    requires |a| >= 3 && |b| >= 3
    ensures |c| == 4 && c[3] == 0xFF
    ensures forall ch :: 0 <= ch < 3 ==> 2 * c[ch] as int <= a[ch] as int + b[ch] as int < 2 * c[ch] as int + 2
  {
    [BcBase.Blend(a[0], b[0], 1, 1, 2), BcBase.Blend(a[1], b[1], 1, 1, 2), BcBase.Blend(a[2], b[2], 1, 1, 2), 0xFF]
  }

  /** The third palette entry: the 2:1 blend of the endpoint colours, or
      their midpoint for a BC1 block with c0 <= c1. */
  function Third(e0: seq<byte>, e1: seq<byte>, c0: nat, c1: nat, isBC1: bool): (c: seq<byte>)
    requires |e0| >= 3 && |e1| >= 3
    ensures |c| == 4 && c[3] == 0xFF
  {
    if c0 > c1 || !isBC1 then BcBase.CalcClut2(e0, e1, c0, c1) else Midpoint(e0, e1)
  }

  /** The colour a BC1 three-colour block gives its fourth index. */
  const TransparentBlack: seq<byte> := [0, 0, 0, 0]

  /** The fourth palette entry: the 1:2 blend of the endpoint colours, or
      transparent black for a BC1 block with c0 <= c1. */
  function Fourth(e0: seq<byte>, e1: seq<byte>, c0: nat, c1: nat, isBC1: bool): (c: seq<byte>)
    requires |e0| >= 3 && |e1| >= 3
    ensures |c| == 4
  {
    if c0 > c1 || !isBC1 then BcBase.CalcClut3(e0, e1, c0, c1) else TransparentBlack
  }

  /** The palette of a colour block with endpoints c0, c1: the endpoints, then
      the 2:1 and 1:2 blends (as calcCLUT2/calcCLUT3 compute them) unless the
      block is BC1 with c0 <= c1, which has the midpoint and transparent black. */
  function Palette(c0: nat, c1: nat, isBC1: bool): (p: seq<seq<byte>>)
    requires c0 < 0x10000 && c1 < 0x10000
    ensures |p| == 4 && forall i :: 0 <= i < 4 ==> |p[i]| == 4
  {
    var e0, e1 := DecodeRgb565(c0), DecodeRgb565(c1);
    [e0, e1, Third(e0, e1, c0, c1, isBC1), Fourth(e0, e1, c0, c1, isBC1)]
  }

  /** The palette rule channel by channel, four-colour blocks: the endpoints,
      then (2a + b) / 3 and (a + 2b) / 3, both opaque. */
  lemma PaletteRule(c0: nat, c1: nat, isBC1: bool, ch: nat)
    requires c0 < 0x10000 && c1 < 0x10000 && ch < 3 && (c0 > c1 || !isBC1)
    ensures var p, a, b := Palette(c0, c1, isBC1), DecodeRgb565(c0)[ch] as int, DecodeRgb565(c1)[ch] as int;
      p[0] == DecodeRgb565(c0) && p[1] == DecodeRgb565(c1) &&
      p[2][ch] as int == (2 * a + b) / 3 && p[3][ch] as int == (a + 2 * b) / 3 && p[2][3] == p[3][3] == 0xFF
  {
    var e0, e1 := DecodeRgb565(c0), DecodeRgb565(c1);
    var t, f := BcBase.CalcClut2(e0, e1, c0, c1), BcBase.CalcClut3(e0, e1, c0, c1);
    var p := Palette(c0, c1, isBC1);
    assert p[0] == e0 && p[1] == e1 && p[2] == t && p[3] == f;
    ClutChannel(e0, e1, c0, c1, ch);
  }

  /** calcCLUT2 and calcCLUT3 as floor divisions, one channel. */
  lemma ClutChannel(e0: seq<byte>, e1: seq<byte>, c0: nat, c1: nat, ch: nat)
    requires |e0| >= 3 && |e1| >= 3 && ch < 3
    ensures BcBase.CalcClut2(e0, e1, c0, c1)[ch] as int == (2 * e0[ch] as int + e1[ch] as int) / 3
    ensures BcBase.CalcClut3(e0, e1, c0, c1)[ch] as int == (e0[ch] as int + 2 * e1[ch] as int) / 3
  {
    var a, b := e0[ch] as int, e1[ch] as int;
    var t, f := BcBase.CalcClut2(e0, e1, c0, c1)[ch] as int, BcBase.CalcClut3(e0, e1, c0, c1)[ch] as int;
    DivModUnique(2 * a + b, 3, t, 2 * a + b - 3 * t);
    DivModUnique(a + 2 * b, 3, f, a + 2 * b - 3 * f);
  }

  /** The palette rule channel by channel, three-colour BC1 blocks: the
      endpoints, then their opaque midpoint (a + b) / 2 and transparent black. */
  lemma PaletteRuleThreeColour(c0: nat, c1: nat, ch: nat)
    requires c0 < 0x10000 && c1 < 0x10000 && ch < 3 && c0 <= c1
    ensures var p, a, b := Palette(c0, c1, true), DecodeRgb565(c0)[ch] as int, DecodeRgb565(c1)[ch] as int;
      p[0] == DecodeRgb565(c0) && p[1] == DecodeRgb565(c1) &&
      p[2][ch] as int == (a + b) / 2 && p[2][3] == 0xFF && p[3] == TransparentBlack
  {
    var e0, e1 := DecodeRgb565(c0), DecodeRgb565(c1);
    var m := Midpoint(e0, e1);
    assert Palette(c0, c1, true)[2] == m;
    PaletteBlack(c0, c1);
    MidpointChannel(e0, e1, ch);
  }

  /** A three-colour BC1 block gives its fourth index transparent black. */
  lemma PaletteBlack(c0: nat, c1: nat)
    requires c0 < 0x10000 && c1 < 0x10000 && c0 <= c1
    ensures Palette(c0, c1, true)[3] == TransparentBlack
  {
  }

  /** The midpoint as a floor division, one channel. */
  lemma MidpointChannel(e0: seq<byte>, e1: seq<byte>, ch: nat)
    requires |e0| >= 3 && |e1| >= 3 && ch < 3
    ensures Midpoint(e0, e1)[ch] as int == (e0[ch] as int + e1[ch] as int) / 2
  {
    var a, b, m := e0[ch] as int, e1[ch] as int, Midpoint(e0, e1)[ch] as int;
    DivModUnique(a + b, 2, m, a + b - 2 * m);
  }

  /** Outside BC1 mode, swapping the endpoints swaps the two blends. */
  lemma PaletteSwap(c0: nat, c1: nat)
    requires c0 < 0x10000 && c1 < 0x10000
    ensures Palette(c1, c0, false)[3] == Palette(c0, c1, false)[2]
    ensures Palette(c1, c0, false)[2] == Palette(c0, c1, false)[3]
  {
    var e0, e1 := DecodeRgb565(c0), DecodeRgb565(c1);
    forall ch | 0 <= ch < 3
      ensures BcBase.Blend(e1[ch], e0[ch], 1, 2, 3) == BcBase.Blend(e0[ch], e1[ch], 2, 1, 3)
      ensures BcBase.Blend(e1[ch], e0[ch], 2, 1, 3) == BcBase.Blend(e0[ch], e1[ch], 1, 2, 3)
    {
    }
  }

  /** The blends in the form C2_decode and C3_decode write them. */
  lemma BlendForms(x: byte, y: byte)
    ensures 0 <= (x as int * 2 + y as int) / 3 < 256 && BcBase.Blend(x, y, 2, 1, 3) as int == (x as int * 2 + y as int) / 3
    ensures 0 <= (x as int + y as int * 2) / 3 < 256 && BcBase.Blend(x, y, 1, 2, 3) as int == (x as int + y as int * 2) / 3
    ensures 0 <= (x as int + y as int) / 2 < 256 && BcBase.Blend(x, y, 1, 1, 2) as int == (x as int + y as int) / 2
  {
    BcBase.WeightedMean(x as int, y as int, 2, 1);
    BcBase.WeightedMean(x as int, y as int, 1, 2);
    BcBase.WeightedMean(x as int, y as int, 1, 1);
  }

  /** C2_decode: color[2] becomes the 2:1 blend of color[0] and color[1], or
      their midpoint for a BC1 block with c0 <= c1. */
  method C2Decode(color: array<seq<byte>>, c0: nat, c1: nat, isBC1: bool)
    requires color.Length == 4 && |color[0]| >= 3 && |color[1]| >= 3
    modifies color
    ensures color[0] == old(color[0]) && color[1] == old(color[1]) && color[3] == old(color[3])
    ensures color[2] == Third(color[0], color[1], c0, c1, isBC1)
  {
    var output := new byte[4](_ => 0);
    var a, b := color[0], color[1];
    BlendForms(a[0], b[0]);
    BlendForms(a[1], b[1]);
    BlendForms(a[2], b[2]);
    if c0 > c1 || !isBC1 {
      output[0] := ((a[0] as int * 2 + b[0] as int) / 3) as byte;
      assert output[0] == BcBase.Blend(a[0], b[0], 2, 1, 3);
      output[1] := ((a[1] as int * 2 + b[1] as int) / 3) as byte;
      assert output[1] == BcBase.Blend(a[1], b[1], 2, 1, 3);
      output[2] := ((a[2] as int * 2 + b[2] as int) / 3) as byte;
      assert output[2] == BcBase.Blend(a[2], b[2], 2, 1, 3);
    } else {
      output[0] := ((a[0] as int + b[0] as int) / 2) as byte;
      assert output[0] == BcBase.Blend(a[0], b[0], 1, 1, 2);
      output[1] := ((a[1] as int + b[1] as int) / 2) as byte;
      assert output[1] == BcBase.Blend(a[1], b[1], 1, 1, 2);
      output[2] := ((a[2] as int + b[2] as int) / 2) as byte;
      assert output[2] == BcBase.Blend(a[2], b[2], 1, 1, 2);
    }
    output[3] := 0xFF;
    ThirdEntries(a, b, c0, c1, isBC1);
    assert output[..] == [output[0], output[1], output[2], output[3]];
    color[2] := output[..];
  }

  /** Third, entry by entry. */
  lemma ThirdEntries(a: seq<byte>, b: seq<byte>, c0: nat, c1: nat, isBC1: bool)
    requires |a| >= 3 && |b| >= 3
    ensures Third(a, b, c0, c1, isBC1) ==
      if c0 > c1 || !isBC1 then [BcBase.Blend(a[0], b[0], 2, 1, 3), BcBase.Blend(a[1], b[1], 2, 1, 3), BcBase.Blend(a[2], b[2], 2, 1, 3), 0xFF]
      else [BcBase.Blend(a[0], b[0], 1, 1, 2), BcBase.Blend(a[1], b[1], 1, 1, 2), BcBase.Blend(a[2], b[2], 1, 1, 2), 0xFF]
  {
  }

  /** C3_decode: color[3] becomes the 1:2 blend of color[0] and color[1], or
      four zero bytes (transparent black) for a BC1 block with c0 <= c1. */
  method C3Decode(color: array<seq<byte>>, c0: nat, c1: nat, isBC1: bool)
    requires color.Length == 4 && |color[0]| >= 3 && |color[1]| >= 3
    modifies color
    ensures color[0] == old(color[0]) && color[1] == old(color[1]) && color[2] == old(color[2])
    ensures color[3] == Fourth(color[0], color[1], c0, c1, isBC1)
  {
    var output := new byte[4](_ => 0);
    var a, b := color[0], color[1];
    BlendForms(a[0], b[0]);
    BlendForms(a[1], b[1]);
    BlendForms(a[2], b[2]);
    if c0 > c1 || !isBC1 {
      output[0] := ((a[0] as int + b[0] as int * 2) / 3) as byte;
      assert output[0] == BcBase.Blend(a[0], b[0], 1, 2, 3);
      output[1] := ((a[1] as int + b[1] as int * 2) / 3) as byte;
      assert output[1] == BcBase.Blend(a[1], b[1], 1, 2, 3);
      output[2] := ((a[2] as int + b[2] as int * 2) / 3) as byte;
      assert output[2] == BcBase.Blend(a[2], b[2], 1, 2, 3);
      output[3] := 0xFF;
    }
    FourthEntries(a, b, c0, c1, isBC1);
    assert output[..] == [output[0], output[1], output[2], output[3]];
    color[3] := output[..];
  }

  /** Fourth, entry by entry. */
  lemma FourthEntries(a: seq<byte>, b: seq<byte>, c0: nat, c1: nat, isBC1: bool)
    requires |a| >= 3 && |b| >= 3
    ensures Fourth(a, b, c0, c1, isBC1) ==
      if c0 > c1 || !isBC1 then [BcBase.Blend(a[0], b[0], 1, 2, 3), BcBase.Blend(a[1], b[1], 1, 2, 3), BcBase.Blend(a[2], b[2], 1, 2, 3), 0xFF]
      else TransparentBlack
  {
  }

  /** EXP4TO8: a 4-bit value widened to 8 bits by repeating it. */
  function Exp4To8(col: nat): (r: nat)
    ensures col < 16 ==> r == 17 * col && r < 256
  {
    assert col < 16 ==> Or(col, Shl(col, 4)) == 17 * col by {
      if col < 16 {
        assert Pow2(4) == 16;
        OrDisjoint(col, col, 4);
        OrCommutes(col, col * 16);
      }
    }
    Or(col, Shl(col, 4))
  }

  lemma {:induction false} OrCommutes(a: nat, b: nat)
    ensures Or(a, b) == Or(b, a)
  {
    forall i: nat ensures Bit(Or(a, b), i) == Bit(Or(b, a), i) {
      OrBit(a, b, i);
      OrBit(b, a, i);
    }
    BitExtensionality(Or(a, b), Or(b, a));
  }

  /** dxt135_imageblock: the palette and the 32-bit index word of the 8-byte
      colour block at blksrc. */
  method Dxt135ImageBlock(data: seq<byte>, blksrc: nat, isBC1: bool) returns (color: seq<seq<byte>>, bits: nat)
    requires blksrc + 8 <= |data|
    ensures LeUint(data, blksrc, 2) < 0x10000 && LeUint(data, blksrc + 2, 2) < 0x10000
    ensures color == Palette(LeUint(data, blksrc, 2), LeUint(data, blksrc + 2, 2), isBC1)
    ensures bits == LeUint(data, blksrc + 4, 4)
  {
    assert Pow2(16) == 0x10000 by {
      Pow2Add(8, 8);
    }
    var palette := new seq<byte>[4](_ => []);
    var c0 := LeUint(data, blksrc, 2);
    var c1 := LeUint(data, blksrc + 2, 2);
    bits := LeUint(data, blksrc + 4, 4);
    var e0, e1 := DecodeRgb565(c0), DecodeRgb565(c1);
    palette[0] := e0;
    palette[1] := e1;
    C2Decode(palette, c0, c1, isBC1);
    C3Decode(palette, c0, c1, isBC1);
    color := palette[..];
    PaletteEntries(c0, c1, isBC1, color);
  }

  /** A list of the two endpoint colours and the two blends is the palette. */
  lemma PaletteEntries(c0: nat, c1: nat, isBC1: bool, color: seq<seq<byte>>)
    requires c0 < 0x10000 && c1 < 0x10000 && |color| == 4
    requires color[0] == DecodeRgb565(c0) && color[1] == DecodeRgb565(c1)
    requires color[2] == Third(color[0], color[1], c0, c1, isBC1)
    requires color[3] == Fourth(color[0], color[1], c0, c1, isBC1)
    ensures color == Palette(c0, c1, isBC1)
  {
  }

  // ---------------------------------------------------------------------
  // dxt5_alphablock / dxt5_alphablock_signed

  /** dxt5_alphablock: the 8-entry ramp of the endpoint bytes at blksrc and
      blksrc + 1; entry code is what decodeAlpha returns for that code. */
  method Dxt5AlphaBlock(data: seq<byte>, blksrc: nat) returns (ramp: seq<byte>)
    requires blksrc + 1 < |data|
    ensures |ramp| == 8
    ensures forall code :: 0 <= code < 8 ==> ramp[code] == BcBase.DecodeAlpha(code, data[blksrc], data[blksrc + 1])
  {
    var alpha := new byte[8](_ => 0);
    alpha[0] := data[blksrc];
    alpha[1] := data[blksrc + 1];
    if alpha[0] > alpha[1] {
      InterpolateSevenths(alpha);
    } else {
      InterpolateFifths(alpha);
    }
    ramp := alpha[..];
  }

  /** The a0 > a1 branch of dxt5_alphablock: entries 2..7 step from a0 to a1
      in sevenths. */
  method InterpolateSevenths(alpha: array<byte>)
    requires alpha.Length == 8 && alpha[0] > alpha[1]
    modifies alpha
    ensures forall code :: 0 <= code < 8 ==> alpha[code] == BcBase.DecodeAlpha(code, old(alpha[0]), old(alpha[1]))
  {
    ghost var a0, a1 := alpha[0], alpha[1];
    for i := 2 to 8
      invariant alpha[0] == a0 && alpha[1] == a1
      invariant forall code :: 2 <= code < i ==> alpha[code] == Seventh(a0, a1, code)
    {
      alpha[i] := Seventh(alpha[0], alpha[1], i);
    }
    SeventhsRamp(a0, a1, alpha[..]);
  }

  /** The a0 <= a1 branch of dxt5_alphablock: entries 2..5 step from a0 to
      a1 in fifths, entry 6 is 0 and entry 7 is 255. */
  method InterpolateFifths(alpha: array<byte>)
    requires alpha.Length == 8 && alpha[0] <= alpha[1]
    modifies alpha
    ensures forall code :: 0 <= code < 8 ==> alpha[code] == BcBase.DecodeAlpha(code, old(alpha[0]), old(alpha[1]))
  {
    ghost var a0, a1 := alpha[0], alpha[1];
    for i := 2 to 6
      invariant alpha[0] == a0 && alpha[1] == a1
      invariant forall code :: 2 <= code < i ==> alpha[code] == Fifth(a0, a1, code)
    {
      alpha[i] := Fifth(alpha[0], alpha[1], i);
    }
    alpha[6] := 0x00;
    alpha[7] := 0xFF;
    FifthsRamp(a0, a1, alpha[..]);
  }

  /** `(alpha[0] * (8 - i) + alpha[1] * (i - 1)) // 7`, an inner entry of
      dxt5_alphablock when a0 > a1. */
  function Seventh(a0: byte, a1: byte, i: nat): byte
    requires 2 <= i < 8
  {
    BcBase.WeightedMean(a0 as int, a1 as int, 8 - i, i - 1);
    ((a0 as int * (8 - i) + a1 as int * (i - 1)) / 7) as byte
  }

  /** `(alpha[0] * (6 - i) + alpha[1] * (i - 1)) // 5`, an inner entry of
      dxt5_alphablock when a0 <= a1. */
  function Fifth(a0: byte, a1: byte, i: nat): byte
    requires 2 <= i < 6
  {
    BcBase.WeightedMean(a0 as int, a1 as int, 6 - i, i - 1);
    ((a0 as int * (6 - i) + a1 as int * (i - 1)) / 5) as byte
  }

  /** The endpoints followed by the six sevenths are the decodeAlpha ramp of
      a block with a0 > a1. */
  lemma SeventhsRamp(a0: byte, a1: byte, ramp: seq<byte>)
    requires a0 > a1 && |ramp| == 8 && ramp[0] == a0 && ramp[1] == a1
    requires forall code :: 2 <= code < 8 ==> ramp[code] == Seventh(a0, a1, code)
    ensures forall code :: 0 <= code < 8 ==> ramp[code] == BcBase.DecodeAlpha(code, a0, a1)
  {
    AlphaEnds(a0, a1);
    forall code | 2 <= code < 8
      ensures ramp[code] == BcBase.DecodeAlpha(code, a0, a1)
    {
      InnerEntry(a0, a1, code, 8 - code, 7);
    }
  }

  /** The endpoints, the four fifths, 0 and 255 are the decodeAlpha ramp of
      a block with a0 <= a1. */
  lemma FifthsRamp(a0: byte, a1: byte, ramp: seq<byte>)
    requires a0 <= a1 && |ramp| == 8 && ramp[0] == a0 && ramp[1] == a1 && ramp[6] == 0 && ramp[7] == 255
    requires forall code :: 2 <= code < 6 ==> ramp[code] == Fifth(a0, a1, code)
    ensures forall code :: 0 <= code < 8 ==> ramp[code] == BcBase.DecodeAlpha(code, a0, a1)
  {
    AlphaEnds(a0, a1);
    forall code | 2 <= code < 6
      ensures ramp[code] == BcBase.DecodeAlpha(code, a0, a1)
    {
      InnerEntry(a0, a1, code, 6 - code, 5);
    }
  }

  /** An inner entry of decodeAlpha is the floor mean with weights w0 and
      code - 1 over d. */
  lemma InnerEntry(a0: byte, a1: byte, code: nat, w0: nat, d: nat)
    requires 2 <= code < 8 && w0 + code - 1 == d
    requires (d == 7 && w0 == 8 - code && a0 > a1) || (d == 5 && w0 == 6 - code && code < 6 && a0 <= a1)
    ensures BcBase.DecodeAlpha(code, a0, a1) as int == (a0 as int * w0 + a1 as int * (code - 1)) / d
  {
    SmallCode(code);
    var r := BcBase.Blend(a0, a1, w0, code - 1, d);
    var n := a0 as int * w0 + a1 as int * (code - 1);
    DivModUnique(n, d, r as int, n - r as int * d);
  }

  /** The fixed entries of the decodeAlpha ramp for the codes 0, 1, 6 and 7. */
  lemma AlphaEnds(a0: byte, a1: byte)
    ensures BcBase.DecodeAlpha(0, a0, a1) == a0 && BcBase.DecodeAlpha(1, a0, a1) == a1
    ensures a0 <= a1 ==> BcBase.DecodeAlpha(6, a0, a1) == 0 && BcBase.DecodeAlpha(7, a0, a1) == 255
  {
    DivModUnique(0, 8, 0, 0);
    DivModUnique(1, 8, 0, 1);
    DivModUnique(6, 8, 0, 6);
    DivModUnique(7, 8, 0, 7);
  }

  lemma SmallCode(i: nat)
    requires i < 8
    ensures And(i, 0x07) == i
  {
    AndLowMask(i, 3);
    assert Pow2(3) == 8;
    DivModUnique(i, 8, 0, i);
  }

  /** dxt5_alphablock_signed: the ramp of the endpoints read as signed bytes;
      entry code is what decodeAlphaSigned returns for that code. */
  method Dxt5AlphaBlockSigned(data: seq<byte>, blksrc: nat) returns (ramp: seq<byte>)
    requires blksrc + 1 < |data|
    ensures |ramp| == 8
    ensures forall code :: 0 <= code < 8 ==> ramp[code] == BcBase.DecodeAlphaSigned(code, data[blksrc], data[blksrc + 1])
  {
    var alpha := new byte[8](_ => 0);
    alpha[0] := data[blksrc];
    alpha[1] := data[blksrc + 1];
    ghost var a0, a1 := alpha[0], alpha[1];
    var s0, s1 := ToSigned8(alpha[0] as int), ToSigned8(alpha[1] as int);
    if s0 > s1 {
      for i := 2 to 8
        invariant alpha[0] == a0 && alpha[1] == a1
        invariant forall code :: 2 <= code < i ==> alpha[code] == BcBase.DecodeAlphaSigned(code, a0, a1)
      {
        alpha[i] := ToUnsigned8((s0 * (8 - i) + s1 * (i - 1)) / 7) as byte;
      }
    } else {
      for i := 2 to 6
        invariant alpha[0] == a0 && alpha[1] == a1
        invariant forall code :: 2 <= code < i ==> alpha[code] == BcBase.DecodeAlphaSigned(code, a0, a1)
      {
        alpha[i] := ToUnsigned8((s0 * (6 - i) + s1 * (i - 1)) / 5) as byte;
      }
      alpha[6] := 0x80;
      alpha[7] := 0x7f;
    }
    ramp := alpha[..];
  }
}
