/** The shared block-compression helpers: RGB565 unpacking, the colour
    lookup table of a BC1-style tile and the 8-entry alpha/red ramps. */
module BcBase {
  import opened Bits
  import opened Signed8
  import opened Outcome

  // ---------------------------------------------------------------------
  // unpackRGB565

  /** unpackRGB565: red from the low five bits, green from the middle six,
      blue from the top five, each widened by copying its top bits into the
      low bits.  Returns (r, g, b, 0xFF). */
  function UnpackRgb565(p: nat): (c: seq<byte>)
    requires p < 0x10000
    ensures |c| == 4 && c[3] == 0xFF
    ensures c[0] as nat == (p % 32) * 8 + (p % 32) / 4
    ensures c[1] as nat == ((p / 32) % 64) * 4 + ((p / 32) % 64) / 16
    ensures c[2] as nat == (p / 2048) * 8 + (p / 2048) / 4
  {
    UnpackChannels(p);
    [Or(And(Shl(p, 3), 0xf8), And(Shr(p, 2), 0x07)) as byte,
     Or(And(Shr(p, 3), 0xfc), And(Shr(p, 9), 0x03)) as byte,
     Or(And(Shr(p, 8), 0xf8), And(Shr(p, 13), 0x07)) as byte,
     0xFF]
  }

  /** The three channel expressions of unpackRGB565 in arithmetic form. */
  lemma UnpackChannels(p: nat)
    requires p < 0x10000
    ensures Or(And(Shl(p, 3), 0xf8), And(Shr(p, 2), 0x07)) == (p % 32) * 8 + (p % 32) / 4
    ensures Or(And(Shr(p, 3), 0xfc), And(Shr(p, 9), 0x03)) == ((p / 32) % 64) * 4 + ((p / 32) % 64) / 16
    ensures Or(And(Shr(p, 8), 0xf8), And(Shr(p, 13), 0x07)) == (p / 2048) * 8 + (p / 2048) / 4
  {
    UnpackRed(p);
    UnpackGreen(p);
    UnpackBlue(p);
  }

  lemma UnpackRed(p: nat)
    ensures Or(And(Shl(p, 3), 0xf8), And(Shr(p, 2), 0x07)) == (p % 32) * 8 + (p % 32) / 4
  {
    var r5 := p % 32;
    assert Shr(Shl(p, 3), 3) == p by {
      assert Pow2(3) == 8;
      DivModUnique(Shl(p, 3), 8, p, 0);
    }
    assert Pow2(5) == 32;
    FieldInPlace53(Shl(p, 3), r5);
    ShrMod(p, 2, 3, 5);
    assert Pow2(2) == 4;
    LowField(Shr(p, 2), 3, r5 / 4);
    OrDisjoint(r5, r5 / 4, 3);
  }

  lemma UnpackGreen(p: nat)
    ensures Or(And(Shr(p, 3), 0xfc), And(Shr(p, 9), 0x03)) == ((p / 32) % 64) * 4 + ((p / 32) % 64) / 16
  {
    var g6 := Shr(p, 5) % 64;
    assert Pow2(5) == 32 && Pow2(6) == 64 && Pow2(4) == 16;
    ShrShr(p, 3, 2);
    FieldInPlace62(Shr(p, 3), g6);
    ShrShr(p, 5, 4);
    ShrMod(Shr(p, 5), 4, 2, 6);
    LowField(Shr(p, 9), 2, g6 / 16);
    OrDisjoint(g6, g6 / 16, 2);
  }

  lemma UnpackBlue(p: nat)
    requires p < 0x10000
    ensures Or(And(Shr(p, 8), 0xf8), And(Shr(p, 13), 0x07)) == (p / 2048) * 8 + (p / 2048) / 4
  {
    var b5 := Shr(p, 11);
    assert Pow2(11) == 2048 && Pow2(5) == 32 && Pow2(2) == 4;
    assert b5 < 32;
    ShrShr(p, 8, 3);
    FieldInPlace53(Shr(p, 8), b5);
    ShrShr(p, 11, 2);
    assert Shr(p, 13) == b5 / 4;
    DivModUnique(b5 / 4, 8, 0, b5 / 4);
    LowField(Shr(p, 13), 3, b5 / 4);
    OrDisjoint(b5, b5 / 4, 3);
  }

  /** `a & 0xf8`: the 5-bit field of a at bit 3, kept in place. */
  lemma FieldInPlace53(a: nat, f: nat)
    requires f == Shr(a, 3) % 32
    ensures And(a, 0xf8) == f * 8
  {
    assert Pow2(5) == 32 && Pow2(3) == 8;
    AndShiftedMask(a, 5, 3);
  }

  /** `a & 0xfc`: the 6-bit field of a at bit 2, kept in place. */
  lemma FieldInPlace62(a: nat, f: nat)
    requires f == Shr(a, 2) % 64
    ensures And(a, 0xfc) == f * 4
  {
    assert Pow2(6) == 64 && Pow2(2) == 4;
    AndShiftedMask(a, 6, 2);
  }

  /** `a & (2^n - 1)` with the field value f written out. */
  lemma LowField(a: nat, n: nat, f: nat)
    requires f == a % Pow2(n)
    ensures f < Pow2(n)
    ensures n == 3 ==> And(a, 0x07) == f && f < 8
    ensures n == 2 ==> And(a, 0x03) == f && f < 4
  {
    AndLowMask(a, n);
    if n == 3 {
      assert Pow2(3) == 8;
    }
    if n == 2 {
      assert Pow2(2) == 4;
    }
  }

  /** The top bits of an m-bit field: (p >> s) % 2^w == (p % 2^(s + w)) >> s. */
  lemma ShrMod(p: nat, s: nat, w: nat, m: nat)
    requires m == s + w
    ensures Shr(p, s) % Pow2(w) == (p % Pow2(m)) / Pow2(s)
  {
    Pow2Add(s, w);
    ModDivSwap(p, Pow2(s), Pow2(w));
  }

  // ---------------------------------------------------------------------
  // Colour lookup table

  /** calcCLUT2: the 2:1 blend of the endpoint colours, whatever the order
      of the raw endpoints c0 and c1.  Python's int((2a + b) / 3) truncates a
      non-negative quotient, which is floor division. */
  function CalcClut2(lut0: seq<byte>, lut1: seq<byte>, c0: nat, c1: nat): (c: seq<byte>)
    requires |lut0| >= 3 && |lut1| >= 3
    ensures |c| == 4 && c[3] == 0xFF
    ensures forall ch :: 0 <= ch < 3 ==>
      3 * c[ch] as int <= 2 * lut0[ch] as int + lut1[ch] as int < 3 * c[ch] as int + 3
  {
    [Blend(lut0[0], lut1[0], 2, 1, 3), Blend(lut0[1], lut1[1], 2, 1, 3), Blend(lut0[2], lut1[2], 2, 1, 3), 0xFF]
  }

  /** calcCLUT3: the 1:2 blend of the endpoint colours. */
  function CalcClut3(lut0: seq<byte>, lut1: seq<byte>, c0: nat, c1: nat): (c: seq<byte>)
    requires |lut0| >= 3 && |lut1| >= 3
    ensures |c| == 4 && c[3] == 0xFF
    ensures forall ch :: 0 <= ch < 3 ==>
      3 * c[ch] as int <= lut0[ch] as int + 2 * lut1[ch] as int < 3 * c[ch] as int + 3
  {
    [Blend(lut0[0], lut1[0], 1, 2, 3), Blend(lut0[1], lut1[1], 1, 2, 3), Blend(lut0[2], lut1[2], 1, 2, 3), 0xFF]
  }

  /** (a * wa + b * wb) // d for weights summing to d. */
  function Blend(a: byte, b: byte, wa: nat, wb: nat, d: nat): (r: byte)
    requires d > 0 && wa + wb == d
    ensures (r as int) * d <= a as int * wa + b as int * wb < (r as int) * d + d
  {
    WeightedMean(a as int, b as int, wa, wb);
    ((a as int * wa + b as int * wb) / d) as byte
  }

  /** A blend lies between its two endpoints. */
  lemma BlendBetween(a: byte, b: byte, wa: nat, wb: nat, d: nat)
    requires d > 0 && wa + wb == d
    ensures var r := Blend(a, b, wa, wb, d); (a <= r <= b) || (b <= r <= a)
  {
    WeightedMean(a as int, b as int, wa, wb);
  }

  /** A weighted mean (floor) of two integers lies between them. */
  lemma WeightedMean(a: int, b: int, wa: nat, wb: nat)
    requires wa + wb > 0
    ensures var m := (a * wa + b * wb) / (wa + wb);
            (a <= m <= b) || (b <= m <= a)
  {
    var d := wa + wb;
    var lo, hi := if a <= b then a else b, if a <= b then b else a;
    var s := a * wa + b * wb;
    assert lo * d <= s <= hi * d by {
      MulLeInt(lo, a, wa);
      MulLeInt(lo, b, wb);
      MulLeInt(a, hi, wa);
      MulLeInt(b, hi, wb);
    }
    DivBetween(s, d, lo, hi);
  }

  lemma MulLeInt(a: int, b: int, c: nat)
    requires a <= b
    ensures a * c <= b * c
  {
  }

  lemma DivBetween(s: int, d: nat, lo: int, hi: int)
    requires d > 0 && lo * d <= s <= hi * d
    ensures lo <= s / d <= hi
  {
    var q := s / d;
    assert q * d <= s < q * d + d;
    if q < lo {
      MulLeInt(q + 1, lo, d);
    }
    if q > hi {
      MulLeInt(hi + 1, q, d);
    }
  }

  /** The colour lookup table decodeTile builds for endpoints c0, c1. */
  function Clut(c0: nat, c1: nat): (clut: seq<seq<byte>>)
    requires c0 < 0x10000 && c1 < 0x10000
    ensures |clut| == 4 && forall i :: 0 <= i < 4 ==> |clut[i]| == 4
  {
    var lut0, lut1 := UnpackRgb565(c0), UnpackRgb565(c1);
    [lut0, lut1, CalcClut2(lut0, lut1, c0, c1), CalcClut3(lut0, lut1, c0, c1)]
  }

  // ---------------------------------------------------------------------
  // decodeTile

  /** The 2-bit palette index of texel k (row-major) in the index word. */
  function TexelIndex(idxs: nat, k: nat): (i: nat)
    ensures i < 4
  {
    LowField(Shr(idxs, 2 * k), 2, Shr(idxs, 2 * k) % Pow2(2));
    And(Shr(idxs, 2 * k), 3)
  }

  /** decodeTile: reads the (c0, c1, idxs) header of an 8-byte BC1 tile and
      writes 16 RGBA texels in row-major order, texel k taking palette entry
      (idxs >> 2k) & 3.  A header that runs past the end of the data raises. */
  method DecodeTile(data: seq<byte>, offs: nat) returns (r: Result<seq<byte>>)
    ensures offs + 8 > |data| ==> r == Err(OutOfBounds(offs))
    ensures offs + 8 <= |data| ==>
      var c0, c1, idxs := LeUint(data, offs, 2), LeUint(data, offs + 2, 2), LeUint(data, offs + 4, 4);
      r.Ok? && |r.value| == 64 &&
      forall i :: 0 <= i < 64 ==> r.value[i] == Clut(c0, c1)[TexelIndex(idxs, i / 4)][i % 4]
  {
    if offs + 8 > |data| {
      return Err(OutOfBounds(offs));
    }
    var c0 := LeUint(data, offs, 2);
    var c1 := LeUint(data, offs + 2, 2);
    var idxs := LeUint(data, offs + 4, 4);
    assert Pow2(16) == 0x10000 by {
      Pow2Add(8, 8);
    }
    var clut: seq<seq<byte>> := [];
    clut := clut + [UnpackRgb565(c0)];
    clut := clut + [UnpackRgb565(c1)];
    clut := clut + [CalcClut2(clut[0], clut[1], c0, c1)];
    clut := clut + [CalcClut3(clut[0], clut[1], c0, c1)];
    assert clut == Clut(c0, c1);

    var texels := FillTexels(clut, idxs);
    r := Ok(texels);
  }

  /** The texel loop of decodeTile: texel k of 16, in row-major order, gets
      palette entry (idxs >> 2k) & 3. */
  method FillTexels(clut: seq<seq<byte>>, idxs: nat) returns (texels: seq<byte>)
    requires |clut| == 4 && forall i :: 0 <= i < 4 ==> |clut[i]| == 4
    ensures |texels| == 64
    ensures forall i :: 0 <= i < 64 ==> texels[i] == clut[TexelIndex(idxs, i / 4)][i % 4]
  {
    var idxshift := 0;
    var output := new byte[4 * 4 * 4](_ => 0);
    var out := 0;
    for ty := 0 to 4
      invariant out == 16 * ty && idxshift == 2 * (4 * ty)
      invariant forall i :: 0 <= i < out ==> output[i] == clut[TexelIndex(idxs, i / 4)][i % 4]
    {
      for tx := 0 to 4
        invariant out == 16 * ty + 4 * tx && idxshift == 2 * (4 * ty + tx)
        invariant forall i :: 0 <= i < out ==> output[i] == clut[TexelIndex(idxs, i / 4)][i % 4]
      {
        var i := And(Shr(idxs, idxshift), 3);
        assert i == TexelIndex(idxs, out / 4);
        PutTexel(output, out, clut[i]);
        forall j | out <= j < out + 4
          ensures output[j] == clut[TexelIndex(idxs, j / 4)][j % 4]
        {
          assert j / 4 == out / 4 && j % 4 == j - out;
        }
        idxshift := idxshift + 2;
        out := out + 4;
      }
    }
    texels := output[..];
  }

  /** output[out : out + 4] = texel, for a 4-byte texel that fits. */
  method PutTexel(output: array<byte>, out: nat, texel: seq<byte>)
    requires |texel| == 4 && out + 4 <= output.Length
    modifies output
    ensures forall j :: 0 <= j < output.Length ==>
      output[j] == if out <= j < out + 4 then texel[j - out] else old(output[j])
  {
    output[out] := texel[0];
    output[out + 1] := texel[1];
    output[out + 2] := texel[2];
    output[out + 3] := texel[3];
  }

  // ---------------------------------------------------------------------
  // decodeAlpha / decodeAlphaSigned

  /** decodeAlpha: entry `bits & 7` of the 8-entry ramp between the endpoint
      bytes a0 and a1.  With a0 > a1 the six inner entries interpolate in
      sevenths; otherwise four entries interpolate in fifths and the last two
      are 0 and 255. */
  function DecodeAlpha(bits: nat, a0: byte, a1: byte): (v: byte)
    ensures var code := bits % 8;
      (code == 0 ==> v == a0) && (code == 1 ==> v == a1) &&
      (code == 6 && a0 <= a1 ==> v == 0) && (code == 7 && a0 <= a1 ==> v == 255)
  {
    var code := And(bits, 0x07);
    LowField(bits, 3, bits % Pow2(3));
    assert Pow2(3) == 8;
    if code == 0 then a0
    else if code == 1 then a1
    else if a0 > a1 then Blend(a0, a1, 8 - code, code - 1, 7)
    else if code < 6 then Blend(a0, a1, 6 - code, code - 1, 5)
    else if code == 6 then 0
    else 255
  }

  /** What decodeAlpha computes for each code: the weights of the two ramps. */
  lemma DecodeAlphaRamp(bits: nat, a0: byte, a1: byte)
    ensures var code, v := bits % 8, DecodeAlpha(bits, a0, a1);
      (2 <= code && a0 > a1 ==> 7 * v as int <= a0 as int * (8 - code) + a1 as int * (code - 1) < 7 * v as int + 7) &&
      (2 <= code < 6 && a0 <= a1 ==> 5 * v as int <= a0 as int * (6 - code) + a1 as int * (code - 1) < 5 * v as int + 5)
  {
    LowField(bits, 3, bits % Pow2(3));
    assert Pow2(3) == 8;
  }

  /** Every interpolated entry lies between the endpoints. */
  lemma DecodeAlphaBetween(bits: nat, a0: byte, a1: byte)
    ensures var code, v := bits % 8, DecodeAlpha(bits, a0, a1);
      2 <= code && (a0 > a1 || code < 6) ==> (a0 <= v <= a1) || (a1 <= v <= a0)
  {
    LowField(bits, 3, bits % Pow2(3));
    assert Pow2(3) == 8;
    var code := bits % 8;
    if 2 <= code && a0 > a1 {
      BlendBetween(a0, a1, 8 - code, code - 1, 7);
    } else if 2 <= code < 6 {
      BlendBetween(a0, a1, 6 - code, code - 1, 5);
    }
  }

  /** decodeAlphaSigned: the same ramp on the endpoints read as signed
      bytes, each inner entry re-encoded as a byte; its last two entries are
      0x80 (-128) and 0x7F (127).  The code is not masked: a code of 8 or
      more falls into the interpolation or the 0x7F branch. */
  function DecodeAlphaSigned(code: nat, a0: byte, a1: byte): (v: byte)
    ensures code == 0 ==> v == a0
    ensures code == 1 ==> v == a1
    ensures ToSigned8(a0 as int) <= ToSigned8(a1 as int) ==> (code == 6 ==> v == 0x80) && (code >= 7 ==> v == 0x7f)
  {
    var s0, s1 := ToSigned8(a0 as int), ToSigned8(a1 as int);
    if code == 0 then a0
    else if code == 1 then a1
    else if s0 > s1 then SignedBlend(s0, s1, 8 - code, code - 1, 7)
    else if code < 6 then SignedBlend(s0, s1, 6 - code, code - 1, 5)
    else if code == 6 then 0x80
    else 0x7f
  }

  /** Every interpolated signed entry, read back as a signed byte, is the
      floor mean of the signed endpoints and lies between them. */
  lemma DecodeAlphaSignedBetween(code: nat, a0: byte, a1: byte)
    requires 2 <= code < 8
    ensures var s0, s1 := ToSigned8(a0 as int), ToSigned8(a1 as int);
      var s := ToSigned8(DecodeAlphaSigned(code, a0, a1) as int);
      (s0 > s1 ==> s == (s0 * (8 - code) + s1 * (code - 1)) / 7) &&
      (s0 <= s1 && code < 6 ==> s == (s0 * (6 - code) + s1 * (code - 1)) / 5) &&
      (s0 > s1 || code < 6 ==> (s0 <= s <= s1) || (s1 <= s <= s0))
  {
    var s0, s1 := ToSigned8(a0 as int), ToSigned8(a1 as int);
    if s0 > s1 {
      SignedBlendMean(s0, s1, 8 - code, code - 1, 7);
    } else if code < 6 {
      SignedBlendMean(s0, s1, 6 - code, code - 1, 5);
    }
  }

  /** ToUnsigned8((s0 * w0 + s1 * w1) // d).  The weights sum to d for the
      codes 2 .. 7; larger codes make w0 negative, so the mean can leave the
      8-bit range and is then saturated. */
  function SignedBlend(s0: int, s1: int, w0: int, w1: int, d: nat): (v: byte)
    requires d > 0
  {
    ToUnsigned8((s0 * w0 + s1 * w1) / d) as byte
  }

  /** With non-negative weights the mean stays in the signed-byte range, so
      reading the entry back as a signed byte gives the mean itself. */
  lemma SignedBlendMean(s0: int, s1: int, w0: int, w1: int, d: nat)
    requires d > 0 && w0 >= 0 && w1 >= 0 && w0 + w1 == d && -128 <= s0 <= 127 && -128 <= s1 <= 127
    ensures var m, s := (s0 * w0 + s1 * w1) / d, ToSigned8(SignedBlend(s0, s1, w0, w1, d) as int);
      s == m && ((s0 <= s <= s1) || (s1 <= s <= s0))
  {
    var m := (s0 * w0 + s1 * w1) / d;
    WeightedMean(s0, s1, w0, w1);
    RoundTrips(0, m);
  }
}
