/** The image loops of the libtxc_dxtn-style decoders: decompressDXT1,
    decompressDXT5, decompressBC4 and decompressBC5 visit the image block by
    block and, inside a block, texel by texel, and write each texel at its
    row-major position. */
module DecompressImages {
  import opened Bits
  import opened Signed8
  import opened Raster
  import BcBase
  import Swizzle
  import Decompress

  lemma Pow16()
    ensures Pow2(16) == 0x10000
  {
    Pow2Add(8, 8);
  }

  /** The block column (row) of a pixel column (row) p < n is below DIV_ROUND_UP(n, 4). */
  lemma BlockOfPixel(n: nat, p: nat)
    requires p < n
    ensures p / 4 < Swizzle.DivRoundUp(n, 4)
  {
    Swizzle.DivRoundUpIsCeiling(n, 4);
  }

  /** The first byte of the size-byte block that holds pixel (px, py):
      blocks are stored row by row, DIV_ROUND_UP(width, 4) to a row. */
  function BlockStart(width: nat, height: nat, px: nat, py: nat, size: nat): (s: nat)
    requires px < width && py < height
    ensures s + size <= Swizzle.DivRoundUp(width, 4) * Swizzle.DivRoundUp(height, 4) * size
  {
    var w, h := Swizzle.DivRoundUp(width, 4), Swizzle.DivRoundUp(height, 4);
    BlockOfPixel(width, px);
    BlockOfPixel(height, py);
    assert size > 0 ==> At(w, h, px / 4, py / 4, size, size - 1) < w * h * size;
    At(w, h, px / 4, py / 4, size, 0)
  }

  /** Texel (tx, ty) of block (x, y), with tx below the texel-row length
      tw, is a pixel of the image when width is a multiple of 4 or below 4. */
  lemma TexelInImage(width: nat, x: nat, tx: nat)
    requires width % 4 == 0 || width < 4
    requires x < Swizzle.DivRoundUp(width, 4) && tx < (if width < 4 then width else 4)
    ensures 4 * x + tx < width
  {
    if width >= 4 {
      DivModUnique(width + 3, 4, width / 4, 3);
    }
  }

  /** DIV_ROUND_UP(n, 4) blocks of 4 cover n. */
  lemma BlocksCover(n: nat)
    ensures 4 * Swizzle.DivRoundUp(n, 4) >= n
  {
    Swizzle.DivRoundUpIsCeiling(n, 4);
  }

  /** Pixel (px, py) = (4x + tx, 4y + ty) lies in block (x, y) at texel (tx, ty). */
  lemma TexelOfPixel(x: nat, y: nat, tx: nat, ty: nat, px: nat, py: nat)
    requires tx < 4 && ty < 4 && px == 4 * x + tx && py == 4 * y + ty
    ensures px / 4 == x && px % 4 == tx
    ensures py / 4 == y && py % 4 == ty
  {
    DivModUnique(px, 4, x, tx);
    DivModUnique(py, 4, y, ty);
  }

  // ---------------------------------------------------------------------
  // decompressDXT1

  /** Texel (tx, ty) of the BC1 block at blksrc, in a texel row of tw
      texels: the palette entry picked by the 2-bit index at shift
      2 * (ty * tw + tx), since the index shift only counts the texels the
      loop visits. */
  function Dxt1BlockTexel(data: seq<byte>, blksrc: nat, tw: nat, tx: nat, ty: nat): (t: seq<byte>)
    requires blksrc + 8 <= |data|
    ensures |t| == 4
  {
    Pow16();
    var c0, c1, bits := LeUint(data, blksrc, 2), LeUint(data, blksrc + 2, 2), LeUint(data, blksrc + 4, 4);
    Decompress.Palette(c0, c1, true)[BcBase.TexelIndex(bits, ty * tw + tx)]
  }

  /** Pixel (px, py) of a BC1 image: texel (px % 4, py % 4) of its block,
      with texel rows as long as the width when it is below 4. */
  function Dxt1Texel(data: seq<byte>, width: nat, height: nat, px: nat, py: nat): (t: seq<byte>)
    requires px < width && py < height
    requires |data| >= Swizzle.DivRoundUp(width, 4) * Swizzle.DivRoundUp(height, 4) * 8
    ensures |t| == 4
  {
    Dxt1BlockTexel(data, BlockStart(width, height, px, py, 8), if width < 4 then width else 4, px % 4, py % 4)
  }

  /** The decoded BC1 image: width * height RGBA pixels, row by row. */
  function Dxt1Image(data: seq<byte>, width: nat, height: nat): (img: seq<byte>)
    requires |data| >= Swizzle.DivRoundUp(width, 4) * Swizzle.DivRoundUp(height, 4) * 8
    ensures |img| == width * height * 4
  {
    seq(width * height * 4, i requires 0 <= i < width * height * 4 =>
      Dxt1Texel(data, width, height, PixelX(width, height, 4, i), PixelY(width, height, 4, i))[PixelC(width, height, 4, i)])
  }

  /** Byte c of pixel (px, py) of the decoded image is byte c of its texel. */
  lemma Dxt1ImageAt(data: seq<byte>, width: nat, height: nat, px: nat, py: nat)
    requires |data| >= Swizzle.DivRoundUp(width, 4) * Swizzle.DivRoundUp(height, 4) * 8
    requires px < width && py < height
    ensures forall c: nat :: c < 4 ==>
      Dxt1Image(data, width, height)[At(width, height, px, py, 4, c)] == Dxt1Texel(data, width, height, px, py)[c]
  {
    forall c: nat | c < 4
      ensures Dxt1Image(data, width, height)[At(width, height, px, py, 4, c)] == Dxt1Texel(data, width, height, px, py)[c]
    {
      AtPixel(width, height, px, py, 4, c);
    }
  }

  /** Pixel (px, py) of img holds its BC1 texel. */
  ghost predicate Dxt1PixelIs(img: seq<byte>, data: seq<byte>, width: nat, height: nat, px: nat, py: nat)
    requires px < width && py < height
    requires |data| >= Swizzle.DivRoundUp(width, 4) * Swizzle.DivRoundUp(height, 4) * 8
  {
    forall c: nat :: c < 4 ==>
      At(width, height, px, py, 4, c) < |img| &&
      img[At(width, height, px, py, 4, c)] == Dxt1Texel(data, width, height, px, py)[c]
  }

  /** img holds the BC1 texel of each of its pixels, stated pixel by pixel
      so that a single pixel is looked at only where it is written. */
  ghost predicate Dxt1Drawn(img: seq<byte>, data: seq<byte>, width: nat, height: nat)
  {
    && |data| >= Swizzle.DivRoundUp(width, 4) * Swizzle.DivRoundUp(height, 4) * 8
    && |img| == width * height * 4
    && forall px: nat, py: nat :: px < width && py < height ==> Dxt1PixelIs(img, data, width, height, px, py)
  }

  /** The decoded image is drawn pixel by pixel. */
  lemma Dxt1ImageDrawn(data: seq<byte>, width: nat, height: nat)
    requires |data| >= Swizzle.DivRoundUp(width, 4) * Swizzle.DivRoundUp(height, 4) * 8
    ensures Dxt1Drawn(Dxt1Image(data, width, height), data, width, height)
  {
    var img := Dxt1Image(data, width, height);
    forall px: nat, py: nat | px < width && py < height
      ensures Dxt1PixelIs(img, data, width, height, px, py)
    {
      Dxt1ImageAt(data, width, height, px, py);
      forall c: nat | c < 4 ensures At(width, height, px, py, 4, c) < |img| {
        InBounds(width, height, px, py, 4, c);
      }
    }
  }

  /** A block whose 32 index bits are all zero paints every one of its
      pixels with colour 0, the decoded first endpoint. */
  lemma Dxt1ZeroIndices(data: seq<byte>, blksrc: nat, tw: nat, tx: nat, ty: nat)
    requires blksrc + 8 <= |data|
    requires LeUint(data, blksrc + 4, 4) == 0
    ensures Dxt1BlockTexel(data, blksrc, tw, tx, ty) == Decompress.DecodeRgb565(LeUint(data, blksrc, 2))
  {
    var k := ty * tw + tx;
    assert Shr(0, 2 * k) == 0;
    assert BcBase.TexelIndex(0, k) == 0 by {
      AndLowMask(0, 2);
    }
    Pow16();
  }

  /** decompressDXT1: width * height RGBA pixels, each the palette entry of
      its block that its index selects.  Widths and heights that are neither
      multiples of 4 nor below 4 would make Python's slice assignments grow
      the buffer, and are excluded. */
  method DecompressDxt1(data: seq<byte>, width: nat, height: nat) returns (out: seq<byte>)
    requires (width % 4 == 0 || width < 4) && (height % 4 == 0 || height < 4)
    requires |data| >= Swizzle.DivRoundUp(width, 4) * Swizzle.DivRoundUp(height, 4) * 8
    ensures out == Dxt1Image(data, width, height)
  {
    ghost var img := Dxt1Image(data, width, height);
    Dxt1ImageDrawn(data, width, height);
    var output := new byte[width * height * 4](_ => 0);
    var h := Swizzle.DivRoundUp(height, 4);
    var w := Swizzle.DivRoundUp(width, 4);
    BlocksCover(width);
    FillNone(output[..], img, width, height, 4);
    for y := 0 to h
      invariant Filled(output[..], img, width, height, 4, 0, y, 0, 0)
    {
      for x := 0 to w
        invariant Filled(output[..], img, width, height, 4, x, y, 0, 0)
      {
        Dxt1Block(output, img, data, width, height, x, y);
      }
      FillBlockRowEnd(output[..], img, width, height, 4, w, y);
    }
    FillAll(output[..], img, width, height, 4, h);
    out := output[..];
  }

  /** The palette entry that the 2-bit index at shift picks is pixel
      (px, py) of img. */
  ghost predicate Dxt1TexelReady(img: seq<byte>, width: nat, height: nat, px: nat, py: nat,
                                 rgba: seq<seq<byte>>, bits: nat, shift: nat)
  {
    var idx := And(Shr(bits, shift), 3);
    && px < width && py < height && idx < |rgba| && |rgba[idx]| == 4
    && forall c: nat :: c < 4 ==> At(width, height, px, py, 4, c) < |img| && img[At(width, height, px, py, 4, c)] == rgba[idx][c]
  }

  /** Texel (tx, ty) of block (x, y) is ready at shift. */
  ghost predicate Dxt1BlockTexelReady(img: seq<byte>, width: nat, height: nat, x: nat, y: nat, tx: nat, ty: nat,
                                      rgba: seq<seq<byte>>, bits: nat, shift: nat)
  {
    Dxt1TexelReady(img, width, height, x * 4 + tx, y * 4 + ty, rgba, bits, shift)
  }

  /** Every texel of block (x, y), at the shift the loops reach it with, is
      the entry of the block's palette that the shift selects. */
  lemma Dxt1BlockReady(img: seq<byte>, data: seq<byte>, width: nat, height: nat, x: nat, y: nat,
                       tw: nat, th: nat, blksrc: nat, rgba: seq<seq<byte>>, bits: nat)
    requires (width % 4 == 0 || width < 4) && (height % 4 == 0 || height < 4)
    requires Dxt1Drawn(img, data, width, height)
    requires x < Swizzle.DivRoundUp(width, 4) && y < Swizzle.DivRoundUp(height, 4)
    requires tw == (if width < 4 then width else 4) && th == (if height < 4 then height else 4)
    requires blksrc == (y * Swizzle.DivRoundUp(width, 4) + x) * 8 && blksrc + 8 <= |data|
    requires rgba == Decompress.Palette(LeUint(data, blksrc, 2), LeUint(data, blksrc + 2, 2), true)
    requires bits == LeUint(data, blksrc + 4, 4)
    ensures forall tx: nat, ty: nat, shift: nat :: tx < tw && ty < th && shift == 2 * (ty * tw + tx) ==>
      Dxt1BlockTexelReady(img, width, height, x, y, tx, ty, rgba, bits, shift)
  {
    forall tx: nat, ty: nat, shift: nat | tx < tw && ty < th && shift == 2 * (ty * tw + tx)
      ensures Dxt1BlockTexelReady(img, width, height, x, y, tx, ty, rgba, bits, shift)
    {
      Dxt1TexelAt(img, data, width, height, x, y, tw, th, blksrc, rgba, bits, tx, ty, x * 4 + tx, y * 4 + ty, shift);
    }
  }

  /** Texel (tx, ty) of block (x, y), pixel (px, py), reached at shift
      2 * (ty * tw + tx). */
  lemma Dxt1TexelAt(img: seq<byte>, data: seq<byte>, width: nat, height: nat, x: nat, y: nat,
                    tw: nat, th: nat, blksrc: nat, rgba: seq<seq<byte>>, bits: nat,
                    tx: nat, ty: nat, px: nat, py: nat, shift: nat)
    requires (width % 4 == 0 || width < 4) && (height % 4 == 0 || height < 4)
    requires Dxt1Drawn(img, data, width, height)
    requires x < Swizzle.DivRoundUp(width, 4) && y < Swizzle.DivRoundUp(height, 4)
    requires tw == (if width < 4 then width else 4) && th == (if height < 4 then height else 4)
    requires blksrc == (y * Swizzle.DivRoundUp(width, 4) + x) * 8 && blksrc + 8 <= |data|
    requires rgba == Decompress.Palette(LeUint(data, blksrc, 2), LeUint(data, blksrc + 2, 2), true)
    requires bits == LeUint(data, blksrc + 4, 4)
    requires tx < tw && ty < th && px == x * 4 + tx && py == y * 4 + ty && shift == 2 * (ty * tw + tx)
    ensures Dxt1TexelReady(img, width, height, px, py, rgba, bits, shift)
  {
    TexelInImage(width, x, tx);
    TexelInImage(height, y, ty);
    Dxt1Selects(data, blksrc, tw, tx, ty, rgba, bits, shift);
    Dxt1Pixel(data, width, height, x, y, tx, ty, px, py, blksrc);
    assert Dxt1PixelIs(img, data, width, height, px, py);
  }

  /** The body of the block loop of decompressDXT1 for block (x, y): the
      block's palette and index bits, then its texels. */
  method Dxt1Block(output: array<byte>, ghost img: seq<byte>, data: seq<byte>, width: nat, height: nat, x: nat, y: nat)
    requires (width % 4 == 0 || width < 4) && (height % 4 == 0 || height < 4)
    requires |data| >= Swizzle.DivRoundUp(width, 4) * Swizzle.DivRoundUp(height, 4) * 8
    requires Dxt1Drawn(img, data, width, height)
    requires x < Swizzle.DivRoundUp(width, 4) && y < Swizzle.DivRoundUp(height, 4)
    requires output.Length == width * height * 4
    requires Filled(output[..], img, width, height, 4, x, y, 0, 0)
    modifies output
    ensures Filled(output[..], img, width, height, 4, x + 1, y, 0, 0)
  {
    var h := Swizzle.DivRoundUp(height, 4);
    var w := Swizzle.DivRoundUp(width, 4);
    var th := if height < 4 then height else 4;
    var tw := if width < 4 then width else 4;
    var blksrc := At(w, h, x, y, 8, 0);
    InBounds(w, h, x, y, 8, 7);
    var rgba, bits := Decompress.Dxt135ImageBlock(data, blksrc, true);
    Dxt1BlockReady(img, data, width, height, x, y, tw, th, blksrc, rgba, bits);
    Dxt1Texels(output, img, width, height, x, y, tw, th, rgba, bits);
  }

  /** The texel loops of decompressDXT1 for block (x, y): th rows of tw
      texels, the index shift advancing by two per texel. */
  method Dxt1Texels(output: array<byte>, ghost img: seq<byte>, width: nat, height: nat, x: nat, y: nat,
                    tw: nat, th: nat, rgba: seq<seq<byte>>, bits: nat)
    requires tw <= 4 && (tw == 4 || 4 * x + tw >= width) && th <= 4 && (th == 4 || 4 * y + th >= height)
    requires forall tx: nat, ty: nat, shift: nat :: tx < tw && ty < th && shift == 2 * (ty * tw + tx) ==>
      Dxt1BlockTexelReady(img, width, height, x, y, tx, ty, rgba, bits, shift)
    requires output.Length == width * height * 4
    requires Filled(output[..], img, width, height, 4, x, y, 0, 0)
    modifies output
    ensures Filled(output[..], img, width, height, 4, x + 1, y, 0, 0)
  {
    var shift := 0;
    for ty := 0 to th
      invariant shift == 2 * (ty * tw)
      invariant Filled(output[..], img, width, height, 4, x, y, 0, ty)
    {
      for tx := 0 to tw
        invariant shift == 2 * (ty * tw + tx)
        invariant Filled(output[..], img, width, height, 4, x, y, tx, ty)
      {
        var px, py := x * 4 + tx, y * 4 + ty;
        Dxt1PutTexel(output, img, width, height, x, y, tx, ty, px, py, rgba, bits, shift);
        shift := shift + 2;
      }
      FillRowEnd(output[..], img, width, height, 4, x, y, tw, ty);
      MulSucc(ty, tw);
    }
    FillBlockEnd(output[..], img, width, height, 4, x, y, th);
  }

  /** The body of the texel loop of decompressDXT1: the index at the running
      shift picks a palette entry, written at pixel (4x + tx, 4y + ty). */
  method Dxt1PutTexel(output: array<byte>, ghost img: seq<byte>, width: nat, height: nat,
                      x: nat, y: nat, tx: nat, ty: nat, px: nat, py: nat, rgba: seq<seq<byte>>, bits: nat, shift: nat)
    requires tx < 4 && ty < 4 && px == x * 4 + tx && py == y * 4 + ty
    requires Dxt1BlockTexelReady(img, width, height, x, y, tx, ty, rgba, bits, shift)
    requires output.Length == width * height * 4
    requires Filled(output[..], img, width, height, 4, x, y, tx, ty)
    modifies output
    ensures Filled(output[..], img, width, height, 4, x, y, tx + 1, ty)
  {
    var idx := And(Shr(bits, shift), 3);
    PutFilled(output, img, width, height, 4, x, y, tx, ty, px, py, rgba[idx]);
  }

  /** The 2-bit index at the running shift picks the block's texel from the
      palette decoded for the block. */
  lemma Dxt1Selects(data: seq<byte>, blksrc: nat, tw: nat, tx: nat, ty: nat, rgba: seq<seq<byte>>, bits: nat, shift: nat)
    requires blksrc + 8 <= |data|
    requires rgba == Decompress.Palette(LeUint(data, blksrc, 2), LeUint(data, blksrc + 2, 2), true)
    requires bits == LeUint(data, blksrc + 4, 4) && shift == 2 * (ty * tw + tx)
    ensures And(Shr(bits, shift), 3) < |rgba|
    ensures rgba[And(Shr(bits, shift), 3)] == Dxt1BlockTexel(data, blksrc, tw, tx, ty)
  {
    assert And(Shr(bits, shift), 3) == BcBase.TexelIndex(bits, ty * tw + tx);
    Pow16();
  }

  /** The texel the DXT1 loop writes at (tx, ty) of block (x, y) is the
      image's pixel (4x + tx, 4y + ty). */
  lemma Dxt1Pixel(data: seq<byte>, width: nat, height: nat, x: nat, y: nat, tx: nat, ty: nat, px: nat, py: nat, blksrc: nat)
    requires |data| >= Swizzle.DivRoundUp(width, 4) * Swizzle.DivRoundUp(height, 4) * 8
    requires tx < 4 && ty < 4 && px == 4 * x + tx < width && py == 4 * y + ty < height
    requires blksrc == (y * Swizzle.DivRoundUp(width, 4) + x) * 8
    ensures blksrc + 8 <= |data|
    ensures Dxt1Texel(data, width, height, px, py) == Dxt1BlockTexel(data, blksrc, if width < 4 then width else 4, tx, ty)
  {
    TexelOfPixel(x, y, tx, ty, px, py);
    assert BlockStart(width, height, px, py, 8) == blksrc;
  }

  // ---------------------------------------------------------------------
  // decompressDXT5

  /** The 3-bit alpha code at bit `shift` of the 48 index bits. */
  function AlphaCode(v: nat, shift: nat): (code: nat)
    ensures code < 8 && code == Shr(v, shift) % 8
  {
    BcBase.LowField(Shr(v, shift), 3, Shr(v, shift) % Pow2(3));
    assert Pow2(3) == 8;
    And(Shr(v, shift), 7)
  }

  /** Texel (tx, ty) of the BC3 block at blksrc: the colour channels of the
      four-colour palette of the colour half (bytes 8..15), and the alpha
      ramp entry that the texel's 3-bit code picks (bytes 0..7). */
  function Dxt5BlockTexel(data: seq<byte>, blksrc: nat, tx: nat, ty: nat): (t: seq<byte>)
    requires blksrc + 16 <= |data|
    ensures |t| == 4
  {
    Pow16();
    var tile := Decompress.Palette(LeUint(data, blksrc + 8, 2), LeUint(data, blksrc + 10, 2), false);
    var bits, alpha := LeUint(data, blksrc + 12, 4), LeUint(data, blksrc + 2, 6);
    tile[BcBase.TexelIndex(bits, ty * 4 + tx)][..3] +
      [BcBase.DecodeAlpha(AlphaCode(alpha, ty * 12 + tx * 3), data[blksrc], data[blksrc + 1])]
  }

  /** Pixel (px, py) of a BC3 image: texel (px % 4, py % 4) of its 16-byte block. */
  function Dxt5Texel(data: seq<byte>, width: nat, height: nat, px: nat, py: nat): (t: seq<byte>)
    requires px < width && py < height
    requires |data| >= Swizzle.DivRoundUp(width, 4) * Swizzle.DivRoundUp(height, 4) * 16
    ensures |t| == 4
  {
    Dxt5BlockTexel(data, BlockStart(width, height, px, py, 16), px % 4, py % 4)
  }

  /** The decoded BC3 image: width * height RGBA pixels, row by row. */
  function Dxt5Image(data: seq<byte>, width: nat, height: nat): (img: seq<byte>)
    requires |data| >= Swizzle.DivRoundUp(width, 4) * Swizzle.DivRoundUp(height, 4) * 16
    ensures |img| == width * height * 4
  {
    seq(width * height * 4, i requires 0 <= i < width * height * 4 =>
      Dxt5Texel(data, width, height, PixelX(width, height, 4, i), PixelY(width, height, 4, i))[PixelC(width, height, 4, i)])
  }

  lemma Dxt5ImageAt(data: seq<byte>, width: nat, height: nat, px: nat, py: nat)
    requires |data| >= Swizzle.DivRoundUp(width, 4) * Swizzle.DivRoundUp(height, 4) * 16
    requires px < width && py < height
    ensures forall c: nat :: c < 4 ==>
      Dxt5Image(data, width, height)[At(width, height, px, py, 4, c)] == Dxt5Texel(data, width, height, px, py)[c]
  {
    forall c: nat | c < 4
      ensures Dxt5Image(data, width, height)[At(width, height, px, py, 4, c)] == Dxt5Texel(data, width, height, px, py)[c]
    {
      AtPixel(width, height, px, py, 4, c);
    }
  }

  /** A BC3 texel whose alpha code is 0 or 1 takes that endpoint byte itself. */
  lemma Dxt5AlphaEndpoints(data: seq<byte>, blksrc: nat, tx: nat, ty: nat)
    requires blksrc + 16 <= |data|
    ensures var code := AlphaCode(LeUint(data, blksrc + 2, 6), ty * 12 + tx * 3);
      var t := Dxt5BlockTexel(data, blksrc, tx, ty);
      (code == 0 ==> t[3] == data[blksrc]) && (code == 1 ==> t[3] == data[blksrc + 1])
  {
    Pow16();
  }

  /** A BC3 texel whose colour index is 0 has the colour channels of the
      decoded first endpoint. */
  lemma Dxt5ColorEndpoint(data: seq<byte>, blksrc: nat, tx: nat, ty: nat)
    requires blksrc + 16 <= |data|
    requires BcBase.TexelIndex(LeUint(data, blksrc + 12, 4), ty * 4 + tx) == 0
    ensures (Pow16(); Dxt5BlockTexel(data, blksrc, tx, ty)[..3] == Decompress.DecodeRgb565(LeUint(data, blksrc + 8, 2))[..3])
  {
    Pow16();
  }

  /** A block of the image lies in the image when width is a multiple of 4. */
  lemma FullTexelInImage(width: nat, x: nat, tx: nat)
    requires width % 4 == 0 && x < Swizzle.DivRoundUp(width, 4) && tx < 4
    ensures 4 * x + tx < width
  {
    DivModUnique(width + 3, 4, width / 4, 3);
  }

  /** decompressDXT5: width * height RGBA pixels, the colour from the colour
      half of each block and the alpha from its alpha half.  The texel loops
      always run over 4 x 4 texels, so widths and heights that are not
      multiples of 4 would write outside the rows, and are excluded unless
      the image is empty (then a loop runs no block and nothing is
      written). */
  method DecompressDxt5(data: seq<byte>, width: nat, height: nat) returns (out: seq<byte>)
    requires (width % 4 == 0 && height % 4 == 0) || width == 0 || height == 0
    requires |data| >= Swizzle.DivRoundUp(width, 4) * Swizzle.DivRoundUp(height, 4) * 16
    ensures out == Dxt5Image(data, width, height)
  {
    ghost var img := Dxt5Image(data, width, height);
    var output := new byte[width * height * 4](_ => 0);
    var h := Swizzle.DivRoundUp(height, 4);
    var w := Swizzle.DivRoundUp(width, 4);
    BlocksCover(width);
    FillNone(output[..], img, width, height, 4);
    for y := 0 to h
      invariant Filled(output[..], img, width, height, 4, 0, y, 0, 0)
    {
      for x := 0 to w
        invariant Filled(output[..], img, width, height, 4, x, y, 0, 0)
      {
        Dxt5Block(output, img, data, width, height, x, y);
      }
      FillBlockRowEnd(output[..], img, width, height, 4, w, y);
    }
    FillAll(output[..], img, width, height, 4, h);
    out := output[..];
  }

  /** Outside the multiples of 4, texel (3, 3) of the last block of
      decompressDXT5's loops lands at or past the end of the
      width * height * 4 byte output, so the alpha store after it raises
      IndexError: the inputs DecompressDxt5 excludes are ones on which the
      source raises. */
  lemma Dxt5LastTexelPastEnd(width: nat, height: nat)
    requires width >= 1 && height >= 1 && (width % 4 != 0 || height % 4 != 0)
    ensures var w, h := Swizzle.DivRoundUp(width, 4), Swizzle.DivRoundUp(height, 4);
      w >= 1 && h >= 1 && ((4 * (h - 1) + 3) * width + 4 * (w - 1) + 3) * 4 >= width * height * 4
  {
    var w, h := Swizzle.DivRoundUp(width, 4), Swizzle.DivRoundUp(height, 4);
    Swizzle.DivRoundUpIsCeiling(width, 4);
    Swizzle.DivRoundUpIsCeiling(height, 4);
    var rows, cols := 4 * (h - 1) + 3, 4 * (w - 1) + 3;
    if width % 4 != 0 {
      assert cols >= width;
      MulLe(height - 1, rows, width);
      assert (height - 1) * width + width == height * width;
    } else {
      assert rows >= height;
      MulLe(height, rows, width);
    }
  }

  /** The body of the block loop of decompressDXT5 for block (x, y). */
  method Dxt5Block(output: array<byte>, ghost img: seq<byte>, data: seq<byte>, width: nat, height: nat, x: nat, y: nat)
    requires width % 4 == 0 && height % 4 == 0
    requires |data| >= Swizzle.DivRoundUp(width, 4) * Swizzle.DivRoundUp(height, 4) * 16
    requires img == Dxt5Image(data, width, height)
    requires x < Swizzle.DivRoundUp(width, 4) && y < Swizzle.DivRoundUp(height, 4)
    requires output.Length == width * height * 4
    requires Filled(output[..], img, width, height, 4, x, y, 0, 0)
    modifies output
    ensures Filled(output[..], img, width, height, 4, x + 1, y, 0, 0)
  {
    var h := Swizzle.DivRoundUp(height, 4);
    var w := Swizzle.DivRoundUp(width, 4);
    var blksrc := At(w, h, x, y, 16, 0);
    InBounds(w, h, x, y, 16, 15);
    var tile, bits := Decompress.Dxt135ImageBlock(data, blksrc + 8, false);
    var a := Decompress.Dxt5AlphaBlock(data, blksrc);
    var alphaCh := LeUint(data, blksrc + 2, 6);
    var idxShift := 0;
    for ty := 0 to 4
      invariant idxShift == 2 * (ty * 4)
      invariant Filled(output[..], img, width, height, 4, x, y, 0, ty)
    {
      for tx := 0 to 4
        invariant idxShift == 2 * (ty * 4 + tx)
        invariant Filled(output[..], img, width, height, 4, x, y, tx, ty)
      {
        Dxt5PutTexel(output, img, data, width, height, x, y, tx, ty, blksrc, tile, bits, a, alphaCh, idxShift);
        idxShift := idxShift + 2;
      }
      FillRowEnd(output[..], img, width, height, 4, x, y, 4, ty);
    }
    FillBlockEnd(output[..], img, width, height, 4, x, y, 4);
  }

  /** The body of the texel loop of decompressDXT5: the colour channels of
      the palette entry the 2-bit index picks, then the alpha the 3-bit code
      picks, at pixel (4x + tx, 4y + ty). */
  method Dxt5PutTexel(output: array<byte>, ghost img: seq<byte>, data: seq<byte>, width: nat, height: nat,
                      x: nat, y: nat, tx: nat, ty: nat, blksrc: nat, tile: seq<seq<byte>>, bits: nat,
                      a: seq<byte>, alphaCh: nat, idxShift: nat)
    requires width % 4 == 0 && height % 4 == 0
    requires |data| >= Swizzle.DivRoundUp(width, 4) * Swizzle.DivRoundUp(height, 4) * 16
    requires img == Dxt5Image(data, width, height)
    requires x < Swizzle.DivRoundUp(width, 4) && y < Swizzle.DivRoundUp(height, 4) && tx < 4 && ty < 4
    requires blksrc == (y * Swizzle.DivRoundUp(width, 4) + x) * 16 && blksrc + 16 <= |data|
    requires tile == Decompress.Palette(LeUint(data, blksrc + 8, 2), LeUint(data, blksrc + 10, 2), false)
    requires bits == LeUint(data, blksrc + 12, 4) && idxShift == 2 * (ty * 4 + tx)
    requires |a| == 8 && forall code :: 0 <= code < 8 ==> a[code] == BcBase.DecodeAlpha(code, data[blksrc], data[blksrc + 1])
    requires alphaCh == LeUint(data, blksrc + 2, 6)
    requires output.Length == width * height * 4
    requires Filled(output[..], img, width, height, 4, x, y, tx, ty)
    modifies output
    ensures Filled(output[..], img, width, height, 4, x, y, tx + 1, ty)
  {
    FullTexelInImage(width, x, tx);
    FullTexelInImage(height, y, ty);
    var px, py := x * 4 + tx, y * 4 + ty;
    var idx := And(Shr(bits, idxShift), 3);
    var code := And(Shr(alphaCh, ty * 12 + tx * 3), 7);
    Dxt5Selects(data, blksrc, tx, ty, tile, bits, idxShift, a, alphaCh);
    var pixel := tile[idx][..3] + [a[code]];
    Dxt5Pixel(data, width, height, x, y, tx, ty, px, py, blksrc);
    Dxt5ImageAt(data, width, height, px, py);
    PutFilled(output, img, width, height, 4, x, y, tx, ty, px, py, pixel);
  }

  /** The index and the alpha code the loop reads pick the block's texel. */
  lemma Dxt5Selects(data: seq<byte>, blksrc: nat, tx: nat, ty: nat, tile: seq<seq<byte>>, bits: nat, shift: nat,
                    a: seq<byte>, alphaCh: nat)
    requires blksrc + 16 <= |data|
    requires tile == Decompress.Palette(LeUint(data, blksrc + 8, 2), LeUint(data, blksrc + 10, 2), false)
    requires bits == LeUint(data, blksrc + 12, 4) && shift == 2 * (ty * 4 + tx)
    requires |a| == 8 && forall code :: 0 <= code < 8 ==> a[code] == BcBase.DecodeAlpha(code, data[blksrc], data[blksrc + 1])
    requires alphaCh == LeUint(data, blksrc + 2, 6)
    ensures And(Shr(bits, shift), 3) < |tile| && |tile[And(Shr(bits, shift), 3)]| >= 3
    ensures And(Shr(alphaCh, ty * 12 + tx * 3), 7) < |a|
    ensures tile[And(Shr(bits, shift), 3)][..3] + [a[And(Shr(alphaCh, ty * 12 + tx * 3), 7)]] ==
      Dxt5BlockTexel(data, blksrc, tx, ty)
  {
    Pow16();
    assert And(Shr(bits, shift), 3) == BcBase.TexelIndex(bits, ty * 4 + tx);
    assert And(Shr(alphaCh, ty * 12 + tx * 3), 7) == AlphaCode(alphaCh, ty * 12 + tx * 3);
  }

  /** The texel the DXT5 loop writes at (tx, ty) of block (x, y) is the
      image's pixel (4x + tx, 4y + ty). */
  lemma Dxt5Pixel(data: seq<byte>, width: nat, height: nat, x: nat, y: nat, tx: nat, ty: nat, px: nat, py: nat, blksrc: nat)
    requires |data| >= Swizzle.DivRoundUp(width, 4) * Swizzle.DivRoundUp(height, 4) * 16
    requires tx < 4 && ty < 4 && px == 4 * x + tx < width && py == 4 * y + ty < height
    requires blksrc == (y * Swizzle.DivRoundUp(width, 4) + x) * 16
    ensures blksrc + 16 <= |data|
    ensures Dxt5Texel(data, width, height, px, py) == Dxt5BlockTexel(data, blksrc, tx, ty)
  {
    TexelOfPixel(x, y, tx, ty, px, py);
    assert BlockStart(width, height, px, py, 16) == blksrc;
  }

  // ---------------------------------------------------------------------
  // decompressBC4 and decompressBC5

  /** `ToSigned8(v) + 0x80`: the SNORM byte moved to the unsigned range,
      which amounts to flipping its top bit. */
  function SnormBias(v: byte): (b: byte)
    ensures b as int == (v as int + 0x80) % 0x100
    ensures (v < 0x80 <==> b >= 0x80)
  {
    (ToSigned8(v as int) + 0x80) as byte
  }

  /** Entry `code` of the ramp that dxt5_alphablock (UNORM) or
      dxt5_alphablock_signed (SNORM) builds from the endpoint bytes. */
  function RampEntry(code: nat, a0: byte, a1: byte, snorm: bool): byte
  {
    if snorm then BcBase.DecodeAlphaSigned(code, a0, a1) else BcBase.DecodeAlpha(code, a0, a1)
  }

  /** Texel (tx, ty) of the 8-byte channel block at blksrc: the ramp entry
      its 3-bit code picks, biased by 0x80 for SNORM data. */
  function ChannelTexel(data: seq<byte>, blksrc: nat, tx: nat, ty: nat, snorm: bool): (v: byte)
    requires blksrc + 8 <= |data|
  {
    var r := RampEntry(AlphaCode(LeUint(data, blksrc + 2, 6), ty * 12 + tx * 3), data[blksrc], data[blksrc + 1], snorm);
    if snorm then SnormBias(r) else r
  }

  /** Pixel (px, py) of one channel of a BC4 or BC5 image whose blocks are
      size bytes long and hold the channel's 8-byte block at offset. */
  function ChannelPixel(data: seq<byte>, width: nat, height: nat, size: nat, offset: nat, snorm: bool,
                        px: nat, py: nat): byte
    requires px < width && py < height && offset + 8 <= size
    requires |data| >= Swizzle.DivRoundUp(width, 4) * Swizzle.DivRoundUp(height, 4) * size
  {
    ChannelTexel(data, BlockStart(width, height, px, py, size) + offset, px % 4, py % 4, snorm)
  }

  /** The decoded channel: width * height bytes, row by row. */
  function ChannelImage(data: seq<byte>, width: nat, height: nat, size: nat, offset: nat, snorm: bool): (img: seq<byte>)
    requires offset + 8 <= size
    requires |data| >= Swizzle.DivRoundUp(width, 4) * Swizzle.DivRoundUp(height, 4) * size
    ensures |img| == width * height
  {
    seq(width * height, i requires 0 <= i < width * height =>
      ChannelPixel(data, width, height, size, offset, snorm, PixelX(width, height, 1, i), PixelY(width, height, 1, i)))
  }

  lemma ChannelImageAt(data: seq<byte>, width: nat, height: nat, size: nat, offset: nat, snorm: bool, px: nat, py: nat)
    requires offset + 8 <= size
    requires |data| >= Swizzle.DivRoundUp(width, 4) * Swizzle.DivRoundUp(height, 4) * size
    requires px < width && py < height
    ensures ChannelImage(data, width, height, size, offset, snorm)[At(width, height, px, py, 1, 0)] ==
      ChannelPixel(data, width, height, size, offset, snorm, px, py)
  {
    AtPixel(width, height, px, py, 1, 0);
  }

  /** A UNORM channel texel with code 0 or 1 is the endpoint byte itself,
      and an SNORM one the endpoint byte with its top bit flipped. */
  lemma ChannelEndpoints(data: seq<byte>, blksrc: nat, tx: nat, ty: nat, snorm: bool)
    requires blksrc + 8 <= |data|
    ensures var code, v := AlphaCode(LeUint(data, blksrc + 2, 6), ty * 12 + tx * 3), ChannelTexel(data, blksrc, tx, ty, snorm);
      (code == 0 ==> v as int == if snorm then (data[blksrc] as int + 0x80) % 0x100 else data[blksrc] as int) &&
      (code == 1 ==> v as int == if snorm then (data[blksrc + 1] as int + 0x80) % 0x100 else data[blksrc + 1] as int)
  {
  }

  /** The first column (row) of a block of the image lies in the image. */
  lemma BlockInImage(n: nat, x: nat)
    requires x < Swizzle.DivRoundUp(n, 4)
    ensures 4 * x < n
  {
    DivModUnique(n + 3, 4, (n + 3) / 4, (n + 3) % 4);
  }

  /** decompressBC4: width * height bytes, one channel.  The texel loops
      stop at the image edge, so any width and height are decoded. */
  method DecompressBc4(data: seq<byte>, width: nat, height: nat, snorm: bool) returns (out: seq<byte>)
    requires |data| >= Swizzle.DivRoundUp(width, 4) * Swizzle.DivRoundUp(height, 4) * 8
    ensures out == ChannelImage(data, width, height, 8, 0, snorm)
  {
    ghost var img := ChannelImage(data, width, height, 8, 0, snorm);
    var output := new byte[width * height](_ => 0);
    var h := Swizzle.DivRoundUp(height, 4);
    var w := Swizzle.DivRoundUp(width, 4);
    BlocksCover(width);
    FillNone(output[..], img, width, height, 1);
    for y := 0 to h
      invariant Filled(output[..], img, width, height, 1, 0, y, 0, 0)
    {
      for x := 0 to w
        invariant Filled(output[..], img, width, height, 1, x, y, 0, 0)
      {
        var blksrc := At(w, h, x, y, 8, 0);
        InBounds(w, h, x, y, 8, 7);
        var r := ChannelRamp(data, blksrc, snorm);
        var redCh := LeUint(data, blksrc + 2, 6);
        ChannelBlock(output, img, data, width, height, 8, 0, snorm, x, y, blksrc, r, redCh);
      }
      FillBlockRowEnd(output[..], img, width, height, 1, w, y);
    }
    FillAll(output[..], img, width, height, 1, h);
    out := output[..];
  }

  /** decompressBC5: two channels of width * height bytes, red from the
      first and green from the second 8-byte half of each 16-byte block.
      The two rows of the numpy result are two arrays here; both start with
      unspecified contents, as np.empty leaves them. */
  method DecompressBc5(data: seq<byte>, width: nat, height: nat, snorm: bool) returns (red: seq<byte>, green: seq<byte>)
    requires |data| >= Swizzle.DivRoundUp(width, 4) * Swizzle.DivRoundUp(height, 4) * 16
    ensures red == ChannelImage(data, width, height, 16, 0, snorm)
    ensures green == ChannelImage(data, width, height, 16, 8, snorm)
  {
    ghost var imgR := ChannelImage(data, width, height, 16, 0, snorm);
    ghost var imgG := ChannelImage(data, width, height, 16, 8, snorm);
    var outR := new byte[width * height];
    var outG := new byte[width * height];
    var h := Swizzle.DivRoundUp(height, 4);
    var w := Swizzle.DivRoundUp(width, 4);
    BlocksCover(width);
    FillNone(outR[..], imgR, width, height, 1);
    FillNone(outG[..], imgG, width, height, 1);
    for y := 0 to h
      invariant Filled(outR[..], imgR, width, height, 1, 0, y, 0, 0)
      invariant Filled(outG[..], imgG, width, height, 1, 0, y, 0, 0)
    {
      for x := 0 to w
        invariant Filled(outR[..], imgR, width, height, 1, x, y, 0, 0)
        invariant Filled(outG[..], imgG, width, height, 1, x, y, 0, 0)
      {
        Bc5Block(outR, outG, imgR, imgG, data, width, height, snorm, x, y);
      }
      FillBlockRowEnd(outR[..], imgR, width, height, 1, w, y);
      FillBlockRowEnd(outG[..], imgG, width, height, 1, w, y);
    }
    FillAll(outR[..], imgR, width, height, 1, h);
    FillAll(outG[..], imgG, width, height, 1, h);
    red, green := outR[..], outG[..];
  }

  /** The ramp of the channel block at blksrc: dxt5_alphablock_signed for
      SNORM data, dxt5_alphablock otherwise. */
  method ChannelRamp(data: seq<byte>, blksrc: nat, snorm: bool) returns (ramp: seq<byte>)
    requires blksrc + 1 < |data|
    ensures |ramp| == 8
    ensures forall code :: 0 <= code < 8 ==> ramp[code] == RampEntry(code, data[blksrc], data[blksrc + 1], snorm)
  {
    if snorm {
      ramp := Decompress.Dxt5AlphaBlockSigned(data, blksrc);
    } else {
      ramp := Decompress.Dxt5AlphaBlock(data, blksrc);
    }
  }

  /** The texel loops of decompressBC4 for block (x, y): th rows of tw
      texels, cut at the image edge. */
  method ChannelBlock(output: array<byte>, ghost img: seq<byte>, data: seq<byte>, width: nat, height: nat,
                      size: nat, offset: nat, snorm: bool, x: nat, y: nat, blksrc: nat, ramp: seq<byte>, chBits: nat)
    requires offset + 8 <= size
    requires |data| >= Swizzle.DivRoundUp(width, 4) * Swizzle.DivRoundUp(height, 4) * size
    requires img == ChannelImage(data, width, height, size, offset, snorm)
    requires x < Swizzle.DivRoundUp(width, 4) && y < Swizzle.DivRoundUp(height, 4)
    requires blksrc == (y * Swizzle.DivRoundUp(width, 4) + x) * size + offset && blksrc + 8 <= |data|
    requires |ramp| == 8 && forall code :: 0 <= code < 8 ==> ramp[code] == RampEntry(code, data[blksrc], data[blksrc + 1], snorm)
    requires chBits == LeUint(data, blksrc + 2, 6)
    requires output.Length == width * height
    requires Filled(output[..], img, width, height, 1, x, y, 0, 0)
    modifies output
    ensures Filled(output[..], img, width, height, 1, x + 1, y, 0, 0)
  {
    BlockInImage(width, x);
    BlockInImage(height, y);
    var tw := if width - x * 4 < 4 then width - x * 4 else 4;
    var th := if height - y * 4 < 4 then height - y * 4 else 4;
    for ty := 0 to th
      invariant Filled(output[..], img, width, height, 1, x, y, 0, ty)
    {
      for tx := 0 to tw
        invariant Filled(output[..], img, width, height, 1, x, y, tx, ty)
      {
        ChannelPutTexel(output, img, data, width, height, size, offset, snorm, x, y, tw, th, tx, ty, blksrc, ramp, chBits);
      }
      FillRowEnd(output[..], img, width, height, 1, x, y, tw, ty);
    }
    FillBlockEnd(output[..], img, width, height, 1, x, y, th);
  }

  /** The body of the block loop of decompressBC5 for block (x, y): the
      two ramps and index words, then the texel loops, where each texel
      writes its red byte and its green byte. */
  method Bc5Block(outR: array<byte>, outG: array<byte>, ghost imgR: seq<byte>, ghost imgG: seq<byte>,
                  data: seq<byte>, width: nat, height: nat, snorm: bool, x: nat, y: nat)
    requires outR != outG
    requires |data| >= Swizzle.DivRoundUp(width, 4) * Swizzle.DivRoundUp(height, 4) * 16
    requires imgR == ChannelImage(data, width, height, 16, 0, snorm)
    requires imgG == ChannelImage(data, width, height, 16, 8, snorm)
    requires x < Swizzle.DivRoundUp(width, 4) && y < Swizzle.DivRoundUp(height, 4)
    requires outR.Length == width * height && outG.Length == width * height
    requires Filled(outR[..], imgR, width, height, 1, x, y, 0, 0)
    requires Filled(outG[..], imgG, width, height, 1, x, y, 0, 0)
    modifies outR, outG
    ensures Filled(outR[..], imgR, width, height, 1, x + 1, y, 0, 0)
    ensures Filled(outG[..], imgG, width, height, 1, x + 1, y, 0, 0)
  {
    var h := Swizzle.DivRoundUp(height, 4);
    var w := Swizzle.DivRoundUp(width, 4);
    var blksrc := At(w, h, x, y, 16, 0);
    InBounds(w, h, x, y, 16, 15);
    var r := ChannelRamp(data, blksrc, snorm);
    var g := ChannelRamp(data, blksrc + 8, snorm);
    var redCh := LeUint(data, blksrc + 2, 6);
    var greenCh := LeUint(data, blksrc + 10, 6);
    BlockInImage(width, x);
    BlockInImage(height, y);
    var tw := if width - x * 4 < 4 then width - x * 4 else 4;
    var th := if height - y * 4 < 4 then height - y * 4 else 4;
    for ty := 0 to th
      invariant Filled(outR[..], imgR, width, height, 1, x, y, 0, ty)
      invariant Filled(outG[..], imgG, width, height, 1, x, y, 0, ty)
    {
      for tx := 0 to tw
        invariant Filled(outR[..], imgR, width, height, 1, x, y, tx, ty)
        invariant Filled(outG[..], imgG, width, height, 1, x, y, tx, ty)
      {
        ChannelPutTexel(outR, imgR, data, width, height, 16, 0, snorm, x, y, tw, th, tx, ty, blksrc, r, redCh);
        ChannelPutTexel(outG, imgG, data, width, height, 16, 8, snorm, x, y, tw, th, tx, ty, blksrc + 8, g, greenCh);
      }
      FillRowEnd(outR[..], imgR, width, height, 1, x, y, tw, ty);
      FillRowEnd(outG[..], imgG, width, height, 1, x, y, tw, ty);
    }
    FillBlockEnd(outR[..], imgR, width, height, 1, x, y, th);
    FillBlockEnd(outG[..], imgG, width, height, 1, x, y, th);
  }

  /** The body of the texel loops of decompressBC4 and decompressBC5 for one
      channel: the ramp entry the 3-bit code at ty * 12 + tx * 3 picks,
      biased for SNORM data, at pixel (4x + tx, 4y + ty). */
  method ChannelPutTexel(output: array<byte>, ghost img: seq<byte>, data: seq<byte>, width: nat, height: nat,
                         size: nat, offset: nat, snorm: bool, x: nat, y: nat, tw: nat, th: nat, tx: nat, ty: nat,
                         blksrc: nat, ramp: seq<byte>, chBits: nat)
    requires offset + 8 <= size
    requires |data| >= Swizzle.DivRoundUp(width, 4) * Swizzle.DivRoundUp(height, 4) * size
    requires img == ChannelImage(data, width, height, size, offset, snorm)
    requires tw <= 4 && th <= 4 && 4 * x + tw <= width && 4 * y + th <= height && tx < tw && ty < th
    requires blksrc == (y * Swizzle.DivRoundUp(width, 4) + x) * size + offset && blksrc + 8 <= |data|
    requires |ramp| == 8 && forall code :: 0 <= code < 8 ==> ramp[code] == RampEntry(code, data[blksrc], data[blksrc + 1], snorm)
    requires chBits == LeUint(data, blksrc + 2, 6)
    requires output.Length == width * height
    requires Filled(output[..], img, width, height, 1, x, y, tx, ty)
    modifies output
    ensures Filled(output[..], img, width, height, 1, x, y, tx + 1, ty)
  {
    var px, py := x * 4 + tx, y * 4 + ty;
    var shift := ty * 12 + tx * 3;
    var code := And(Shr(chBits, shift), 7);
    assert code == AlphaCode(chBits, ty * 12 + tx * 3);
    var v := if snorm then SnormBias(ramp[code]) else ramp[code];
    ChannelPixelIs(data, width, height, size, offset, snorm, x, y, tx, ty, px, py, blksrc);
    ChannelImageAt(data, width, height, size, offset, snorm, px, py);
    PutFilled(output, img, width, height, 1, x, y, tx, ty, px, py, [v]);
  }

  /** The texel the channel loops write at (tx, ty) of block (x, y) is the
      channel's pixel (4x + tx, 4y + ty). */
  lemma ChannelPixelIs(data: seq<byte>, width: nat, height: nat, size: nat, offset: nat, snorm: bool,
                       x: nat, y: nat, tx: nat, ty: nat, px: nat, py: nat, blksrc: nat)
    requires offset + 8 <= size
    requires |data| >= Swizzle.DivRoundUp(width, 4) * Swizzle.DivRoundUp(height, 4) * size
    requires tx < 4 && ty < 4 && px == 4 * x + tx < width && py == 4 * y + ty < height
    requires blksrc == (y * Swizzle.DivRoundUp(width, 4) + x) * size + offset
    ensures blksrc + 8 <= |data|
    ensures ChannelPixel(data, width, height, size, offset, snorm, px, py) == ChannelTexel(data, blksrc, tx, ty, snorm)
  {
    TexelOfPixel(x, y, tx, ty, px, py);
    assert BlockStart(width, height, px, py, size) + offset == blksrc;
  }
}
