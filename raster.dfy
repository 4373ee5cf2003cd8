/** Pixel addressing shared by the block decoders: a width x height image
    stored row by row with bpp bytes per pixel, filled one 4x4 block at a
    time in row-major block order and row-major texel order inside a block. */
module Raster {
  import opened Bits

  lemma MulSucc(q: int, p: int)
    ensures (q + 1) * p == q * p + p
  {
  }

  lemma InBounds(width: nat, height: nat, px: nat, py: nat, bpp: nat, c: nat)
    requires px < width && py < height && c < bpp
    ensures (py * width + px) * bpp + c < width * height * bpp
  {
    var k := py * width + px;
    MulSucc(py, width);
    MulLe(py + 1, height, width);
    assert k + 1 <= height * width;
    MulLe(k + 1, height * width, bpp);
    MulSucc(k, bpp);
    assert (height * width) * bpp == width * height * bpp;
  }

  /** Byte c of pixel (px, py) in a width x height image of bpp-byte pixels;
      every byte of every pixel lies inside the width * height * bpp buffer. */
  function At(width: nat, height: nat, px: nat, py: nat, bpp: nat, c: nat): (j: nat)
    ensures px < width && py < height && c < bpp ==> j < width * height * bpp
  {
    assert px < width && py < height && c < bpp ==> (py * width + px) * bpp + c < width * height * bpp by {
      if px < width && py < height && c < bpp {
        InBounds(width, height, px, py, bpp, c);
      }
    }
    (py * width + px) * bpp + c
  }

  /** Distinct (pixel, byte) pairs have distinct offsets. */
  lemma AtInjective(width: nat, height: nat, px: nat, py: nat, qx: nat, qy: nat, bpp: nat, c: nat, d: nat)
    requires px < width && qx < width && c < bpp && d < bpp
    requires At(width, height, px, py, bpp, c) == At(width, height, qx, qy, bpp, d)
    ensures px == qx && py == qy && c == d
  {
    var k1, k2 := py * width + px, qy * width + qx;
    DivModUnique(At(width, height, px, py, bpp, c), bpp, k1, c);
    DivModUnique(At(width, height, qx, qy, bpp, d), bpp, k2, d);
    DivModUnique(k1, width, py, px);
    DivModUnique(k2, width, qy, qx);
  }

  /** Pixel (px, py) is visited before texel (tx, ty) of block (x, y). */
  predicate Before(px: nat, py: nat, x: nat, y: nat, tx: nat, ty: nat)
  {
    py / 4 < y || (py / 4 == y && (px / 4 < x || (px / 4 == x &&
      (py % 4 < ty || (py % 4 == ty && px % 4 < tx)))))
  }

  /** Visiting texel (tx, ty) of block (x, y) adds exactly that pixel. */
  lemma BeforeStep(px: nat, py: nat, x: nat, y: nat, tx: nat, ty: nat)
    requires tx < 4 && ty < 4
    ensures Before(px, py, x, y, tx + 1, ty) <==>
            Before(px, py, x, y, tx, ty) || (px == 4 * x + tx && py == 4 * y + ty)
  {
  }

  /** The end of a texel row of tw texels: every in-range pixel of that row is done. */
  lemma BeforeRowEnd(width: nat, px: nat, py: nat, x: nat, y: nat, tw: nat, ty: nat)
    requires tw == 4 || 4 * x + tw >= width
    requires px < width
    ensures Before(px, py, x, y, tw, ty) <==> Before(px, py, x, y, 0, ty + 1)
  {
  }

  /** The end of a block of th texel rows. */
  lemma BeforeBlockEnd(height: nat, px: nat, py: nat, x: nat, y: nat, th: nat)
    requires th == 4 || 4 * y + th >= height
    requires py < height
    ensures Before(px, py, x, y, 0, th) <==> Before(px, py, x + 1, y, 0, 0)
  {
  }

  /** The end of a row of w blocks. */
  lemma BeforeBlockRowEnd(width: nat, px: nat, py: nat, w: nat, y: nat)
    requires 4 * w >= width && px < width
    ensures Before(px, py, w, y, 0, 0) <==> Before(px, py, 0, y + 1, 0, 0)
  {
  }

  /** After h block rows every in-range pixel is done. */
  lemma BeforeAll(height: nat, px: nat, py: nat, h: nat)
    requires 4 * h >= height && py < height
    ensures Before(px, py, 0, h, 0, 0)
  {
  }

  /** The bytes of another pixel lie outside the bytes of pixel (px, py). */
  lemma OtherPixelApart(width: nat, height: nat, px: nat, py: nat, qx: nat, qy: nat, bpp: nat, c: nat)
    requires px < width && qx < width && c < bpp && (qx != px || qy != py)
    ensures At(width, height, qx, qy, bpp, c) < At(width, height, px, py, bpp, 0) ||
            At(width, height, qx, qy, bpp, c) >= At(width, height, px, py, bpp, 0) + bpp
  {
    var j, pos := At(width, height, qx, qy, bpp, c), At(width, height, px, py, bpp, 0);
    if pos <= j < pos + bpp {
      assert At(width, height, px, py, bpp, j - pos) == j;
      AtInjective(width, height, px, py, qx, qy, bpp, j - pos, c);
    }
  }

  /** output[At(px, py, 0) : +bpp] = value, leaving every other pixel as it was. */
  method PutPixel(output: array<byte>, width: nat, height: nat, px: nat, py: nat, bpp: nat, value: seq<byte>)
    requires |value| == bpp && px < width && py < height && output.Length == width * height * bpp
    modifies output
    ensures forall c: nat :: c < bpp ==> output[At(width, height, px, py, bpp, c)] == value[c]
    ensures forall qx: nat, qy: nat, c: nat :: qx < width && qy < height && c < bpp && (qx != px || qy != py) ==>
      output[At(width, height, qx, qy, bpp, c)] == old(output[At(width, height, qx, qy, bpp, c)])
  {
    var pos := At(width, height, px, py, bpp, 0);
    if bpp > 0 {
      assert At(width, height, px, py, bpp, bpp - 1) == pos + bpp - 1;
    }
    ghost var before := output[..];
    forall c: nat | c < bpp {
      output[pos + c] := value[c];
    }
    forall qx: nat, qy: nat, c: nat | qx < width && qy < height && c < bpp && (qx != px || qy != py)
      ensures output[At(width, height, qx, qy, bpp, c)] == before[At(width, height, qx, qy, bpp, c)]
    {
      OtherPixelApart(width, height, px, py, qx, qy, bpp, c);
    }
  }

  /** The offset of byte c of pixel (px, py) gives the pixel and byte back. */
  lemma AtDecompose(width: nat, height: nat, px: nat, py: nat, bpp: nat, c: nat)
    requires px < width && py < height && c < bpp
    ensures var i := At(width, height, px, py, bpp, c);
      i % bpp == c && (i / bpp) % width == px && (i / bpp) / width == py
  {
    var k := py * width + px;
    DivModUnique(At(width, height, px, py, bpp, c), bpp, k, c);
    DivModUnique(k, width, py, px);
  }

  /** A buffer with a byte in it has positive dimensions. */
  lemma Positive(width: nat, height: nat, bpp: nat, i: nat)
    requires i < width * height * bpp
    ensures width > 0 && height > 0 && bpp > 0
  {
    if width == 0 || height == 0 || bpp == 0 {
      assert width * height == 0 || bpp == 0;
    }
  }

  /** i = k * bpp + c and k = py * width + px place byte i at byte c of
      pixel (px, py), and that pixel lies inside the image. */
  lemma PixelParts(width: nat, height: nat, bpp: nat, i: nat, k: nat, px: nat, py: nat, c: nat)
    requires i < width * height * bpp
    requires i == k * bpp + c && c < bpp && k == py * width + px && px < width
    ensures py < height && At(width, height, px, py, bpp, c) == i
  {
    if py >= height {
      MulLe(height, py, width);
      MulLe(height * width, k, bpp);
    }
  }

  /** The column of the pixel that byte i of the buffer belongs to. */
  function PixelX(width: nat, height: nat, bpp: nat, i: nat): (px: nat)
    requires i < width * height * bpp
    ensures px < width
  {
    Positive(width, height, bpp, i);
    (i / bpp) % width
  }

  /** The row of the pixel that byte i of the buffer belongs to. */
  function PixelY(width: nat, height: nat, bpp: nat, i: nat): (py: nat)
    requires i < width * height * bpp
    ensures py < height
  {
    Positive(width, height, bpp, i);
    var k := i / bpp;
    PixelParts(width, height, bpp, i, k, k % width, k / width, i % bpp);
    k / width
  }

  /** Which byte of its pixel byte i of the buffer is. */
  function PixelC(width: nat, height: nat, bpp: nat, i: nat): (c: nat)
    requires i < width * height * bpp
    ensures c < bpp
  {
    Positive(width, height, bpp, i);
    i % bpp
  }

  /** PixelX, PixelY and PixelC invert At. */
  lemma AtPixel(width: nat, height: nat, px: nat, py: nat, bpp: nat, c: nat)
    requires px < width && py < height && c < bpp
    ensures var i := At(width, height, px, py, bpp, c);
      PixelX(width, height, bpp, i) == px && PixelY(width, height, bpp, i) == py && PixelC(width, height, bpp, i) == c
  {
    AtDecompose(width, height, px, py, bpp, c);
  }

  /** The pixels visited so far hold their bytes of img. */
  ghost predicate Filled(o: seq<byte>, img: seq<byte>, width: nat, height: nat, bpp: nat,
                         x: nat, y: nat, tx: nat, ty: nat)
  {
    |o| == |img| == width * height * bpp &&
    forall px: nat, py: nat, c: nat :: px < width && py < height && c < bpp && Before(px, py, x, y, tx, ty) ==>
      o[At(width, height, px, py, bpp, c)] == img[At(width, height, px, py, bpp, c)]
  }

  /** Before the first block nothing is visited, so any buffer of the image's size is filled so far. */
  lemma FillNone(o: seq<byte>, img: seq<byte>, width: nat, height: nat, bpp: nat)
    requires |o| == |img| == width * height * bpp
    ensures Filled(o, img, width, height, bpp, 0, 0, 0, 0)
  {
  }

  /** Writing the bytes of the pixel at texel (tx, ty) of block (x, y)
      extends the filled part by that texel. */
  lemma FillStep(before: seq<byte>, after: seq<byte>, img: seq<byte>, width: nat, height: nat, bpp: nat,
                 x: nat, y: nat, tx: nat, ty: nat, px: nat, py: nat)
    requires tx < 4 && ty < 4 && px == 4 * x + tx < width && py == 4 * y + ty < height
    requires Filled(before, img, width, height, bpp, x, y, tx, ty) && |after| == |before|
    requires forall c: nat :: c < bpp ==>
      after[At(width, height, px, py, bpp, c)] == img[At(width, height, px, py, bpp, c)]
    requires forall qx: nat, qy: nat, c: nat :: qx < width && qy < height && c < bpp && (qx != px || qy != py) ==>
      after[At(width, height, qx, qy, bpp, c)] == before[At(width, height, qx, qy, bpp, c)]
    ensures Filled(after, img, width, height, bpp, x, y, tx + 1, ty)
  {
    forall qx: nat, qy: nat, c: nat | qx < width && qy < height && c < bpp && Before(qx, qy, x, y, tx + 1, ty)
      ensures after[At(width, height, qx, qy, bpp, c)] == img[At(width, height, qx, qy, bpp, c)]
    {
      BeforeStep(qx, qy, x, y, tx, ty);
      if qx != px || qy != py {
        assert Before(qx, qy, x, y, tx, ty);
      }
    }
  }

  /** Writing pixel (px, py) = (4x + tx, 4y + ty) with the image's own bytes
      extends the filled part by that texel. */
  method PutFilled(output: array<byte>, ghost img: seq<byte>, width: nat, height: nat, bpp: nat,
                   x: nat, y: nat, tx: nat, ty: nat, px: nat, py: nat, value: seq<byte>)
    requires tx < 4 && ty < 4 && px == 4 * x + tx < width && py == 4 * y + ty < height
    requires |value| == bpp && output.Length == width * height * bpp
    requires Filled(output[..], img, width, height, bpp, x, y, tx, ty)
    requires forall c: nat :: c < bpp ==> img[At(width, height, px, py, bpp, c)] == value[c]
    modifies output
    ensures Filled(output[..], img, width, height, bpp, x, y, tx + 1, ty)
  {
    ghost var before := output[..];
    PutPixel(output, width, height, px, py, bpp, value);
    FillStep(before, output[..], img, width, height, bpp, x, y, tx, ty, px, py);
  }

  /** The end of a texel row keeps the image filled up to the next row. */
  lemma FillRowEnd(o: seq<byte>, img: seq<byte>, width: nat, height: nat, bpp: nat,
                   x: nat, y: nat, tw: nat, ty: nat)
    requires tw == 4 || 4 * x + tw >= width
    requires Filled(o, img, width, height, bpp, x, y, tw, ty)
    ensures Filled(o, img, width, height, bpp, x, y, 0, ty + 1)
  {
    forall px: nat, py: nat | px < width
      ensures Before(px, py, x, y, tw, ty) <==> Before(px, py, x, y, 0, ty + 1)
    {
      BeforeRowEnd(width, px, py, x, y, tw, ty);
    }
  }

  /** The end of a block keeps the image filled up to the next block. */
  lemma FillBlockEnd(o: seq<byte>, img: seq<byte>, width: nat, height: nat, bpp: nat,
                     x: nat, y: nat, th: nat)
    requires th == 4 || 4 * y + th >= height
    requires Filled(o, img, width, height, bpp, x, y, 0, th)
    ensures Filled(o, img, width, height, bpp, x + 1, y, 0, 0)
  {
    forall px: nat, py: nat | py < height
      ensures Before(px, py, x, y, 0, th) <==> Before(px, py, x + 1, y, 0, 0)
    {
      BeforeBlockEnd(height, px, py, x, y, th);
    }
  }

  /** The end of a row of w blocks keeps the image filled up to the next block row. */
  lemma FillBlockRowEnd(o: seq<byte>, img: seq<byte>, width: nat, height: nat, bpp: nat, w: nat, y: nat)
    requires 4 * w >= width
    requires Filled(o, img, width, height, bpp, w, y, 0, 0)
    ensures Filled(o, img, width, height, bpp, 0, y + 1, 0, 0)
  {
    forall px: nat, py: nat | px < width
      ensures Before(px, py, w, y, 0, 0) <==> Before(px, py, 0, y + 1, 0, 0)
    {
      BeforeBlockRowEnd(width, px, py, w, y);
    }
  }

  /** Once every block row is done the buffer is the image. */
  lemma FillAll(o: seq<byte>, img: seq<byte>, width: nat, height: nat, bpp: nat, h: nat)
    requires 4 * h >= height
    requires Filled(o, img, width, height, bpp, 0, h, 0, 0)
    ensures o == img
  {
    forall i | 0 <= i < |o|
      ensures o[i] == img[i]
    {
      FillByte(o, img, width, height, bpp, h, i);
    }
  }

  /** Byte i is one of the pixel bytes that every block row together fills. */
  lemma FillByte(o: seq<byte>, img: seq<byte>, width: nat, height: nat, bpp: nat, h: nat, i: nat)
    requires 4 * h >= height && i < |o|
    requires Filled(o, img, width, height, bpp, 0, h, 0, 0)
    ensures o[i] == img[i]
  {
    var px, py, c := PixelAt(width, height, bpp, i);
    FillPixel(o, img, width, height, bpp, h, px, py, c);
  }

  /** The pixel byte that byte i of the buffer is, named so the callers need no division. */
  lemma PixelAt(width: nat, height: nat, bpp: nat, i: nat) returns (px: nat, py: nat, c: nat)
    requires i < width * height * bpp
    ensures px < width && py < height && c < bpp && At(width, height, px, py, bpp, c) == i
  {
    Positive(width, height, bpp, i);
    var k;
    k, c := Divide(i, bpp);
    py, px := Divide(k, width);
    PixelParts(width, height, bpp, i, k, px, py, c);
  }

  /** Every byte of every pixel is filled once every block row is done. */
  lemma FillPixel(o: seq<byte>, img: seq<byte>, width: nat, height: nat, bpp: nat, h: nat, px: nat, py: nat, c: nat)
    requires 4 * h >= height && px < width && py < height && c < bpp
    requires Filled(o, img, width, height, bpp, 0, h, 0, 0)
    ensures o[At(width, height, px, py, bpp, c)] == img[At(width, height, px, py, bpp, c)]
  {
    BeforeAll(height, px, py, h);
  }
}
