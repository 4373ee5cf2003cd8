/** The second BC5 decoder: BC5.decode walks the image block by block and
    writes every texel as four bytes (blue, green, red, 255) into a buffer of
    whole 4 x 4 blocks.  Where each block starts in the data (the swizzle's
    getOffset) and how blue is rebuilt from red and green (calcBlue, a
    floating-point square root) are parameters of the model. */
module Bc5 {
  import opened Bits
  import opened Raster
  import opened Outcome
  import BcBase
  import DecompressImages

  /** BC5.decodeAlpha: entry `bits & 7` of the UNORM ramp between the
      endpoint bytes a0 and a1. */
  function DecodeAlpha(bits: nat, a0: byte, a1: byte): byte
  {
    var code := And(bits, 0x07);
    BcBase.LowField(bits, 3, bits % Pow2(3));
    assert Pow2(3) == 8;
    if code == 0 then a0
    else if code == 1 then a1
    else if a0 > a1 then
      (RampBound(a0, a1, 8 - code, code - 1, 7); ((a0 as int * (8 - code) + a1 as int * (code - 1)) / 7) as byte)
    else if code < 6 then
      (RampBound(a0, a1, 6 - code, code - 1, 5); ((a0 as int * (6 - code) + a1 as int * (code - 1)) / 5) as byte)
    else if code == 6 then 0
    else 255
  }

  /** A weighted floor mean of two bytes is a byte. */
  lemma RampBound(a0: byte, a1: byte, w0: nat, w1: nat, d: nat)
    requires d > 0 && w0 + w1 == d
    ensures 0 <= (a0 as int * w0 + a1 as int * w1) / d < 256
  {
    BcBase.WeightedMean(a0 as int, a1 as int, w0, w1);
  }

  /** The two copies of decodeAlpha, in BC5 and in its BCn base, agree on
      every input. */
  lemma DecodeAlphaAgrees(bits: nat, a0: byte, a1: byte)
    ensures DecodeAlpha(bits, a0, a1) == BcBase.DecodeAlpha(bits, a0, a1)
  {
    var code := bits % 8;
    BcBase.LowField(bits, 3, code);
    assert Pow2(3) == 8;
    if 2 <= code && a0 > a1 {
      StepIsBlend(a0, a1, 8 - code, code - 1, 7);
    } else if 2 <= code < 6 {
      StepIsBlend(a0, a1, 6 - code, code - 1, 5);
    }
  }

  lemma StepIsBlend(a0: byte, a1: byte, w0: nat, w1: nat, d: nat)
    requires d > 0 && w0 + w1 == d
    ensures (a0 as int * w0 + a1 as int * w1) / d == BcBase.Blend(a0, a1, w0, w1, d) as int
  {
    var r := BcBase.Blend(a0, a1, w0, w1, d);
    var n := a0 as int * w0 + a1 as int * w1;
    DivModUnique(n, d, r as int, n - r as int * d);
  }

  /** One channel of texel (tx, ty) of the 8-byte half at `offs`: endpoint
      bytes offs and offs + 1, and the 3-bit code at bit ty * 12 + tx * 3 of
      the 48 index bits from offs + 2.  On the SNORM path the ramp entry
      comes from decodeAlphaSigned and is moved to 0..255 by
      ToSigned8(v) + 128. */
  function Channel(data: seq<byte>, offs: nat, tx: nat, ty: nat, snorm: bool): byte
    requires offs + 8 <= |data|
  {
    var code := DecompressImages.AlphaCode(LeUint(data, offs + 2, 6), ty * 12 + tx * 3);
    if snorm then DecompressImages.SnormBias(BcBase.DecodeAlphaSigned(code, data[offs], data[offs + 1]))
    else DecodeAlpha(code, data[offs], data[offs + 1])
  }

  /** Texel (tx, ty) of the 16-byte block at offs: red from the first half,
      green from the second, blue from calcBlue(red, green), alpha 255,
      stored in the order b, g, r, a. */
  function Texel(data: seq<byte>, offs: nat, tx: nat, ty: nat, snorm: bool,
                 calcBlue: (byte, byte) -> byte): (t: seq<byte>)
    requires offs + 16 <= |data|
    ensures |t| == 4 && t[3] == 0xFF
    ensures t[2] == Channel(data, offs, tx, ty, snorm) && t[1] == Channel(data, offs + 8, tx, ty, snorm)
    ensures t[0] == calcBlue(t[2], t[1])
  {
    var r, g := Channel(data, offs, tx, ty, snorm), Channel(data, offs + 8, tx, ty, snorm);
    [calcBlue(r, g), g, r, 0xFF]
  }

  /** Every block the swizzle names lies inside the data. */
  ghost predicate BlocksInData(data: seq<byte>, w: nat, h: nat, swizzle: (nat, nat) -> nat)
  {
    forall x: nat, y: nat :: x < w && y < h ==> swizzle(x, y) + 16 <= |data|
  }

  /** A w x h-block image has (4w) * (4h) pixels of 4 bytes. */
  lemma ImageSize(w: nat, h: nat)
    ensures (4 * w) * (4 * h) * 4 == w * h * 64
  {
  }

  /** The decoded image: 4w x 4h pixels of (b, g, r, 255), row by row, the
      pixel (px, py) being texel (px % 4, py % 4) of block (px / 4, py / 4). */
  ghost function Image(data: seq<byte>, w: nat, h: nat, swizzle: (nat, nat) -> nat, snorm: bool,
                       calcBlue: (byte, byte) -> byte): (img: seq<byte>)
    requires BlocksInData(data, w, h, swizzle)
    ensures |img| == w * h * 64
  {
    ImageSize(w, h);
    seq((4 * w) * (4 * h) * 4, i requires 0 <= i < (4 * w) * (4 * h) * 4 =>
      Pixel(data, w, h, swizzle, snorm, calcBlue,
            PixelX(4 * w, 4 * h, 4, i), PixelY(4 * w, 4 * h, 4, i))[PixelC(4 * w, 4 * h, 4, i)])
  }

  /** Pixel (px, py) of the image. */
  ghost function Pixel(data: seq<byte>, w: nat, h: nat, swizzle: (nat, nat) -> nat, snorm: bool,
                       calcBlue: (byte, byte) -> byte, px: nat, py: nat): (t: seq<byte>)
    requires BlocksInData(data, w, h, swizzle)
    requires px < 4 * w && py < 4 * h
    ensures |t| == 4
  {
    Texel(data, swizzle(px / 4, py / 4), px % 4, py % 4, snorm, calcBlue)
  }

  lemma ImageAt(data: seq<byte>, w: nat, h: nat, swizzle: (nat, nat) -> nat, snorm: bool,
                calcBlue: (byte, byte) -> byte, px: nat, py: nat)
    requires BlocksInData(data, w, h, swizzle)
    requires px < 4 * w && py < 4 * h
    ensures forall c: nat :: c < 4 ==>
      Image(data, w, h, swizzle, snorm, calcBlue)[At(4 * w, 4 * h, px, py, 4, c)] ==
      Pixel(data, w, h, swizzle, snorm, calcBlue, px, py)[c]
  {
    forall c: nat | c < 4
      ensures Image(data, w, h, swizzle, snorm, calcBlue)[At(4 * w, 4 * h, px, py, 4, c)] ==
              Pixel(data, w, h, swizzle, snorm, calcBlue, px, py)[c]
    {
      AtPixel(4 * w, 4 * h, px, py, 4, c);
    }
  }

  /** The byte offset BC5.decode writes texel (tx, ty) of block (x, y) to,
      with w the width in blocks. */
  function TexelOut(w: nat, x: nat, y: nat, tx: nat, ty: nat): nat
  {
    (x * 4 + tx + (y * 4 + ty) * w * 4) * 4
  }

  /** The offset is the row-major position of pixel (4x + tx, 4y + ty) in a
      4w-pixel-wide image of 4-byte pixels, and its four bytes fit in the
      buffer. */
  lemma TexelOutIsAt(w: nat, h: nat, x: nat, y: nat, tx: nat, ty: nat, c: nat)
    requires x < w && y < h && tx < 4 && ty < 4 && c < 4
    ensures TexelOut(w, x, y, tx, ty) == At(4 * w, 4 * h, 4 * x + tx, 4 * y + ty, 4, 0)
    ensures TexelOut(w, x, y, tx, ty) + c < w * h * 64
  {
    var px, py := 4 * x + tx, 4 * y + ty;
    RowTimes(py, w);
    assert px < 4 * w && py < 4 * h;
    ImageSize(w, h);
    InBounds(4 * w, 4 * h, px, py, 4, c);
  }

  lemma RowTimes(py: nat, w: nat)
    ensures py * w * 4 == py * (4 * w)
  {
  }

  /** Two different texels, or two different bytes of one texel, never
      share an offset: no write of the loop overwrites another. */
  lemma TexelOutDistinct(w: nat, h: nat, x: nat, y: nat, tx: nat, ty: nat, c: nat,
                         x': nat, y': nat, tx': nat, ty': nat, c': nat)
    requires x < w && y < h && tx < 4 && ty < 4 && c < 4
    requires x' < w && y' < h && tx' < 4 && ty' < 4 && c' < 4
    requires TexelOut(w, x, y, tx, ty) + c == TexelOut(w, x', y', tx', ty') + c'
    ensures x == x' && y == y' && tx == tx' && ty == ty' && c == c'
  {
    var px, py, px', py' := 4 * x + tx, 4 * y + ty, 4 * x' + tx', 4 * y' + ty';
    TexelOutIsAt(w, h, x, y, tx, ty, c);
    TexelOutIsAt(w, h, x', y', tx', ty', c');
    assert At(4 * w, 4 * h, px, py, 4, c) == At(4 * w, 4 * h, px', py', 4, c');
    AtInjective(4 * w, 4 * h, px, py, px', py', 4, c, c');
    DecompressImages.TexelOfPixel(x, y, tx, ty, px, py);
    DecompressImages.TexelOfPixel(x', y', tx', ty', px', py');
  }

  /** BC5.decode: a buffer of DIV_ROUND_UP(width, 4) * DIV_ROUND_UP(height, 4)
      * 64 bytes holding every texel of every block. */
  method Decode(data: seq<byte>, texWidth: nat, texHeight: nat, swizzle: (nat, nat) -> nat, snorm: bool,
                calcBlue: (byte, byte) -> byte) returns (pixels: seq<byte>)
    requires BlocksInData(data, (texWidth + 3) / 4, (texHeight + 3) / 4, swizzle)
    ensures |pixels| == ((texWidth + 3) / 4) * ((texHeight + 3) / 4) * 64
    ensures pixels == Image(data, (texWidth + 3) / 4, (texHeight + 3) / 4, swizzle, snorm, calcBlue)
  {
    var width, height := (texWidth + 3) / 4, (texHeight + 3) / 4;
    ghost var img := Image(data, width, height, swizzle, snorm, calcBlue);
    ImageSize(width, height);
    var output := new byte[width * height * 64](_ => 0);
    FillNone(output[..], img, 4 * width, 4 * height, 4);
    for y := 0 to height
      invariant Filled(output[..], img, 4 * width, 4 * height, 4, 0, y, 0, 0)
    {
      for x := 0 to width
        invariant Filled(output[..], img, 4 * width, 4 * height, 4, x, y, 0, 0)
      {
        Block(output, img, data, width, height, swizzle, snorm, calcBlue, x, y);
      }
      FillBlockRowEnd(output[..], img, 4 * width, 4 * height, 4, width, y);
    }
    FillAll(output[..], img, 4 * width, 4 * height, 4, height);
    pixels := output[..];
  }

  /** The body of the block loop of BC5.decode for block (x, y). */
  method Block(output: array<byte>, ghost img: seq<byte>, data: seq<byte>, width: nat, height: nat,
               swizzle: (nat, nat) -> nat, snorm: bool, calcBlue: (byte, byte) -> byte, x: nat, y: nat)
    requires BlocksInData(data, width, height, swizzle)
    requires img == Image(data, width, height, swizzle, snorm, calcBlue)
    requires x < width && y < height
    requires output.Length == (4 * width) * (4 * height) * 4
    requires Filled(output[..], img, 4 * width, 4 * height, 4, x, y, 0, 0)
    modifies output
    ensures Filled(output[..], img, 4 * width, 4 * height, 4, x + 1, y, 0, 0)
  {
    var offs := swizzle(x, y);
    var redCh := GreenOrRedIndices(data, offs, 2);
    var greenCh := GreenOrRedIndices(data, offs, 10);
    for ty := 0 to 4
      invariant Filled(output[..], img, 4 * width, 4 * height, 4, x, y, 0, ty)
    {
      for tx := 0 to 4
        invariant Filled(output[..], img, 4 * width, 4 * height, 4, x, y, tx, ty)
      {
        PutTexel(output, img, data, width, height, swizzle, snorm, calcBlue, x, y, tx, ty, offs, redCh, greenCh);
      }
      FillRowEnd(output[..], img, 4 * width, 4 * height, 4, x, y, 4, ty);
    }
    FillBlockEnd(output[..], img, 4 * width, 4 * height, 4, x, y, 4);
  }

  /** The 48 index bits of a channel, as the low six bytes of the 8-byte
      word at `offs + at`. */
  function GreenOrRedIndices(data: seq<byte>, offs: nat, at: nat): (v: nat)
    requires offs + at + 6 <= |data|
    ensures v == LeUint(data, offs + at, 6)
  {
    LeUint(data, offs + at, 6)
  }

  /** The body of the texel loop of BC5.decode. */
  method PutTexel(output: array<byte>, ghost img: seq<byte>, data: seq<byte>, width: nat, height: nat,
                  swizzle: (nat, nat) -> nat, snorm: bool, calcBlue: (byte, byte) -> byte,
                  x: nat, y: nat, tx: nat, ty: nat, offs: nat, redCh: nat, greenCh: nat)
    requires BlocksInData(data, width, height, swizzle)
    requires img == Image(data, width, height, swizzle, snorm, calcBlue)
    requires x < width && y < height && tx < 4 && ty < 4
    requires offs == swizzle(x, y)
    requires redCh == LeUint(data, offs + 2, 6) && greenCh == LeUint(data, offs + 10, 6)
    requires output.Length == (4 * width) * (4 * height) * 4
    requires Filled(output[..], img, 4 * width, 4 * height, 4, x, y, tx, ty)
    modifies output
    ensures Filled(output[..], img, 4 * width, 4 * height, 4, x, y, tx + 1, ty)
  {
    assert offs + 16 <= |data|;
    var px, py := x * 4 + tx, y * 4 + ty;
    var shift := ty * 12 + tx * 3;
    var r := And(Shr(redCh, shift), 7);
    var g := And(Shr(greenCh, shift), 7);
    var red, green;
    if snorm {
      red := DecompressImages.SnormBias(BcBase.DecodeAlphaSigned(r, data[offs], data[offs + 1]));
      green := DecompressImages.SnormBias(BcBase.DecodeAlphaSigned(g, data[offs + 8], data[offs + 9]));
    } else {
      red := DecodeAlpha(r, data[offs], data[offs + 1]);
      green := DecodeAlpha(g, data[offs + 8], data[offs + 9]);
    }
    ChannelIs(data, offs, tx, ty, snorm, redCh, r, red);
    ChannelIs(data, offs + 8, tx, ty, snorm, greenCh, g, green);
    var b := calcBlue(red, green);
    PixelIs(data, width, height, swizzle, snorm, calcBlue, x, y, tx, ty, px, py);
    ImageAt(data, width, height, swizzle, snorm, calcBlue, px, py);
    PutFilled(output, img, 4 * width, 4 * height, 4, x, y, tx, ty, px, py, [b, green, red, 0xFF]);
  }

  /** The channel value the loop computes from the code it extracts is the
      model's channel of the texel. */
  lemma ChannelIs(data: seq<byte>, offs: nat, tx: nat, ty: nat, snorm: bool, ch: nat, code: nat, v: byte)
    requires offs + 8 <= |data| && ch == LeUint(data, offs + 2, 6)
    requires code == And(Shr(ch, ty * 12 + tx * 3), 7)
    requires v == if snorm then DecompressImages.SnormBias(BcBase.DecodeAlphaSigned(code, data[offs], data[offs + 1]))
                  else DecodeAlpha(code, data[offs], data[offs + 1])
    ensures v == Channel(data, offs, tx, ty, snorm)
  {
  }

  /** Pixel (4x + tx, 4y + ty) of the image is texel (tx, ty) of block (x, y). */
  lemma PixelIs(data: seq<byte>, width: nat, height: nat, swizzle: (nat, nat) -> nat, snorm: bool,
                calcBlue: (byte, byte) -> byte, x: nat, y: nat, tx: nat, ty: nat, px: nat, py: nat)
    requires BlocksInData(data, width, height, swizzle)
    requires x < width && y < height && tx < 4 && ty < 4 && px == x * 4 + tx && py == y * 4 + ty
    ensures px < 4 * width && py < 4 * height
    ensures Pixel(data, width, height, swizzle, snorm, calcBlue, px, py) ==
            Texel(data, swizzle(x, y), tx, ty, snorm, calcBlue)
  {
    DecompressImages.TexelOfPixel(x, y, tx, ty, px, py);
  }

  // ---------------------------------------------------------------------
  // The 8-byte index reads

  /** greenCh as written: struct.unpack('Q') of data[offs+10 : offs+18],
      which fails (struct.error) when fewer than 8 bytes are left. */
  function GreenWordAsWritten(data: seq<byte>, offs: nat): (r: Result<nat>)
    ensures r.Ok? <==> offs + 18 <= |data|
    ensures r.Ok? ==> r.value == LeUint(data, offs + 10, 8)
  {
    if offs + 18 <= |data| then Ok(LeUint(data, offs + 10, 8)) else Err(OutOfBounds(offs + 10))
  }

  /** A lone block stored in exactly its 16 bytes cannot be decoded as
      written: the 8-byte green read runs two bytes past the block. */
  lemma LastBlockGreenWordFails(data: seq<byte>)
    requires |data| == 16
    ensures GreenWordAsWritten(data, 0).Err?
  {
  }

  /** Only the low 48 bits of either 8-byte word are used: every 3-bit
      code read from the word equals the code read from its low six bytes,
      which are the 6 index bytes of the channel. */
  lemma WordCodesAgree(data: seq<byte>, off: nat, tx: nat, ty: nat)
    requires off + 8 <= |data| && tx < 4 && ty < 4
    ensures And(Shr(LeUint(data, off, 8), ty * 12 + tx * 3), 7) ==
            And(Shr(LeUint(data, off, 6), ty * 12 + tx * 3), 7)
  {
    var n, m := 6, 2;
    LowBytesCodes(data, off, n, m, ty * 12 + tx * 3);
  }

  /** The 3-bit field at bit `shift` of an (n + m)-byte integer lies in its
      low n bytes when it ends below bit 8n. */
  lemma LowBytesCodes(data: seq<byte>, off: nat, n: nat, m: nat, shift: nat)
    requires off + n + m <= |data| && shift + 3 <= 8 * n
    ensures And(Shr(LeUint(data, off, n + m), shift), 7) == And(Shr(LeUint(data, off, n), shift), 7)
  {
    var whole, lo, hi := LeUint(data, off, n + m), LeUint(data, off, n), LeUint(data, off + n, m);
    LeUintSplit(data, off, n, m);
    ShrLowField(lo, hi, shift, 8 * n);
    BcBase.LowField(Shr(whole, shift), 3, Shr(whole, shift) % Pow2(3));
    BcBase.LowField(Shr(lo, shift), 3, Shr(lo, shift) % Pow2(3));
    assert Pow2(3) == 8;
  }

  /** Whenever the as-written green read succeeds, the six-byte read the
      model decodes with gives every texel the same code. */
  lemma GreenReadCorrected(data: seq<byte>, offs: nat, tx: nat, ty: nat)
    requires GreenWordAsWritten(data, offs).Ok? && tx < 4 && ty < 4
    ensures And(Shr(GreenWordAsWritten(data, offs).value, ty * 12 + tx * 3), 7) ==
            And(Shr(GreenOrRedIndices(data, offs, 10), ty * 12 + tx * 3), 7)
  {
    WordCodesAgree(data, offs + 10, tx, ty);
  }
}
