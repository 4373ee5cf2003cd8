# bfres_importer: texture decoding and model tables in Dafny

This project models the integer core of the bfres_importer Blender add-on:

- **The BNTX texture pipeline.**
  - `deswizzle` turns a tiled surface into a linear image. Tile mode 1 is pitch-linear. Every other tile mode uses the Tegra GOB block-linear address function.
  - The BCn block decoders, in their two parallel implementations: `BCn/decompress_.py` and `bc/base.py` with `bc/bc5.py`. They cover the RGB565 endpoints, the four-colour palette, the eight-entry unsigned and signed alpha ramps, and the per-block texel loops.
  - The format wrappers: the size check, truncation and SNORM selection.
  - The BRTI descriptor post-processing: block dimensions, the mip offset table, the block height adjustment and trimming the surface to the mip size.
- **The FRES model side.**
  - `Flags`, the bit-field unpacker.
  - The two bone flag layouts, their version selection and `Bone.readFromFRES`.
  - The FMAT material reader: headers, shader assign, Dicts, render infos, material params, shader options, texture samplers and sampler infos.

Pure Python functions are Dafny functions, each with its own lemmas. Code that fills a buffer or list in place is a method with loop invariants, proved against a specification function:

- `deswizzle`;
- the DXT1, DXT5, BC4 and BC5 loops;
- `decodeTile`;
- `BC5.decode`;
- the alpha ramps;
- `C2_decode` and `C3_decode`;
- `pow2_round_up`.

Objects whose fields the source sets are classes: `BRTI` (`Brti.Texture`), `Flags`, `Bone` and `FMAT` (`Fmat.Material`). Each method's `ensures` gives the new state after a successful read as a function of the file and the old state; what an exception leaves behind is stated only where "## Left out" does not say otherwise.

Reads through `BinaryFile` and the FRES object are modelled as follows:

- `Reader.File` holds the file's bytes and its string table.
- A read past the end raises, as `struct.error` does.
- Exceptions are `Outcome.Result` values: `Err` carries the kind of exception and the offending value. The modelled exceptions are an out-of-range read, a missing key, an unknown tag, a bad enum value, a `None` attribute, and a struct field that is absent or of the wrong type.
- Struct records decoded by the `BinaryStruct` machinery (not part of this model) are maps from field keys to integer or string values. The readers that produce them are parameters.

Python integers are unbounded, like Dafny's. Python `|`, `&` and shifts on non-negative integers are defined arithmetically in `Bits`. A negative `x - 1` in `pow2_round_up(0)` is handled as Python's `-1 | k == -1`.

## Model

| member | source | states |
|---|---|---|
| Swizzle.DivRoundUpIsCeiling | bfres/BNTX/pixelfmt/swizzle.py:9-10 | `DIV_ROUND_UP(n, d)` is the least q with q·d ≥ n |
| Swizzle.RoundUpIsLeastMultiple | bfres/BNTX/pixelfmt/swizzle.py:12-13 | for a power-of-two y, `round_up(x, y)` is a multiple of y with x ≤ it < x + y, so it is the least multiple of y that is ≥ x |
| Swizzle.Pow2RoundUp | bfres/BNTX/pixelfmt/swizzle.py:16-24 | the reassignment chain returns 0 for x = 0, and the least power of two ≥ x for 1 ≤ x ≤ 2^32 |
| Swizzle.LeastPow2AtLeastIsLeast | bfres/BNTX/pixelfmt/swizzle.py:16-24 | for x ≥ 1, the specification of `pow2_round_up` is ≥ x, and no power of two ≥ x is smaller |
| Swizzle.SmearStep | bfres/BNTX/pixelfmt/swizzle.py:18-22 | one `x \|= x >> c` step widens the run of leading ones by c bits |
| Swizzle.Smeared | bfres/BNTX/pixelfmt/swizzle.py:18-23 | after the five steps on m = x - 1 every one of its BitLength(m) bits is set |
| Swizzle.GobAligned | bfres/BNTX/pixelfmt/swizzle.py:67-79 | with base 0 the GOB address is a multiple of 512, and the address lies within 0..511 bytes past it |
| Swizzle.GobOffsetInjective | bfres/BNTX/pixelfmt/swizzle.py:74-77 | the in-GOB offset of the 64 byte columns × 8 rows is one-to-one |
| Swizzle.GobOffsetDigits | bfres/BNTX/pixelfmt/swizzle.py:74-77 | the column and the row can be read back from the bits of an in-GOB offset |
| Swizzle.GeometryHoldsBlocks | bfres/BNTX/pixelfmt/swizzle.py:29-47 | the padded pitch is ≥ wb·bpp and the padded height ≥ hb, so the surface holds the wb·hb blocks |
| Swizzle.BlockBytes | bfres/BNTX/pixelfmt/swizzle.py:57-60 | byte (y·wb + x)·bpp + k, for k < bpp, belongs to block y·wb + x, and that index gives back x and y |
| Swizzle.BlockInSurface | bfres/BNTX/pixelfmt/swizzle.py:34-60 | every destination range lies inside the result buffer |
| Swizzle.LinearByteOfBlock | bfres/BNTX/pixelfmt/swizzle.py:49-60 | byte k of block (x, y) of the result is source byte pos + k if the block's source range fits the surface, and 0 if not |
| Swizzle.Deswizzle | bfres/BNTX/pixelfmt/swizzle.py:26-62 | fills a zeroed buffer of the surface size block by block; the result is the linear image of the surface |
| Swizzle.CopyBlocks | bfres/BNTX/pixelfmt/swizzle.py:49-60 | the y/x copy loop leaves every block equal to the linear image and the tail zero |
| Swizzle.TailBytesZero | bfres/BNTX/pixelfmt/swizzle.py:47 | bytes from wb·hb·bpp on belong to no block and stay zero |
| Swizzle.DeswizzledLength | bfres/BNTX/pixelfmt/swizzle.py:29-47 | the output length is `round_up(wb·bpp, 32)·hb` in tile mode 1 and `round_up(wb·bpp, 64)·round_up(hb, 8·2^log2)` otherwise |
| Swizzle.LinearModeCopiesRows | bfres/BNTX/pixelfmt/swizzle.py:49-55 | in tile mode 1, output range [(y·wb + x)·bpp, +bpp) equals input range [y·pitch + x·bpp, +bpp) |
| Swizzle.LinearRowFits | bfres/BNTX/pixelfmt/swizzle.py:34-55 | in tile mode 1 every block's source range fits in the surface, so no block is skipped |
| Swizzle.BlockLinearCopies | bfres/BNTX/pixelfmt/swizzle.py:42-60 | outside tile mode 1 a block whose GOB address range fits is copied from there, and one whose range does not fit stays zero |
| Swizzle.TailIsZero | bfres/BNTX/pixelfmt/swizzle.py:47 | bytes past the last block are zero in the output |
| Signed8.ToSigned8 | bfres/BNTX/pixelfmt/BCn/decompress_.py:18-28 | a byte read as two's complement; above 255 gives -1 and below 0 gives 0 |
| Signed8.ToUnsigned8 | bfres/BNTX/pixelfmt/BCn/decompress_.py:31-41 | a signed value as a byte; above 127 saturates to 127 and below -128 to the encoding of -128 |
| Signed8.RoundTrips | bfres/BNTX/pixelfmt/BCn/decompress_.py:18-41 | `ToUnsigned8(ToSigned8(v)) == v` for 0..255 and `ToSigned8(ToUnsigned8(s)) == s` for -128..127 |
| Signed8.UnsignedSaturates | bfres/BNTX/pixelfmt/bc/base.py:18-42 | decoding an encoded integer clamps it to -128..127 (the copies in bc/base.py are the same functions) |
| Decompress.DecodeRgb565 | bfres/BNTX/pixelfmt/BCn/decompress_.py:43-54 | four bytes, alpha 0xFF |
| Decompress.Widen5 | bfres/BNTX/pixelfmt/BCn/decompress_.py:45-51 | `(f << 3) \| ((f << 3) >> 5)` is f·8 + f/4: the top three bits replicated below |
| Decompress.Widen6 | bfres/BNTX/pixelfmt/BCn/decompress_.py:46-50 | the green widening `(f << 2) \| ((f << 2) >> 5)` is f·4 + f/8, less 4 when f is odd and ≥ 32, because it ORs bits into the field itself instead of below it |
| Decompress.DecodeChannels | bfres/BNTX/pixelfmt/BCn/decompress_.py:43-54 | red and blue are the standard 5-to-8-bit widening of bits 11-15 and 0-4; green is the Widen6 value of bits 5-10 |
| Decompress.DecodeTopBits | bfres/BNTX/pixelfmt/BCn/decompress_.py:43-54 | R >> 3 is bits 11-15, B >> 3 is bits 0-4, G >> 3 is bits 6-10 |
| Decompress.DecodeRgb565Extremes | bfres/BNTX/pixelfmt/BCn/decompress_.py:43-54 | 0xF800 decodes to (255, 0, 0, 255) and 0x0000 to (0, 0, 0, 255) |
| Decompress.DecodeIsUnpackReversed | bfres/BNTX/pixelfmt/BCn/decompress_.py:43-54 | red and blue of `decodeRGB565` are blue and red of `unpackRGB565` |
| Decompress.GreenFieldsCollide | bfres/BNTX/pixelfmt/BCn/decompress_.py:46-50 | a colour whose green field is 32 decodes exactly like the same colour with green field 33, both with green 132: the decoder loses a green level |
| Decompress.UnpackKeepsGreenApart | bfres/BNTX/pixelfmt/bc/base.py:6-10 | `unpackRGB565` keeps green fields 32 and 33 apart (130 and 134) |
| Decompress.Palette | bfres/BNTX/pixelfmt/BCn/decompress_.py:56-78 | four palette entries of four bytes each (their values are stated by PaletteRule and PaletteRuleThreeColour) |
| Decompress.PaletteRule | bfres/BNTX/pixelfmt/BCn/decompress_.py:56-78 | for c0 > c1 or a non-BC1 block, per channel colour2 = (2a + b)/3 and colour3 = (a + 2b)/3, both opaque |
| Decompress.PaletteRuleThreeColour | bfres/BNTX/pixelfmt/BCn/decompress_.py:63-78 | for BC1 with c0 ≤ c1, colour2 = (a + b)/2, opaque, and colour3 = (0, 0, 0, 0) |
| Decompress.PaletteSwap | bfres/BNTX/pixelfmt/BCn/decompress_.py:56-78 | outside BC1 mode, swapping the endpoints swaps colour2 and colour3 |
| Decompress.C2Decode | bfres/BNTX/pixelfmt/BCn/decompress_.py:56-68 | the list update sets colour[2] to the third palette entry and leaves the other three entries unchanged |
| Decompress.C3Decode | bfres/BNTX/pixelfmt/BCn/decompress_.py:70-78 | the list update sets colour[3] to the fourth palette entry and leaves the other three entries unchanged |
| Decompress.Exp4To8 | bfres/BNTX/pixelfmt/BCn/decompress_.py:81-82 | a 4-bit value repeated in both nibbles, 17·v, a byte |
| Decompress.Dxt135ImageBlock | bfres/BNTX/pixelfmt/BCn/decompress_.py:84-94 | the palette of the two little-endian endpoints at blksrc, and the 32-bit index word at blksrc + 4 |
| Decompress.PaletteEntries | bfres/BNTX/pixelfmt/BCn/decompress_.py:84-94 | the colour list built from the endpoints and the C2/C3 updates is the palette |
| Decompress.Dxt5AlphaBlock | bfres/BNTX/pixelfmt/BCn/decompress_.py:96-108 | an 8-entry ramp whose entry c is `decodeAlpha(c, a0, a1)` for every code |
| Decompress.InterpolateSevenths | bfres/BNTX/pixelfmt/BCn/decompress_.py:100-102 | when a0 > a1, entries 2..7 are (a0·(8 - i) + a1·(i - 1))/7 |
| Decompress.InterpolateFifths | bfres/BNTX/pixelfmt/BCn/decompress_.py:103-107 | when a0 ≤ a1, entries 2..5 are (a0·(6 - i) + a1·(i - 1))/5, entry 6 is 0 and entry 7 is 255 |
| Decompress.AlphaEnds | bfres/BNTX/pixelfmt/BCn/decompress_.py:96-108 | entries 0 and 1 are the endpoint bytes; for a0 ≤ a1, entries 6 and 7 are 0 and 255 |
| Decompress.Dxt5AlphaBlockSigned | bfres/BNTX/pixelfmt/BCn/decompress_.py:110-122 | the signed ramp: entry c is `decodeAlphaSigned(c, a0, a1)`, so its terminal values are 0x80 and 0x7F |
| DecompressImages.DecompressDxt1 | bfres/BNTX/pixelfmt/BCn/decompress_.py:124-145 | width·height·4 bytes: each pixel the palette entry its running 2-bit index selects |
| DecompressImages.Dxt1ImageAt | bfres/BNTX/pixelfmt/BCn/decompress_.py:131-143 | byte c of pixel (px, py) is byte c of the texel of block (px/4, py/4) |
| DecompressImages.Dxt1ZeroIndices | bfres/BNTX/pixelfmt/BCn/decompress_.py:134-143 | a block whose index bits are all 0 paints every pixel with colour 0 |
| DecompressImages.Dxt1Selects | bfres/BNTX/pixelfmt/BCn/decompress_.py:140-143 | the index at the running shift picks the block's texel from its palette |
| DecompressImages.Dxt1Pixel | bfres/BNTX/pixelfmt/BCn/decompress_.py:137-143 | the texel the loop writes for (tx, ty) of block (x, y) is pixel (4x + tx, 4y + ty) of the image |
| DecompressImages.DecompressDxt5 | bfres/BNTX/pixelfmt/BCn/decompress_.py:176-199 | width·height·4 bytes: colour from the DXT1 palette at blksrc + 8, alpha from the ramp at blksrc |
| DecompressImages.Dxt5LastTexelPastEnd | bfres/BNTX/pixelfmt/BCn/decompress_.py:179-197 | when width or height is not a multiple of 4, the last texel's offset is at or past the end of the width·height·4 byte output, where the store raises |
| DecompressImages.Dxt5ImageAt | bfres/BNTX/pixelfmt/BCn/decompress_.py:182-197 | byte c of pixel (px, py) is byte c of its block's texel |
| DecompressImages.Dxt5AlphaEndpoints | bfres/BNTX/pixelfmt/BCn/decompress_.py:186-197 | a texel with alpha code 0 or 1 has that endpoint byte as alpha |
| DecompressImages.Dxt5ColorEndpoint | bfres/BNTX/pixelfmt/BCn/decompress_.py:185-196 | a texel with colour index 0 has the colour channels of the decoded first endpoint |
| DecompressImages.Dxt5Pixel | bfres/BNTX/pixelfmt/BCn/decompress_.py:190-197 | the texel written for (tx, ty) of block (x, y) is pixel (4x + tx, 4y + ty) |
| DecompressImages.DecompressBc4 | bfres/BNTX/pixelfmt/BCn/decompress_.py:201-230 | width·height bytes for any width and height; the loops stop at the image edge |
| DecompressImages.ChannelImageAt | bfres/BNTX/pixelfmt/BCn/decompress_.py:208-228 | pixel (px, py) is the ramp entry that the 3-bit code at shift 3·(4·ty + tx) of block bytes 2..7 selects |
| DecompressImages.ChannelPixelIs | bfres/BNTX/pixelfmt/BCn/decompress_.py:219-228 | only texels inside the image are written, each at its own pixel |
| DecompressImages.SnormBias | bfres/BNTX/pixelfmt/BCn/decompress_.py:226 | `ToSigned8(v) + 0x80` is a byte, v with its top bit flipped |
| DecompressImages.ChannelEndpoints | bfres/BNTX/pixelfmt/BCn/decompress_.py:211-228 | code 0 or 1 gives the endpoint byte itself (UNORM), or with its top bit flipped (SNORM) |
| DecompressImages.DecompressBc5 | bfres/BNTX/pixelfmt/BCn/decompress_.py:233-268 | two channels of width·height bytes: channel 0 decodes bytes 0..7 of each 16-byte block and channel 1 bytes 8..15 by the same rule |
| BcnFormats.Id | bfres/BNTX/pixelfmt/BCn/__init__.py:15-116 | BC1..BC5 are 0x1A..0x1E |
| BcnFormats.IdsDistinct | bfres/BNTX/pixelfmt/BCn/__init__.py:15-116 | the five ids are pairwise distinct and cover 0x1A..0x1E |
| BcnFormats.CompressedSize | bfres/BNTX/pixelfmt/BCn/__init__.py:31-133 | ⌈w/4⌉·⌈h/4⌉·8 for BC1 and BC4, ·16 for BC2, BC3 and BC5 |
| BcnFormats.Snorm | bfres/BNTX/pixelfmt/BCn/__init__.py:98-124 | 0 exactly for the UNorm data type (1), 1 for every other |
| BcnFormats.DecompressBc1 | bfres/BNTX/pixelfmt/BCn/__init__.py:14-37 | empty when the data is shorter than csize, otherwise the DXT1 image of exactly the first csize bytes |
| BcnFormats.Bc2Input | bfres/BNTX/pixelfmt/BCn/__init__.py:39-62 | empty when short, otherwise exactly the first csize bytes reach decompressDXT3 |
| BcnFormats.DecompressBc3 | bfres/BNTX/pixelfmt/BCn/__init__.py:64-87 | empty when short, otherwise the DXT5 image of the first csize bytes |
| BcnFormats.DecompressBc4 | bfres/BNTX/pixelfmt/BCn/__init__.py:89-113 | empty when short, otherwise the channel of the first csize bytes, SNORM unless the type is UNorm |
| BcnFormats.DecompressBc5 | bfres/BNTX/pixelfmt/BCn/__init__.py:115-139 | empty when short, otherwise the two channels of the first csize bytes |
| BcBase.UnpackRgb565 | bfres/BNTX/pixelfmt/bc/base.py:6-10 | r = f·8 + f/4 of bits 0-4, g = f·4 + f/16 of bits 5-10, b of bits 11-15, alpha 0xFF |
| BcBase.UnpackChannels | bfres/BNTX/pixelfmt/bc/base.py:6-10 | r >> 3 == p & 0x1F, g >> 2 == (p >> 5) & 0x3F, b >> 3 == p >> 11 |
| BcBase.CalcClut2 | bfres/BNTX/pixelfmt/bc/base.py:70-74 | each channel is the floor of (2a + b)/3, alpha 0xFF, whatever the order of c0 and c1 |
| BcBase.CalcClut3 | bfres/BNTX/pixelfmt/bc/base.py:77-81 | each channel is the floor of (a + 2b)/3, alpha 0xFF |
| BcBase.Blend | bfres/BNTX/pixelfmt/bc/base.py:70-81 | the floor of the weighted mean (a·wa + b·wb)/d |
| BcBase.BlendBetween | bfres/BNTX/pixelfmt/bc/base.py:70-81 | a blend lies between its two endpoints |
| BcBase.DecodeTile | bfres/BNTX/pixelfmt/bc/base.py:45-67 | a header past the end raises; otherwise 64 bytes, texel k being `clut[(idxs >> 2k) & 3]` |
| BcBase.FillTexels | bfres/BNTX/pixelfmt/bc/base.py:58-66 | the texel loop writes texel k in row-major order from palette entry (idxs >> 2k) & 3 |
| BcBase.Clut | bfres/BNTX/pixelfmt/bc/base.py:53-56 | four 4-byte colours: the two endpoints and the two blends |
| BcBase.DecodeAlpha | bfres/BNTX/pixelfmt/bc/base.py:108-128 | the code is `bits & 7`; codes 0 and 1 are the endpoints; for a0 ≤ a1, codes 6 and 7 are 0 and 255 |
| BcBase.DecodeAlphaRamp | bfres/BNTX/pixelfmt/bc/base.py:117-121 | the 7-step ramp for a0 > a1 and the 5-step ramp otherwise, as floor divisions |
| BcBase.DecodeAlphaBetween | bfres/BNTX/pixelfmt/bc/base.py:108-128 | every interpolated entry lies between the endpoints |
| BcBase.DecodeAlphaSigned | bfres/BNTX/pixelfmt/bc/base.py:83-106 | codes 0 and 1 return the raw endpoint bytes; for signed a0 ≤ a1, code 6 gives 0x80 and every code from 7 on gives 0x7F |
| BcBase.DecodeAlphaSignedBetween | bfres/BNTX/pixelfmt/bc/base.py:95-99 | an interpolated entry, read back as signed, is the floor mean of the signed endpoints and lies between them |
| BcBase.SignedBlendMean | bfres/BNTX/pixelfmt/bc/base.py:95-99 | the signed mean stays in -128..127, so `ToUnsigned8` keeps it exactly |
| Bc5.DecodeAlphaAgrees | bfres/BNTX/pixelfmt/bc/bc5.py:65-83 | `BC5.decodeAlpha` equals `BCn.decodeAlpha` on every input |
| Bc5.Texel | bfres/BNTX/pixelfmt/bc/bc5.py:29-54 | a texel is (b, g, r, 255), with red byte 2, green byte 1 and blue `calcBlue(r, g)` |
| Bc5.Image | bfres/BNTX/pixelfmt/bc/bc5.py:11-56 | for w × h blocks, w·h·64 bytes, four per pixel |
| Bc5.ImageAt | bfres/BNTX/pixelfmt/bc/bc5.py:21-54 | pixel (px, py) of the image is texel (px % 4, py % 4) of block (px/4, py/4) |
| Bc5.TexelOutIsAt | bfres/BNTX/pixelfmt/bc/bc5.py:32-47 | texel (tx, ty) of block (x, y) goes to `(4x + tx + (4y + ty)·4w)·4`, which lies in the buffer |
| Bc5.TexelOutDistinct | bfres/BNTX/pixelfmt/bc/bc5.py:32-54 | distinct texels, or distinct bytes of a texel, never share an offset |
| Bc5.Decode | bfres/BNTX/pixelfmt/bc/bc5.py:11-56 | the block and texel loops produce exactly `Image` (with the green read corrected, see Findings) |
| Bc5.PixelIs | bfres/BNTX/pixelfmt/bc/bc5.py:21-54 | block (x, y) texel (tx, ty) written by the loops is image pixel (4x + tx, 4y + ty) |
| Bc5.ChannelIs | bfres/BNTX/pixelfmt/bc/bc5.py:33-54 | the channel computed from the extracted code is the model's channel: the ramp entry, biased by 128 for SNORM data |
| Bc5.GreenWordAsWritten | bfres/BNTX/pixelfmt/bc/bc5.py:27 | the as-written green read succeeds exactly when offs + 18 bytes exist |
| Bc5.LastBlockGreenWordFails | bfres/BNTX/pixelfmt/bc/bc5.py:27 | a lone 16-byte block cannot be decoded as written |
| Bc5.GreenReadCorrected | bfres/BNTX/pixelfmt/bc/bc5.py:27-35 | where the as-written read succeeds, it gives every texel the same code as the six-byte read |
| Bc5.WordCodesAgree | bfres/BNTX/pixelfmt/bc/bc5.py:25-35 | the 3-bit codes of the 8-byte word and of its low six bytes agree |
| Brti.BlockDims | bfres/BNTX/BRTI.py:139-142 | the format's `blk_dims` entry, or (1, 1) when it has none |
| Brti.BlockHeightLog2 | bfres/BNTX/BRTI.py:143 | `texture_layout & 7`, a value in 0..7 |
| Brti.ReadableEntries | bfres/BNTX/BRTI.py:155-158 | the number of mip entries that can be read before the first one past the end |
| Brti.ReadableIsPrefix | bfres/BNTX/BRTI.py:155-158 | readable entries form a prefix: past the first unreadable entry none is readable |
| Brti.NotReadable | bfres/BNTX/BRTI.py:155-158 | mip entry i raises exactly when i is not below the number of readable entries |
| Brti.MipEntries | bfres/BNTX/BRTI.py:155-158 | k entries, entry i being the 32-bit word at ptrs_offset + 8i |
| Brti.DeswizzleLog2Rule | bfres/BNTX/BRTI.py:166-177 | the log2 passed to deswizzle is lowered by one exactly when log2 ≥ 1 and hb ≤ 4·2^log2, which is when `pow2_round_up(hb) < 8·2^log2` |
| Brti.DeswizzleLog2 | bfres/BNTX/BRTI.py:166-177 | `max(0, log2 - shift)`: the unchanged log2, one less, or 0 |
| Brti.AdjustedBlockHeightLog2 | bfres/BNTX/BRTI.py:166-177 | the `pow2_round_up` comparison and the shift compute DeswizzleLog2 |
| Brti.MipFitsSurface | bfres/BNTX/BRTI.py:170-180 | the mip size is never larger than the deswizzled surface |
| Brti.DataOutcomeMeaning | bfres/BNTX/BRTI.py:161-180 | data is the data_len bytes at the 64-bit base stored at ptrs_offset; an empty mip table raises; mipData is exactly the first size bytes of the deswizzled surface |
| Brti.Texture.constructor | bfres/BNTX/BRTI.py:77-79 | a texture with no mip offsets |
| Brti.Texture.LookUpFormat | bfres/BNTX/BRTI.py:136-143 | for a known format: bpp from `bpps`, the block dimensions and the block height log2 |
| Brti.Texture.CopyHeader | bfres/BNTX/BRTI.py:127-134 | the header fields copied into the texture |
| Brti.Texture.ReadMipmaps | bfres/BNTX/BRTI.py:153-158 | appends the readable entries to `mipOffsets`, succeeding exactly when all mipmap_cnt entries are read |
| Brti.Texture.ReadData | bfres/BNTX/BRTI.py:161-180 | `data` and `mipData` become what DataOutcome says, and stay unchanged where it raises first |
| Brti.Texture.ReadImage | bfres/BNTX/BRTI.py:147-148 | the mip table, then the data only when the table was read in full |
| Brti.Texture.ReadFromFile | bfres/BNTX/BRTI.py:125-148 | the header fields; an unknown format id raises before any read and leaves the format fields, the mip table and the data unchanged; otherwise the format fields, then the mip table and the data |
| Flags.CalcSize | bfres/BinaryStruct/Flags.py:12 | `struct.calcsize` of an integer format, a size from 1 to 8 bytes |
| Flags.Extract | bfres/BinaryStruct/Flags.py:24-28 | the mask-and-shift is the length bits of val at offs, a value below 2^length |
| Flags.UnpackOk | bfres/BinaryStruct/Flags.py:19-29 | unpacking succeeds exactly when every conversion of a non-reserved entry does |
| Flags.UnpackTotal | bfres/BinaryStruct/Flags.py:19-29 | a layout whose conversions all accept every value unpacks every word without raising |
| Flags.UnpackKeys | bfres/BinaryStruct/Flags.py:17-20 | the keys are `_raw` and the non-reserved names; no RESERVED name appears |
| Flags.UnpackField | bfres/BinaryStruct/Flags.py:18-29 | an entry gets the bits at the sum of all earlier lengths, RESERVED ones included, converted by its function if it has one |
| Flags.UnpackRaw | bfres/BinaryStruct/Flags.py:17 | `_raw` holds the unmodified word |
| Flags.UnpackStops | bfres/BinaryStruct/Flags.py:19-29 | once a conversion raises, later entries change nothing |
| Flags.Flags.constructor | bfres/BinaryStruct/Flags.py:8-12 | name, layout, format, and size the format's calcsize |
| Flags.Flags.ReadFromFile | bfres/BinaryStruct/Flags.py:15-30 | a read past the end raises; otherwise the word at offset split by the layout |
| Bone.ModeOf | bfres/FRES/FMDL/Bone.py:100-108 | `BillboardMode(v)`: the member whose value is v, or ValueError |
| Bone.ModeRoundTrip | bfres/FRES/FMDL/Bone.py:100-108 | every member converts back from its value |
| Bone.Widths | bfres/FRES/FMDL/Bone.py:33-87 | both layouts add up to exactly 32 bits |
| Bone.NamesDistinct | bfres/FRES/FMDL/Bone.py:33-87 | no name occurs twice in a layout |
| Bone.LayoutsTotal | bfres/FRES/FMDL/Bone.py:38-108 | all 8 values of BB_MODE name a billboard mode |
| Bone.Decodes | bfres/FRES/FMDL/Bone.py:33-87 | unpacking either layout never raises |
| Bone.Entry0 | bfres/FRES/FMDL/Bone.py:33-52 | each non-reserved BoneStruct entry holds its own bits |
| Bone.Entry10 | bfres/FRES/FMDL/Bone.py:70-87 | each non-reserved BoneStruct10 entry holds its own bits |
| Bone.Visible | bfres/FRES/FMDL/Bone.py:34-72 | VISIBLE is bit 0 before version 0.10 and bit 12 from it |
| Bone.Euler | bfres/FRES/FMDL/Bone.py:36 | EULER is bit 12 before version 0.10 |
| Bone.NoEuler | bfres/FRES/FMDL/Bone.py:70-87 | from version 0.10 there is no EULER key |
| Bone.BbMode | bfres/FRES/FMDL/Bone.py:38-74 | BB_MODE is bits 16-18 in both layouts, converted to its billboard mode |
| Bone.ScaleFlag | bfres/FRES/FMDL/Bone.py:41-86 | SEG_SCALE_COMPENSATE .. GRP_NO_TRANSLATION are bits 23..31 in the same order in both layouts |
| Bone.RawWord | bfres/FRES/FMDL/Bone.py:33-87 | `_raw` keeps the whole flag word in both layouts |
| Bone.StructFor | bfres/FRES/FMDL/Bone.py:156-159 | version (0, 10) reads BoneStruct10, every other version BoneStruct |
| Bone.VersionFlags | bfres/FRES/FMDL/Bone.py:156-171 | whatever the version, the flags hold VISIBLE (bit 12 from 0.10, bit 0 before), BB_MODE from bits 16-18 and the whole word; EULER exists exactly before 0.10 |
| Bone.Bone.constructor | bfres/FRES/FMDL/Bone.py:110-113 | a bone bound to its FRES file (its header version and record decoder), with no offset and no parent |
| Bone.Bone.ReadFromFres | bfres/FRES/FMDL/Bone.py:151-173 | the offset is recorded and the parent kept; the read fails exactly when the record of the layout of the FRES file's version cannot be read, with its error and the other fields unchanged; otherwise that record is copied |
| Bone.Bone.Copy | bfres/FRES/FMDL/Bone.py:161-171 | name, position, rotation, scale, the index fields and the flags are copied unchanged |
| Reader.ReadUint | bfres/FRES/FMDL/FMAT.py:486 | an n-byte little-endian integer; raises past the end |
| Reader.ReadSint | bfres/FRES/FMDL/FMAT.py:433-434 | an n-byte two's-complement integer; raises past the end |
| Reader.ReadBytes | bfres/BNTX/BRTI.py:164 | the n bytes at offs; raises past the end |
| Reader.ReadStr | bfres/FRES/FMDL/FMAT.py:487 | the string table entry at an offset; raises when there is none |
| Tables.Prefix | bfres/FRES/FMDL/FMAT.py:485-488 | the `for i in range(n)` loop over a record decoder: at most n items, ending normally exactly when it has n |
| Tables.PrefixMeaning | bfres/FRES/FMDL/FMAT.py:452-462 | the loop ends normally iff every record decodes; item i is record i; a failed loop carries the first record's exception |
| Tables.PrefixStops | bfres/FRES/FMDL/FMAT.py:452-462 | after the first exception, later records change nothing |
| Tables.RunSteps | bfres/FRES/FMDL/FMAT.py:452-462 | the loop, written imperatively, computes Prefix |
| Tables.CollectTable | bfres/FRES/FMDL/FMAT.py:351-353 | storing each decoded record under its name as it is decoded builds Table |
| Tables.TableLastWins | bfres/FRES/FMDL/FMAT.py:351-423 | the last pair of a name decides its value |
| Tables.TableFrom | bfres/FRES/FMDL/FMAT.py:351-353 | every stored value comes from a pair of that name |
| Tables.NamedLastWins | bfres/FRES/FMDL/FMAT.py:502-515 | among options stored by name, the last of a non-empty name decides its value |
| Tables.NamedFrom | bfres/FRES/FMDL/FMAT.py:504-515 | every stored option comes from a record of that non-empty name |
| FmatRecords.StrAt | bfres/FRES/FMDL/FMAT.py:486-487 | the string an 8-byte string offset points to |
| FmatRecords.Node | bfres/FRES/FMDL/FMAT.py:500 | `nodes[k].name` of a Dict that may be `None`; raises when it is `None` or k is out of range |
| FmatRecords.ShaderParamType | bfres/FRES/FMDL/FMAT.py:12-22 | the seven listed tags and their formats; any other tag raises KeyError |
| FmatRecords.InfoMeaning | bfres/FRES/FMDL/FMAT.py:331-349 | the read succeeds exactly when the tag is below 3 and every one of the cnt values can be read; a tag ≥ 3 raises at `types[typ]` before any value is read |
| FmatRecords.InfoContents | bfres/FRES/FMDL/FMAT.py:339-353 | a read param holds its name, count, type name and exactly cnt values, in order |
| FmatRecords.InfoAddresses | bfres/FRES/FMDL/FMAT.py:339-349 | string values are read through the pointer at offset + 8j; floats and, from 0.10, s32 values at offset + 4j; before 0.10 a tag-0 value is the pair of floats at offset + 4j and offset + 4j + 4, which must both lie in the file |
| FmatRecords.InfoPairsOverlap | bfres/FRES/FMDL/FMAT.py:329-344 | before 0.10 a type-0 value is a `2f` pair read 4 bytes after the previous one, so the second float of value j is the first of value j + 1 |
| FmatRecords.RenderRecord0Reads | bfres/FRES/FMDL/FMAT.py:312-329 | before 0.10, render-info record i is the 24 bytes at base + 24i: the name through its first 8 bytes, the count at +16, the tag at +18 (below 3, naming the type name), and value j is value j of that tag at the offset stored at +8 |
| FmatRecords.RenderRecord10Reads | bfres/FRES/FMDL/FMAT.py:294-310 | from 0.10, record i is at base + 16i with its name and its tag byte at +8 (below 3, naming the type name); its count is at cntBase + 2i, and value j is value j of that tag read from valBase plus the 2-byte offset at offBase + 2i |
| FmatRecords.ReadItems | bfres/FRES/FMDL/FMAT.py:364-394 | a record's n four-byte items are read from the 4·n bytes at offs, and the read raises past the end |
| FmatRecords.ParamRecord0Meaning | bfres/FRES/FMDL/FMAT.py:383-423 | before 0.10, param i is the record at array_offs + 32i: name, type of its tag, size, offset, unk0, unk14 and both indices as stored; its raw data is exactly the size bytes at data_offs + offset; an unlisted tag raises |
| FmatRecords.ParamRecord10Meaning | bfres/FRES/FMDL/FMAT.py:356-381 | from 0.10, param i is at array_offs + 0x18i; an unlisted tag raises |
| FmatRecords.DictZeroOffset | bfres/FRES/FMDL/FMAT.py:279-286 | a zero `*_dict_offs` gives `None` with no read; any other offset gives the Dict there, or its exception |
| FmatRecords.TexRefMeaning | bfres/FRES/FMDL/FMAT.py:429-437 | texture reference i is the string behind the pointer at tex_ref_array_offs + 8i, with the signed slot at tex_slot_offs + 8i. It is stored under the name of sampler node i + 1 and raises when any of these is missing |
| FmatRecords.FragMeaning | bfres/FRES/FMDL/FMAT.py:439-450 | fragment sampler i is the texture reference named by the string at tex_attr_names + 8i, and raises when there is none. It is keyed by texture-attribute node i + 1 when the index offset is 0 (and, corrected, always before 0.10, see Findings), otherwise by the node the index byte at tex_attr_indx + i names |
| FmatRecords.AsWrittenV0TexAttrIndexFails | bfres/FRES/FMDL/FMAT.py:444 | before 0.10, `tex_attr_indx` is absent from every ShaderAssign record, so the lookup as written raises |
| FmatRecords.TexAttrIndex | bfres/FRES/FMDL/FMAT.py:444-449 | the corrected index offset: the lookup as written from 0.10, and 0 (attributes in node order) before it |
| FmatRecords.V0FragNodesInOrder | bfres/FRES/FMDL/FMAT.py:444-446 | with that correction, every texture attribute read before 0.10 takes node i + 1 of the texture-attribute dict |
| FmatRecords.SamplerListLength | bfres/FRES/FMDL/FMAT.py:452-462 | a completed list has sampler_cnt entries |
| FmatRecords.SamplerEntryAt | bfres/FRES/FMDL/FMAT.py:452-462 | entry i is the SamplerInfo at sampler_info_offs + 0x20i, with the slot at sampler_slot_offs + 8i |
| FmatRecords.AssignMerge | bfres/FRES/FMDL/FMAT.py:477-482 | from 0.10 the shader reflection's fields are merged into both the assign and the header, and reflection wins |
| FmatRecords.VtxAttrAt | bfres/FRES/FMDL/FMAT.py:484-488 | num_vtx_attrs names, name i being the string at vtx_attr_names + 8i |
| FmatRecords.AttrDicts | bfres/FRES/FMDL/FMAT.py:490-494 | both Dicts are read at the offsets under the given keys, even offset zero |
| FmatRecords.AsWrittenV0DictsFail | bfres/FRES/FMDL/FMAT.py:490-494 | before 0.10, the key as written is absent from every ShaderAssign record, so the read raises |
| FmatRecords.V0DictsRead | bfres/FRES/FMDL/FMAT.py:490-494 | with the layout's own field names the Dicts are read at the offsets the record holds |
| FmatRecords.AssignDictKeys | bfres/FRES/FMDL/FMAT.py:490-494 | the corrected keys: from 0.10 the reflection fields the code names, before it fields the ShaderAssign layout has |
| FmatRecords.StrCount | bfres/FRES/FMDL/FMAT.py:507-517 | num_shader_options less the boolean ones from 0.10; a negative difference is no options |
| FmatRecords.BoolOptMeaning | bfres/FRES/FMDL/FMAT.py:497-505 | boolean option i exists exactly when node i + 1 does; it is named by that node with value `(bools & (1 << i)) != 0`; with a 4-byte mask every option from 32 on is false |
| FmatRecords.StrOptMeaning | bfres/FRES/FMDL/FMAT.py:507-525 | string option i is named by node num_bool + i + 1 from 0.10 and by node i + 1 before it, with the string behind the pointer at shader_option_vals + 8i as its value |
| FmatRecords.OptionsStored | bfres/FRES/FMDL/FMAT.py:495-525 | an option with an empty name is never stored, and the last option with a name decides its value |
| FmatRecords.HeaderKind | bfres/FRES/FMDL/FMAT.py:259-266 | Header10 for version (0, 10), Header for every other |
| FmatRecords.MaterialTables | bfres/FRES/FMDL/FMAT.py:262-271 | a successful read holds one entry for each of the four dict names; Fmat.Material.ReadTables ties the state to it |
| FmatRecords.FragSamplersBound | bfres/FRES/FMDL/FMAT.py:439-450 | every fragment sampler is bound to a texture reference |
| FmatRecords.TexturesNamed | bfres/FRES/FMDL/FMAT.py:426-462 | every texture reference is stored under a node of the sampler dict, and there are sampler_cnt sampler infos |
| Fmat.Material.constructor | bfres/FRES/FMDL/FMAT.py:178-182 | a material of its FRES file with nothing read |
| Fmat.Material.ReadFromFres | bfres/FRES/FMDL/FMAT.py:254-276 | the header of the version, then the shader assign, the tables, the name, the samplers and the sampler infos, as ReadMaterial says |
| Fmat.Material.ReadAfterHeader | bfres/FRES/FMDL/FMAT.py:261-274 | the steps after the header, as AfterHeader says |
| Fmat.Material.ReadBody | bfres/FRES/FMDL/FMAT.py:262-274 | the steps after the shader assign, as MaterialBody says |
| Fmat.Material.ReadTables | bfres/FRES/FMDL/FMAT.py:262-271 | `_readDicts`, render info and material params of the version, then the name |
| Fmat.Material.ReadShaderAssign | bfres/FRES/FMDL/FMAT.py:466-525 | the assign record, the reflection merge, vtxAttrs, the two Dicts and the shader options |
| Fmat.Material.ReadVtxAttrs | bfres/FRES/FMDL/FMAT.py:484-488 | `vtxAttrs` becomes the names VtxRun reads |
| Fmat.Material.ReadShaderOptions | bfres/FRES/FMDL/FMAT.py:495-525 | from 0.10 the boolean then the string options, before it the string options |
| Fmat.Material.StoreOptions | bfres/FRES/FMDL/FMAT.py:499-525 | `shaderOptions` becomes prior with the decoded options stored by name |
| Fmat.Material.ReadDicts | bfres/FRES/FMDL/FMAT.py:279-286 | `<name>_dict` for the four names in order |
| Fmat.Material.StoreDicts | bfres/FRES/FMDL/FMAT.py:282-286 | dict i set as the i-th `<name>_dict` attribute |
| Fmat.Material.SetDictAttr | bfres/FRES/FMDL/FMAT.py:286 | `setattr` of the i-th name, other attributes unchanged |
| Fmat.Material.ReadRenderInfo | bfres/FRES/FMDL/FMAT.py:294-329 | `renderInfo` starts empty and holds each record's param under its name |
| Fmat.Material.ReadRenderRecord | bfres/FRES/FMDL/FMAT.py:302-328 | record i's header from the version's table, then its values |
| Fmat.Material.ReadInfo | bfres/FRES/FMDL/FMAT.py:331-353 | the param's cnt values read, then stored under its name |
| Fmat.Material.ReadMaterialParams | bfres/FRES/FMDL/FMAT.py:356-423 | `materialParams` holds each param record of the version under its name |
| Fmat.Material.ReadSamplers | bfres/FRES/FMDL/FMAT.py:273-274 | `_readTextureSamplers` then `_readSamplerInfoArray` |
| Fmat.Material.ReadTextureSamplers | bfres/FRES/FMDL/FMAT.py:426-450 | the texture references by sampler name, then the fragment samplers |
| Fmat.Material.ReadTextureRefs | bfres/FRES/FMDL/FMAT.py:429-437 | `textureSamplers` becomes what TexRefRun reads |
| Fmat.Material.ReadFragSamplers | bfres/FRES/FMDL/FMAT.py:439-450 | `fragSamplers` becomes what FragRun reads |
| Fmat.Material.ReadSamplerInfoArray | bfres/FRES/FMDL/FMAT.py:452-462 | `samplerInfoList` becomes the sampler infos in index order |

## Left out

- File access: `BinaryFile`, the `BinaryStruct` field machinery, `Dict` and `BufferSection` are not part of this model. Integer and string reads go through `Reader.File`. Decoded struct records and Dict node lists are inputs or reader parameters.
- Floating point: float fields and param values are kept as their 32-bit patterns. `calcBlue` in bc/bc5.py (a square root) is a function parameter that returns a byte. `clamp` in bc/base.py and all of pixelfmt/rgb.py are left out because they are float code.
- `decompressDXT3`: its texel loop sits outside the x loop, it returns after the first block row, and it assigns into an immutable `bytes`, so it has no coherent result. BC2 is modelled up to what reaches it (`BcnFormats.Bc2Input`).
- `BCn.decompress` of the pixelfmt registry: the registry built from `__subclasses__` is a fixed table of ids and per-format functions. The `self.format_.decompress(self)` call at the end of `BRTI.readFromFile` is not modelled: Brti.Texture.ReadFromFile stops after the data is read.
- Logging, `dump()` and the YAZ0/zstd and Blender importer code are left out because they are I/O and UI code. So are `Bone.computeTransform` and its helpers, which use float trigonometry.
- `offset=None` (read at the file's current position) is left out: every reader takes an explicit offset.
- State after an exception: objects are not rolled back, as Python does not roll them back either. Brti.Texture, Flags.Flags, Bone.Bone and the single-loop Fmat.Material readers state the fields they have updated when a read raises. The composite FMAT readers Fmat.Material.ReadFromFres, ReadAfterHeader, ReadBody, ReadTables, ReadShaderAssign, ReadSamplers and ReadTextureSamplers state the error, and on it only the fields untouched before the failing step (ReadFromFres: the header when the header read raises; ReadShaderAssign: the assign and header when the assign read raises); the fields an earlier step already set are left unspecified.
- Python `bytearray` slice assignment that grows or shrinks the buffer is not modelled. It happens when a slice is short or a write lands past the end, and the following requires exclude those inputs, on some of which the source raises:
  - DecompressImages.DecompressDxt1: requires width and height each to be a multiple of 4 or below 4, and at least one block's data per block.
  - DecompressImages.DecompressDxt5: requires width and height to be multiples of 4, or the image to be empty (width or height 0, where the loops write nothing and the result is b''). For any other width or height (2 × 2 included) both are at least 1 and the last texel of the loops lies at or past the end of the output (DecompressImages.Dxt5LastTexelPastEnd), so the slice store at decompress_.py:196 grows the buffer and the index store at decompress_.py:197 then raises IndexError: the excluded inputs are exactly ones on which the source raises.
  - Swizzle.Deswizzle: requires `len(data) ≥ surfSize`.
- Brti.Texture.ReadData: data shorter than the surface leads to an `OutOfBounds` error, where Python's slice assignment would shrink the result buffer instead.
- Brti.Texture.ReadFromFile: requires the height to be below 2^32, the range in which `pow2_round_up` is the least power of two.
- Brti.AdjustedBlockHeightLog2: requires a height in blocks of at most 2^32, for the same reason.
- BcBase.CalcClut2: the source uses float `/` and then `int()`. On these non-negative values that is modelled as floor division, which rounds the same way for every byte input.
- Bc5.Decode: returns the pixel bytes only; the `self.depth` half of `return pixels, self.depth` is not modelled, since it is the decoder's field passed through unchanged.
- Bc5.Decode: requires every block's 16 bytes to lie in the data (`BlocksInData`); the source raises IndexError or struct.error at bc5.py:24-27 when one does not, and that error path is not modelled.
- Brti.Texture.ReadFromFile: `width` and `height` are decoded as signed 'i' at BRTI.py:31-32; the header model types them as `nat`, so a negative width or height is not modelled.
- DecompressImages.DecompressBc5: `np.empty` is modelled as two arrays whose cells are all written before they are read.
- DecompressImages.DecompressDxt5: writes each pixel as one 4-byte store. The source stores RGB and then alpha, and the final bytes are the same.
- Flags.UnpackField: for a RESERVED entry given as a (length, function) pair, Python would raise TypeError at `offs += length`, while the model adds the length. No layout of the core has such an entry.
- FMAT `tex_attr_dict_offs` / `shader_option_dict_offs` and `tex_attr_indx` before version 0.10: see Findings. The model reads the v0 record's own `tex_attr_dict` / `shader_option_dict` fields and takes the texture attributes in node order.

## Findings

| source | as written | input that shows it | evidently intended | confidence | as-written member | corrected member |
|---|---|---|---|---|---|---|
| bfres/BNTX/pixelfmt/bc/bc5.py:27 | the green index word is read as 8 bytes at offs + 10, running two bytes past the 16-byte block | a texture holding a single BC5 block in exactly 16 bytes: the read raises struct.error | read the 6 index bytes, or 8 bytes at offs + 8 and shift by 16 | not executed | Bc5.GreenWordAsWritten, Bc5.LastBlockGreenWordFails | Bc5.Decode, Bc5.GreenReadCorrected |
| bfres/FRES/FMDL/FMAT.py:490-494 | the Dict offsets are looked up as `tex_attr_dict_offs` and `shader_option_dict_offs`, keys the pre-0.10 ShaderAssign layout does not have | any material of a file whose version is not (0, 10): KeyError | use that layout's `tex_attr_dict` and `shader_option_dict` fields | not executed | FmatRecords.AsWrittenV0DictsFail | FmatRecords.V0DictsRead, FmatRecords.AssignDictKeys |
| bfres/FRES/FMDL/FMAT.py:444 | the index-array offset is looked up as `tex_attr_indx`, a key only the 0.10 ShaderAssign10 layout has | any pre-0.10 material with a texture attribute, once the Dict lookup above is corrected: KeyError | take the attributes in node order, as with a zero index offset | not executed | FmatRecords.AsWrittenV0TexAttrIndexFails | FmatRecords.TexAttrIndex, FmatRecords.V0FragNodesInOrder |
