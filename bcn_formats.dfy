/** The BC1..BC5 texture formats: their format ids and the `decompress`
    wrappers, which check that enough compressed data is present, cut it to
    the size the image needs and call the matching decoder. */
module BcnFormats {
  import opened Bits
  import opened Outcome
  import Swizzle
  import DecompressImages

  datatype Format = BC1 | BC2 | BC3 | BC4 | BC5

  /** The format id the texture descriptor stores for each format. */
  function Id(f: Format): (id: nat)
    ensures 0x1A <= id <= 0x1E
  {
    match f
    case BC1 => 0x1A
    case BC2 => 0x1B
    case BC3 => 0x1C
    case BC4 => 0x1D
    case BC5 => 0x1E
  }

  /** The five ids are pairwise distinct, and every id in 0x1A..0x1E names
      one of the formats. */
  lemma IdsDistinct(f: Format, g: Format, id: nat)
    ensures Id(f) == Id(g) <==> f == g
    ensures 0x1A <= id <= 0x1E ==> exists h :: Id(h) == id
  {
    if 0x1A <= id <= 0x1E {
      var h := if id == 0x1A then BC1 else if id == 0x1B then BC2 else if id == 0x1C then BC3
               else if id == 0x1D then BC4 else BC5;
      assert Id(h) == id;
    }
  }

  /** Bytes per 4 x 4 block: 8 for BC1 and BC4, 16 for BC2, BC3 and BC5. */
  function BlockBytes(f: Format): nat
  {
    match f
    case BC1 | BC4 => 8
    case BC2 | BC3 | BC5 => 16
  }

  /** csize: one block per started 4 x 4 tile of the image. */
  function CompressedSize(f: Format, width: nat, height: nat): (csize: nat)
    ensures csize == Swizzle.DivRoundUp(width, 4) * Swizzle.DivRoundUp(height, 4) * BlockBytes(f)
    ensures csize % BlockBytes(f) == 0
  {
    var n := ((width + 3) / 4) * ((height + 3) / 4);
    assert n * BlockBytes(f) == BlockBytes(f) * n;
    n * BlockBytes(f)
  }

  /** The SNORM flag of BC4 and BC5: 0 for the UNorm data type (1), 1 for
      every other data type. */
  function Snorm(dtype: nat): (snorm: bool)
    ensures !snorm <==> dtype == 1
  {
    if dtype == 1 then false else true
  }

  /** BC1.decompress: b'' when the data is incomplete, otherwise the DXT1
      decoding of the first csize bytes. */
  method DecompressBc1(data: seq<byte>, width: nat, height: nat) returns (out: seq<byte>)
    requires |data| >= CompressedSize(BC1, width, height) ==>
      (width % 4 == 0 || width < 4) && (height % 4 == 0 || height < 4)
    ensures |data| < CompressedSize(BC1, width, height) ==> out == []
    ensures |data| >= CompressedSize(BC1, width, height) ==>
      out == DecompressImages.Dxt1Image(data[..CompressedSize(BC1, width, height)], width, height) &&
      |out| == width * height * 4
  {
    var csize := CompressedSize(BC1, width, height);
    if |data| < csize {
      return [];
    }
    out := DecompressImages.DecompressDxt1(data[..csize], width, height);
  }

  /** BC2.decompress up to its size check: None when the data is
      incomplete (the wrapper returns b''), otherwise the csize bytes that
      reach decompressDXT3. */
  function Bc2Input(data: seq<byte>, width: nat, height: nat): (input: Option<seq<byte>>)
    ensures input.None? <==> |data| < CompressedSize(BC2, width, height)
    ensures input.Some? ==>
      |input.value| == CompressedSize(BC2, width, height) && input.value == data[..|input.value|]
  {
    var csize := CompressedSize(BC2, width, height);
    if |data| < csize then None else Some(data[..csize])
  }

  /** BC3.decompressDXT5: b'' when the data is incomplete, otherwise the DXT5
      decoding of the first csize bytes. */
  method DecompressBc3(data: seq<byte>, width: nat, height: nat) returns (out: seq<byte>)
    requires |data| >= CompressedSize(BC3, width, height) ==>
               (width % 4 == 0 && height % 4 == 0) || width == 0 || height == 0
    ensures |data| < CompressedSize(BC3, width, height) ==> out == []
    ensures |data| >= CompressedSize(BC3, width, height) ==>
      out == DecompressImages.Dxt5Image(data[..CompressedSize(BC3, width, height)], width, height) &&
      |out| == width * height * 4
  {
    var csize := CompressedSize(BC3, width, height);
    if |data| < csize {
      return [];
    }
    out := DecompressImages.DecompressDxt5(data[..csize], width, height);
  }

  /** BC4.decompress: b'' when the data is incomplete, otherwise the
      one-channel decoding of the first csize bytes, SNORM unless the data
      type is UNorm. */
  method DecompressBc4(data: seq<byte>, width: nat, height: nat, dtype: nat) returns (out: seq<byte>)
    ensures |data| < CompressedSize(BC4, width, height) ==> out == []
    ensures |data| >= CompressedSize(BC4, width, height) ==>
      out == DecompressImages.ChannelImage(data[..CompressedSize(BC4, width, height)], width, height, 8, 0, dtype != 1) &&
      |out| == width * height
  {
    var snorm := Snorm(dtype);
    var csize := CompressedSize(BC4, width, height);
    if |data| < csize {
      return [];
    }
    out := DecompressImages.DecompressBc4(data[..csize], width, height, snorm);
  }

  /** What BC5.decompress returns: b'' for incomplete data, or the two
      decoded channels. */
  datatype Planes = Incomplete | Planes(red: seq<byte>, green: seq<byte>)

  /** BC5.decompress: b'' when the data is incomplete, otherwise the
      two-channel decoding of the first csize bytes. */
  method DecompressBc5(data: seq<byte>, width: nat, height: nat, dtype: nat) returns (out: Planes)
    ensures out.Incomplete? <==> |data| < CompressedSize(BC5, width, height)
    ensures out.Planes? ==>
      var d := data[..CompressedSize(BC5, width, height)];
      out.red == DecompressImages.ChannelImage(d, width, height, 16, 0, dtype != 1) &&
      out.green == DecompressImages.ChannelImage(d, width, height, 16, 8, dtype != 1) &&
      |out.red| == |out.green| == width * height
  {
    var snorm := Snorm(dtype);
    var csize := CompressedSize(BC5, width, height);
    if |data| < csize {
      return Incomplete;
    }
    var red, green := DecompressImages.DecompressBc5(data[..csize], width, height, snorm);
    out := Planes(red, green);
  }
}
