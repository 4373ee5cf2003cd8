/** BRTI, one texture of a BNTX file.  readFromFile copies the header's
    fields, looks up the format's bytes per block and block dimensions,
    takes the block height from the texture layout, reads the mip offset
    table and the raw image data, and deswizzles the first mip level. */
module Brti {
  import opened Bits
  import opened Outcome
  import Swizzle
  import Reader

  /** The header fields readFromFile uses, as BinaryStruct decodes them. */
  datatype Header = Header(name: string, tileMode: nat, mipmapCnt: nat, fmtDtype: nat, fmtType: nat,
                           width: nat, height: nat, textureLayout: nat, dataLen: nat,
                           ptrsOffset: nat, channelTypes: seq<nat>)

  /** The tables of formatinfo: bytes per block of each format id, and the
      block dimensions of the block-compressed formats. */
  datatype FormatTables = FormatTables(bpps: map<nat, nat>, blkDims: map<nat, (nat, nat)>)

  /** Every block dimension in the table is at least 1. */
  predicate ValidTables(t: FormatTables)
  {
    forall id :: id in t.blkDims ==> t.blkDims[id].0 >= 1 && t.blkDims[id].1 >= 1
  }

  /** The block dimensions of a format: its blk_dims entry, or 1 x 1. */
  function BlockDims(t: FormatTables, fmtId: nat): (d: (nat, nat))
    requires ValidTables(t)
    ensures d.0 >= 1 && d.1 >= 1
    ensures fmtId !in t.blkDims ==> d == (1, 1)
  {
    if fmtId in t.blkDims then t.blkDims[fmtId] else (1, 1)
  }

  /** `texture_layout & 7`: the low three bits of the layout word. */
  function BlockHeightLog2(layout: nat): (l: nat)
    ensures l < 8 && l == layout % 8
  {
    AndLowMask(layout, 3);
    assert Pow2(3) == 8;
    And(layout, 7)
  }

  /** How many of the cnt mip offset entries, 8 bytes apart from ptrs, can
      be read: the loop of _readMipmaps stops at the first that does not
      fit in the file. */
  function ReadableEntries(f: Reader.File, ptrs: nat, cnt: nat): (k: nat)
    ensures k <= cnt
    ensures forall i :: 0 <= i < k ==> ptrs + 8 * i + 4 <= |f.bytes|
    ensures k < cnt ==> ptrs + 8 * k + 4 > |f.bytes|
    decreases cnt
  {
    if cnt == 0 then 0
    else
      var k := ReadableEntries(f, ptrs, cnt - 1);
      if k == cnt - 1 && ptrs + 8 * k + 4 <= |f.bytes| then cnt else k
  }

  /** The first k entries of the mip offset table. */
  function MipEntries(f: Reader.File, ptrs: nat, k: nat): (s: seq<nat>)
    requires forall i :: 0 <= i < k ==> ptrs + 8 * i + 4 <= |f.bytes|
    ensures |s| == k
  {
    seq(k, i requires 0 <= i < k => LeUint(f.bytes, ptrs + 8 * i, 4))
  }

  /** pow2_round_up of the height in blocks: the least power of two at least
      hb, and 0 for 0. */
  function RoundedRows(hb: nat): nat
  {
    if hb == 0 then 0 else Swizzle.LeastPow2AtLeast(hb)
  }

  /** The block-height log2 handed to deswizzle: the layout's, lowered by one
      when the rounded height in blocks is below the 8 * 2^log2 lines of one
      block of GOBs, and not below 0. */
  function DeswizzleLog2(hb: nat, log2: nat): (l: nat)
    ensures l == log2 || (log2 >= 1 && l == log2 - 1) || l == 0
  {
    var shift := if RoundedRows(hb) < Pow2(log2) * 8 then 1 else 0;
    if log2 >= shift then log2 - shift else 0
  }

  /** The block height is lowered exactly when the height in blocks fits in
      half a block of GOBs (4 * 2^log2 lines), or is 0. */
  lemma DeswizzleLog2Rule(hb: nat, log2: nat)
    ensures DeswizzleLog2(hb, log2) == if (hb <= Pow2(log2) * 4) && log2 >= 1 then log2 - 1 else log2
  {
    Pow2Add(log2, 2);
    Pow2Add(log2, 3);
    if hb >= 1 {
      var b := BitLength(hb - 1);
      Swizzle.LeastPow2AtLeastIsLeast(hb);
      if RoundedRows(hb) < Pow2(log2) * 8 {
        if b >= log2 + 3 {
          Pow2Monotone(log2 + 3, b);
        }
        Pow2Monotone(b, log2 + 2);
      } else {
        assert !(Pow2(log2 + 2) >= hb);
      }
    }
  }

  /** The size of the first mip level: DIV_ROUND_UP(width, blkWidth) *
      DIV_ROUND_UP(height, blkHeight) * bpp bytes. */
  function MipSize(width: nat, height: nat, blkWidth: nat, blkHeight: nat, bpp: nat): nat
    requires blkWidth >= 1 && blkHeight >= 1
  {
    Swizzle.DivRoundUp(width, blkWidth) * Swizzle.DivRoundUp(height, blkHeight) * bpp
  }

  /** The padded surface deswizzle returns is never smaller than the mip
      level, so the slice `result[:size]` has exactly `size` bytes. */
  lemma MipFitsSurface(width: nat, height: nat, blkWidth: nat, blkHeight: nat, bpp: nat,
                       tileMode: nat, log2: nat)
    requires blkWidth >= 1 && blkHeight >= 1
    ensures MipSize(width, height, blkWidth, blkHeight, bpp) <=
            Swizzle.Geometry(width, height, blkWidth, blkHeight, bpp, tileMode, log2).size
  {
    Swizzle.GeometryHoldsBlocks(width, height, blkWidth, blkHeight, bpp, tileMode, log2);
    Regroup(Swizzle.DivRoundUp(width, blkWidth), Swizzle.DivRoundUp(height, blkHeight), bpp);
  }

  lemma Regroup(a: nat, b: nat, c: nat)
    ensures a * b * c == b * (a * c)
  {
  }

  /** DIV_ROUND_UP(n, d) <= n for d >= 1. */
  lemma DivRoundUpAtMost(n: nat, d: nat)
    requires d >= 1
    ensures Swizzle.DivRoundUp(n, d) <= n
  {
    Swizzle.DivRoundUpIsCeiling(n, d);
    MulAtLeastOne(n, d);
  }

  lemma MulAtLeastOne(n: nat, d: nat)
    requires d >= 1
    ensures n * d >= n
  {
  }

  lemma Pow32()
    ensures Pow2(32) == 0x1_0000_0000
  {
    Pow2Add(8, 8);
    Pow2Add(16, 16);
  }

  /** What _readData leaves behind: its outcome, and the new data and mip
      data when it gets as far as setting them (None: left as it was). */
  datatype DataRead = DataRead(result: Result<()>, data: Option<seq<byte>>, mipData: Option<seq<byte>>)

  /** _readData on a file: the data_len bytes at the 64-bit address stored at
      ptrs_offset, then, when there is a first mip offset, the surface
      deswizzled with the adjusted block height, cut to the mip size.  Data
      shorter than the padded surface is an error here. */
  function DataOutcome(f: Reader.File, ptrs: nat, dataLen: nat, width: nat, height: nat,
                       blkWidth: nat, blkHeight: nat, bpp: nat, tileMode: nat, layoutLog2: nat,
                       haveMip: bool): (o: DataRead)
    requires blkWidth >= 1 && blkHeight >= 1
  {
    var base := Reader.ReadUint(f, ptrs, 8);
    if base.Err? then DataRead(Err(base.error), None, None)
    else
      var raw := Reader.ReadBytes(f, base.value, dataLen);
      if raw.Err? then DataRead(Err(raw.error), None, None)
      else if !haveMip then DataRead(Err(BadIndex(0)), Some(raw.value), None)
      else
        var log2 := DeswizzleLog2(Swizzle.DivRoundUp(height, blkHeight), layoutLog2);
        var g := Swizzle.Geometry(width, height, blkWidth, blkHeight, bpp, tileMode, log2);
        if |raw.value| < g.size then DataRead(Err(OutOfBounds(|raw.value|)), Some(raw.value), None)
        else
          MipFitsSurface(width, height, blkWidth, blkHeight, bpp, tileMode, log2);
          var size := MipSize(width, height, blkWidth, blkHeight, bpp);
          DataRead(Ok(()), Some(raw.value),
                   Some(Swizzle.Deswizzled(width, height, blkWidth, blkHeight, bpp, tileMode, log2, raw.value)[..size]))
  }

  /** The texture after _readData with outcome o: the result is o's, and the
      data and mip data are o's where it sets them and unchanged otherwise. */
  predicate Applied(o: DataRead, r: Result<()>, data: seq<byte>, data0: seq<byte>,
                    mipData: seq<byte>, mipData0: seq<byte>)
  {
    r == o.result &&
    data == (if o.data.Some? then o.data.value else data0) &&
    mipData == (if o.mipData.Some? then o.mipData.value else mipData0)
  }

  class Texture {
    var header: Header
    var name: string
    var formatId: nat
    var width: nat
    var height: nat
    var tileMode: nat
    var channelTypes: seq<nat>
    var bpp: nat
    var blkWidth: nat
    var blkHeight: nat
    var blockHeightLog2: nat
    var mipOffsets: seq<nat>
    var data: seq<byte>
    var mipData: seq<byte>

    /** A texture with no mip offsets yet. */
    constructor()
      ensures mipOffsets == []
    {
      header := Header("", 0, 0, 0, 0, 0, 0, 0, 0, 0, []);
      name, formatId, width, height, tileMode, channelTypes := "", 0, 0, 0, 0, [];
      bpp, blkWidth, blkHeight, blockHeightLog2 := 0, 1, 1, 0;
      mipOffsets, data, mipData := [], [], [];
    }

    /** readFromFile from the decoded header, as far as the decoded image
        (which goes through the format registry). */
    method ReadFromFile(f: Reader.File, h: Header, t: FormatTables) returns (r: Result<()>)
      requires ValidTables(t) && h.height < 0x1_0000_0000
      modifies this
      ensures header == h && name == h.name && formatId == h.fmtType && width == h.width &&
              height == h.height && tileMode == h.tileMode && channelTypes == h.channelTypes
      ensures h.fmtType !in t.bpps ==>
                r == Err(UnknownTag(h.fmtType)) && mipOffsets == old(mipOffsets) &&
                data == old(data) && mipData == old(mipData) &&
                bpp == old(bpp) && blkWidth == old(blkWidth) && blkHeight == old(blkHeight) &&
                blockHeightLog2 == old(blockHeightLog2)
      ensures h.fmtType in t.bpps ==>
                bpp == t.bpps[h.fmtType] && (blkWidth, blkHeight) == BlockDims(t, h.fmtType) &&
                blockHeightLog2 == BlockHeightLog2(h.textureLayout)
      ensures h.fmtType in t.bpps ==>
                var k := ReadableEntries(f, h.ptrsOffset, h.mipmapCnt);
                mipOffsets == old(mipOffsets) + MipEntries(f, h.ptrsOffset, k) &&
                (k < h.mipmapCnt ==> r.Err? && data == old(data) && mipData == old(mipData)) &&
                (k == h.mipmapCnt ==>
                   Applied(DataOutcome(f, h.ptrsOffset, h.dataLen, width, height, blkWidth, blkHeight, bpp,
                                       tileMode, blockHeightLog2, old(mipOffsets) != [] || h.mipmapCnt > 0),
                           r, data, old(data), mipData, old(mipData)))
    {
      CopyHeader(h);
      if formatId !in t.bpps {
        return Err(UnknownTag(formatId));
      }
      LookUpFormat(t);
      r := ReadImage(f);
    }

    /** The fields readFromFile copies from the header. */
    method CopyHeader(h: Header)
      modifies this`header, this`name, this`formatId, this`width, this`height, this`tileMode, this`channelTypes
      ensures header == h && name == h.name && formatId == h.fmtType && width == h.width &&
              height == h.height && tileMode == h.tileMode && channelTypes == h.channelTypes
    {
      header, name, width, height, tileMode, channelTypes := h, h.name, h.width, h.height, h.tileMode, h.channelTypes;
      formatId := h.fmtType;
    }

    /** `bpps[fmt_id]`, the block dimensions (1 x 1 when the format has no
        entry in blk_dims) and `texture_layout & 7`. */
    method LookUpFormat(t: FormatTables)
      requires ValidTables(t) && formatId in t.bpps
      modifies this`bpp, this`blkWidth, this`blkHeight, this`blockHeightLog2
      ensures bpp == t.bpps[formatId] && (blkWidth, blkHeight) == BlockDims(t, formatId) &&
              blockHeightLog2 == BlockHeightLog2(header.textureLayout)
    {
      bpp := t.bpps[formatId];
      if formatId in t.blkDims {
        blkWidth, blkHeight := t.blkDims[formatId].0, t.blkDims[formatId].1;
      } else {
        blkWidth, blkHeight := 1, 1;
      }
      blockHeightLog2 := BlockHeightLog2(header.textureLayout);
    }

    /** The two reads at the end of readFromFile: the mip offset table, then
        the image data, which is not read when the table is not. */
    method ReadImage(f: Reader.File) returns (r: Result<()>)
      requires blkWidth >= 1 && blkHeight >= 1 && height < 0x1_0000_0000
      modifies this`mipOffsets, this`data, this`mipData
      ensures var k := ReadableEntries(f, header.ptrsOffset, header.mipmapCnt);
              mipOffsets == old(mipOffsets) + MipEntries(f, header.ptrsOffset, k)
      ensures ReadableEntries(f, header.ptrsOffset, header.mipmapCnt) < header.mipmapCnt ==>
                r.Err? && data == old(data) && mipData == old(mipData)
      ensures ReadableEntries(f, header.ptrsOffset, header.mipmapCnt) == header.mipmapCnt ==>
                var o := DataOutcome(f, header.ptrsOffset, header.dataLen, width, height, blkWidth, blkHeight,
                                     bpp, tileMode, blockHeightLog2, old(mipOffsets) != [] || header.mipmapCnt > 0);
                Applied(o, r, data, old(data), mipData, old(mipData))
    {
      r := ReadMipmaps(f);
      if r.Err? {
        return;
      }
      r := ReadData(f);
    }

    /** _readMipmaps: appends the 32-bit entry at ptrs_offset + 8i for each
        of the mipmap_cnt mip levels, stopping at the first read that fails. */
    method ReadMipmaps(f: Reader.File) returns (r: Result<()>)
      modifies this`mipOffsets
      ensures var k := ReadableEntries(f, header.ptrsOffset, header.mipmapCnt);
              mipOffsets == old(mipOffsets) + MipEntries(f, header.ptrsOffset, k) &&
              (r.Ok? <==> k == header.mipmapCnt)
    {
      ghost var k := ReadableEntries(f, header.ptrsOffset, header.mipmapCnt);
      ghost var before := mipOffsets;
      var i := 0;
      while i < header.mipmapCnt
        invariant 0 <= i <= k
        invariant mipOffsets == before + MipEntries(f, header.ptrsOffset, i)
      {
        var offs := header.ptrsOffset + i * 8;
        var entry := Reader.ReadUint(f, offs, 4);
        if entry.Err? {
          NotReadable(f, header.ptrsOffset, header.mipmapCnt, i);
          return Err(entry.error);
        }
        NotReadable(f, header.ptrsOffset, header.mipmapCnt, i);
        mipOffsets := mipOffsets + [entry.value];
        assert MipEntries(f, header.ptrsOffset, i + 1) == MipEntries(f, header.ptrsOffset, i) + [entry.value];
        i := i + 1;
      }
      return Ok(());
    }

    /** _readData: the data_len bytes at the address stored at ptrs_offset,
        then the first mip level, deswizzled with the adjusted block height
        and cut to its size. */
    method ReadData(f: Reader.File) returns (r: Result<()>)
      requires blkWidth >= 1 && blkHeight >= 1 && height < 0x1_0000_0000
      modifies this`data, this`mipData
      ensures var o := DataOutcome(f, header.ptrsOffset, header.dataLen, width, height, blkWidth, blkHeight,
                                   bpp, tileMode, blockHeightLog2, mipOffsets != []);
        Applied(o, r, data, old(data), mipData, old(mipData))
    {
      var base := Reader.ReadUint(f, header.ptrsOffset, 8);
      if base.Err? {
        return Err(base.error);
      }
      var raw := Reader.ReadBytes(f, base.value, header.dataLen);
      if raw.Err? {
        return Err(raw.error);
      }
      data := raw.value;
      if mipOffsets == [] {
        return Err(BadIndex(0));
      }
      var hb := Swizzle.DivRoundUp(height, blkHeight);
      DivRoundUpAtMost(height, blkHeight);
      Pow32();
      var log2 := AdjustedBlockHeightLog2(hb, blockHeightLog2);
      var g := Swizzle.Geometry(width, height, blkWidth, blkHeight, bpp, tileMode, log2);
      if |data| < g.size {
        return Err(OutOfBounds(|data|));
      }
      var result := Swizzle.Deswizzle(width, height, blkWidth, blkHeight, bpp, tileMode, log2, data);
      var size := Swizzle.DivRoundUp(width, blkWidth) * hb * bpp;
      MipFitsSurface(width, height, blkWidth, blkHeight, bpp, tileMode, log2);
      mipData := result[..size];
      ghost var o := DataOutcome(f, header.ptrsOffset, header.dataLen, width, height, blkWidth, blkHeight,
                                 bpp, tileMode, blockHeightLog2, true);
      assert o.mipData == Some(mipData);
      return Ok(());
    }
  }

  /** What _readData promises: the data is read exactly when the address and
      the run of data_len bytes are in the file; it goes on to the mip level
      exactly when there is a mip offset and the data covers the padded
      surface, and then the mip level is the first MipSize bytes of the
      deswizzled surface. */
  lemma DataOutcomeMeaning(f: Reader.File, ptrs: nat, dataLen: nat, width: nat, height: nat,
                           blkWidth: nat, blkHeight: nat, bpp: nat, tileMode: nat, layoutLog2: nat,
                           haveMip: bool)
    requires blkWidth >= 1 && blkHeight >= 1
    ensures var o := DataOutcome(f, ptrs, dataLen, width, height, blkWidth, blkHeight, bpp, tileMode, layoutLog2, haveMip);
      var log2 := DeswizzleLog2(Swizzle.DivRoundUp(height, blkHeight), layoutLog2);
      var g := Swizzle.Geometry(width, height, blkWidth, blkHeight, bpp, tileMode, log2);
      (o.data.Some? <==> ptrs + 8 <= |f.bytes| && LeUint(f.bytes, ptrs, 8) + dataLen <= |f.bytes|) &&
      (o.result.Ok? <==> o.data.Some? && haveMip && dataLen >= g.size) &&
      (o.mipData.Some? <==> o.result.Ok?) &&
      (o.data.Some? && !haveMip ==> o.result == Err(BadIndex(0))) &&
      (o.data.Some? && haveMip && dataLen < g.size ==> o.result == Err(OutOfBounds(dataLen)))
    ensures var o := DataOutcome(f, ptrs, dataLen, width, height, blkWidth, blkHeight, bpp, tileMode, layoutLog2, haveMip);
      o.data.Some? ==> var base := LeUint(f.bytes, ptrs, 8);
      base + dataLen <= |f.bytes| && o.data.value == f.bytes[base..base + dataLen]
    ensures var o := DataOutcome(f, ptrs, dataLen, width, height, blkWidth, blkHeight, bpp, tileMode, layoutLog2, haveMip);
      o.result.Ok? ==>
      var log2 := DeswizzleLog2(Swizzle.DivRoundUp(height, blkHeight), layoutLog2);
      var size := MipSize(width, height, blkWidth, blkHeight, bpp);
      var surface := Swizzle.Deswizzled(width, height, blkWidth, blkHeight, bpp, tileMode, log2, o.data.value);
      |o.mipData.value| == size <= |surface| &&
      forall i :: 0 <= i < size ==> o.mipData.value[i] == surface[i]
  {
    var log2 := DeswizzleLog2(Swizzle.DivRoundUp(height, blkHeight), layoutLog2);
    var o := DataOutcome(f, ptrs, dataLen, width, height, blkWidth, blkHeight, bpp, tileMode, layoutLog2, haveMip);
    if o.result.Ok? {
      var g := Swizzle.Geometry(width, height, blkWidth, blkHeight, bpp, tileMode, log2);
      MipFitsSurface(width, height, blkWidth, blkHeight, bpp, tileMode, log2);
      var surface := Swizzle.Deswizzled(width, height, blkWidth, blkHeight, bpp, tileMode, log2, o.data.value);
      assert |surface| == g.size;
      assert o.mipData.value == surface[..MipSize(width, height, blkWidth, blkHeight, bpp)];
    }
  }

  /** The block-height computation of _readData: one less than the layout's
      log2 when pow2_round_up of the height in blocks is below
      linesPerBlockHeight, never below 0. */
  method AdjustedBlockHeightLog2(hb: nat, blockHeightLog2: nat) returns (log2: nat)
    requires hb <= Pow2(32)
    ensures log2 == DeswizzleLog2(hb, blockHeightLog2)
  {
    var linesPerBlockHeight := Pow2(blockHeightLog2) * 8;
    var blockHeightShift := 0;
    var rows := Swizzle.Pow2RoundUp(hb);
    if rows < linesPerBlockHeight {
      blockHeightShift := blockHeightShift + 1;
    }
    log2 := if blockHeightLog2 >= blockHeightShift then blockHeightLog2 - blockHeightShift else 0;
  }

  /** An entry past the readable ones cannot be read. */
  lemma NotReadable(f: Reader.File, ptrs: nat, cnt: nat, i: nat)
    requires i < cnt
    ensures Reader.ReadUint(f, ptrs + i * 8, 4).Err? <==> i >= ReadableEntries(f, ptrs, cnt)
  {
    var k := ReadableEntries(f, ptrs, cnt);
    if i >= k {
      ReadableIsPrefix(f, ptrs, cnt, k, i);
    }
  }

  /** The readable entries form a prefix: past the first unreadable entry
      every later one is unreadable too. */
  lemma ReadableIsPrefix(f: Reader.File, ptrs: nat, cnt: nat, k: nat, i: nat)
    requires k == ReadableEntries(f, ptrs, cnt) && k <= i < cnt
    ensures ptrs + 8 * i + 4 > |f.bytes|
  {
  }
}
