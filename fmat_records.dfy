/** The records a material (FMAT) is read from, and what each of the
    material's tables holds once its loop has run: record i of every table
    sits at a fixed stride from the table's base offset, is decoded by its
    own function here, and the tables are the runs of those decoders over
    i (Tables.Prefix), stored by name (Tables.Table) or kept as a list.

    The BinaryStruct decoder and the Dict reader are not part of this
    model: a material is read from an Fres value that carries them as
    functions, the decoded structure being a record of named fields. */
module FmatRecords {
  import opened Bits
  import opened Outcome
  import opened Reader
  import Tables
  import opened StructFields

  /** A field of a decoded structure: an integer or a string. */
  datatype Value = Num(n: nat) | Str(s: string)

  /** A decoded structure, by field name. */
  type Record = map<Key, Value>

  /** The structures of FMAT.py (Header, Header10, ShaderAssign,
      ShaderAssign10, ShaderReflection, SamplerInfo). */
  datatype StructKind = HeaderStruct | Header10Struct | ShaderAssignStruct | ShaderAssign10Struct
                      | ShaderReflectionStruct | SamplerInfoStruct

  /** The FRES object a material is read through: the file, the format
      version from the FRES header, the structure decoder at an offset and
      the node names of the Dict at an offset (node 0 is the root). */
  datatype Fres = Fres(file: File, version: (nat, nat),
                       read: (StructKind, nat) -> Result<Record>,
                       dict: nat -> Result<seq<string>>)

  /** Version 0.10 of the format, the only one with its own layouts. */
  predicate IsV10(fres: Fres)
  {
    fres.version == (0, 10)
  }

  // ---------------------------------------------------------------------
  // Lookups and reads

  /** `rec[key]` where an integer is needed. */
  function GetNum(rec: Record, key: Key): (r: Result<nat>)
    ensures r.Ok? <==> key in rec && rec[key].Num?
    ensures r.Ok? ==> rec[key] == Num(r.value)
    ensures r.Err? ==> r.error == (if key in rec then WrongType(key) else MissingField(key))
  {
    if key !in rec then Err(MissingField(key))
    else match rec[key]
      case Num(n) => Ok(n)
      case Str(_) => Err(WrongType(key))
  }

  /** `rec[key]` where a string is needed. */
  function GetStr(rec: Record, key: Key): (r: Result<string>)
    ensures r.Ok? <==> key in rec && rec[key].Str?
    ensures r.Ok? ==> rec[key] == Str(r.value)
    ensures r.Err? ==> r.error == (if key in rec then WrongType(key) else MissingField(key))
  {
    if key !in rec then Err(MissingField(key))
    else match rec[key]
      case Str(s) => Ok(s)
      case Num(_) => Err(WrongType(key))
  }

  /** `d.nodes[k].name` for a Dict attribute named name that may be None. */
  function Node(d: Option<seq<string>>, name: string, k: nat): (r: Result<string>)
    ensures r.Ok? <==> d.Some? && k < |d.value|
    ensures r.Ok? ==> r.value == d.value[k]
    ensures d.None? ==> r == Err(NoneValue(name))
    ensures d.Some? && k >= |d.value| ==> r == Err(BadIndex(k))
  {
    if d.None? then Err(NoneValue(name))
    else if k < |d.value| then Ok(d.value[k])
    else Err(BadIndex(k))
  }

  /** `readStr(read('Q', offs))`: the string an 8-byte string offset at
      offs points to. */
  function StrAt(f: File, offs: nat): (r: Result<string>)
    ensures r.Ok? <==> offs + 8 <= |f.bytes| && LeUint(f.bytes, offs, 8) in f.strings
    ensures r.Ok? ==> r.value == f.strings[LeUint(f.bytes, offs, 8)]
  {
    var p :- ReadUint(f, offs, 8);
    ReadStr(f, p)
  }

  /** The bounds check of `read(fmt, offs)` for a struct format of size
      bytes: the whole record must lie in the file. */
  function Fits(f: File, offs: nat, size: nat): (r: Result<()>)
    ensures r.Ok? <==> offs + size <= |f.bytes|
  {
    if offs + size <= |f.bytes| then Ok(()) else Err(OutOfBounds(offs))
  }

  // ---------------------------------------------------------------------
  // Render info (`_readInfo`, `_readRenderInfo`, `_readRenderInfo10`)

  /** A render-info value: an s32, a float or a pair of floats (kept as
      their bit patterns), or a string. */
  datatype InfoValue = Int(i: int) | Float(bits: nat) | Floats(pair: seq<nat>) | Text(s: string)

  /** The type names of render-info tags 0, 1 and 2. */
  const Types0: seq<string> := ["float[2]", "float", "str"]
  const Types10: seq<string> := ["s32", "float", "str"]

  /** Value j of a render param of tag typ whose values start at offset:
      tag 2 is a string through the 8-byte offset at offset + 8j; tags 0
      and 1 are read at offset + 4j with the version's format ('i' or '2f'
      for tag 0, 'f' for tag 1). */
  function InfoValueAt(f: File, v10: bool, typ: nat, offset: nat, j: nat): Result<InfoValue>
  {
    if typ == 2 then
      var s :- StrAt(f, offset + 8 * j);
      Ok(Text(s))
    else if typ == 0 && v10 then
      var x :- ReadSint(f, offset + 4 * j, 4);
      Ok(Int(x))
    else if typ == 0 then
      var o := offset + 4 * j;
      if o + 8 <= |f.bytes| then Ok(Floats([LeUint(f.bytes, o, 4), LeUint(f.bytes, o + 4, 4)]))
      else Err(OutOfBounds(o))
    else if typ == 1 then
      var x :- ReadUint(f, offset + 4 * j, 4);
      Ok(Float(x))
    else
      Ok(Text("<unknown>"))
  }

  function InfoStep(f: File, v10: bool, typ: nat, offset: nat): nat -> Result<InfoValue>
  {
    (j: nat) => InfoValueAt(f, v10, typ, offset, j)
  }

  /** A render param: its name, count, type name and values. */
  datatype RenderParam = RenderParam(name: string, count: nat, typeName: string, vals: seq<InfoValue>)

  /** `_readInfo`: the param with cnt values read from base + offs. */
  function Info(f: File, v10: bool, name: string, typ: nat, offs: nat, cnt: nat, base: nat): Result<RenderParam>
  {
    if typ >= 3 then Err(BadIndex(typ))
    else
      var p := Tables.Prefix(InfoStep(f, v10, typ, base + offs), cnt);
      Collect(name, cnt, TypeName(v10, typ), p)
  }

  /** `types[typ]` of the version, for a tag below 3. */
  function TypeName(v10: bool, typ: nat): string
    requires typ < 3
  {
    (if v10 then Types10 else Types0)[typ]
  }

  /** The param, once its value loop has run. */
  function Collect(name: string, cnt: nat, typeName: string, p: Tables.Run<InfoValue>): Result<RenderParam>
  {
    if p.outcome.Err? then Err(p.outcome.error) else Ok(RenderParam(name, cnt, typeName, p.items))
  }

  /** A param is read exactly when its tag is known and each of its cnt
      values can be read. A tag of 3 or more raises at the type-name lookup
      before any value is read. */
  lemma InfoMeaning(f: File, v10: bool, name: string, typ: nat, offs: nat, cnt: nat, base: nat, offset: nat)
    requires offset == base + offs
    ensures Info(f, v10, name, typ, offs, cnt, base).Ok? <==>
            typ < 3 && forall j :: 0 <= j < cnt ==> InfoValueAt(f, v10, typ, offset, j).Ok?
    ensures typ >= 3 ==> Info(f, v10, name, typ, offs, cnt, base) == Err(BadIndex(typ))
  {
    if typ < 3 {
      var step := InfoStep(f, v10, typ, offset);
      var p := Tables.Prefix(step, cnt);
      Tables.PrefixMeaning(step, cnt);
      assert Info(f, v10, name, typ, offs, cnt, base) == Collect(name, cnt, TypeName(v10, typ), p);
      if p.outcome.Err? {
        var k := |p.items|;
        assert k < cnt && step(k) == InfoValueAt(f, v10, typ, offset, k);
        assert !InfoValueAt(f, v10, typ, offset, k).Ok?;
      } else {
        forall j | 0 <= j < cnt
          ensures InfoValueAt(f, v10, typ, offset, j).Ok?
        {
          assert step(j) == Ok(p.items[j]);
        }
      }
    }
  }

  /** A param that is read holds its name, its count, the type name of its
      tag and its cnt values, in order. */
  lemma InfoContents(f: File, v10: bool, name: string, typ: nat, offs: nat, cnt: nat, base: nat, offset: nat)
    requires offset == base + offs
    requires Info(f, v10, name, typ, offs, cnt, base).Ok?
    ensures var p := Info(f, v10, name, typ, offs, cnt, base).value;
      && typ < 3 && p.name == name && p.count == cnt == |p.vals| && p.typeName == TypeName(v10, typ)
      && forall j :: 0 <= j < cnt ==> InfoValueAt(f, v10, typ, offset, j) == Ok(p.vals[j])
  {
    var step := InfoStep(f, v10, typ, offset);
    var p := Tables.Prefix(step, cnt);
    Tables.PrefixMeaning(step, cnt);
    var r := Info(f, v10, name, typ, offs, cnt, base);
    assert r == Collect(name, cnt, TypeName(v10, typ), p);
    assert r.value.vals == p.items;
    forall j | 0 <= j < cnt
      ensures InfoValueAt(f, v10, typ, offset, j) == Ok(r.value.vals[j])
    {
      assert step(j) == Ok(p.items[j]);
    }
  }

  /** String values are 8 bytes apart, the others 4 bytes apart; a value
      before version 0.10 of tag 0 is the pair of 4-byte floats there. */
  lemma InfoAddresses(f: File, v10: bool, typ: nat, offset: nat, j: nat)
    ensures var r := InfoValueAt(f, v10, typ, offset, j);
      typ == 2 ==> (r.Ok? <==> offset + 8 * j + 8 <= |f.bytes| && LeUint(f.bytes, offset + 8 * j, 8) in f.strings)
    ensures var r := InfoValueAt(f, v10, typ, offset, j);
      typ == 2 && r.Ok? ==> r.value == Text(f.strings[LeUint(f.bytes, offset + 8 * j, 8)])
    ensures var r := InfoValueAt(f, v10, typ, offset, j);
      typ == 1 ==> (r.Ok? <==> offset + 4 * j + 4 <= |f.bytes|) && (r.Ok? ==> r.value == Float(LeUint(f.bytes, offset + 4 * j, 4)))
    ensures var r := InfoValueAt(f, v10, typ, offset, j);
      typ == 0 && v10 ==>
        && (r.Ok? <==> offset + 4 * j + 4 <= |f.bytes|)
        && (r.Ok? ==> r.value == Int(Signed(LeUint(f.bytes, offset + 4 * j, 4), 32)))
    ensures var r := InfoValueAt(f, v10, typ, offset, j);
      typ == 0 && !v10 ==>
        && (r.Ok? <==> offset + 4 * j + 8 <= |f.bytes|)
        && (r.Ok? ==> r.value == Floats([LeUint(f.bytes, offset + 4 * j, 4), LeUint(f.bytes, offset + 4 * j + 4, 4)]))
  {
  }

  /** Before version 0.10 a tag-0 value is a pair of floats but the values
      are still 4 bytes apart, so the second float of value j is the first
      float of value j + 1. */
  lemma InfoPairsOverlap(f: File, typ: nat, offset: nat, j: nat)
    requires typ == 0
    requires InfoValueAt(f, false, typ, offset, j).Ok? && InfoValueAt(f, false, typ, offset, j + 1).Ok?
    ensures InfoValueAt(f, false, typ, offset, j).value.Floats?
    ensures InfoValueAt(f, false, typ, offset, j).value.pair[1] == InfoValueAt(f, false, typ, offset, j + 1).value.pair[0]
  {
    assert offset + 4 * j + 4 == offset + 4 * (j + 1);
  }

  /** The fields of a render-info record that `_readInfo` is called with. */
  datatype RenderHead = RenderHead(name: string, typ: nat, offs: nat, cnt: nat)

  /** Render-info record i before version 0.10: 'QQHHI' (name, value
      offset, count, tag, padding) at base + 24i. */
  function RenderHead0(f: File, base: nat, i: nat): Result<RenderHead>
  {
    var a := base + 24 * i;
    var _ :- Fits(f, a, 24);
    var name :- ReadStr(f, LeUint(f.bytes, a, 8));
    Ok(RenderHead(name, LeUint(f.bytes, a + 18, 2), LeUint(f.bytes, a + 8, 8), LeUint(f.bytes, a + 16, 2)))
  }

  /** Render-info record i from version 0.10: 'QB7x' (name, tag) at
      base + 16i, its count at cntBase + 2i and its value offset at
      offBase + 2i. */
  function RenderHead10(f: File, base: nat, cntBase: nat, offBase: nat, i: nat): Result<RenderHead>
  {
    var a := base + 16 * i;
    var _ :- Fits(f, a, 16);
    var name :- ReadStr(f, LeUint(f.bytes, a, 8));
    var cnt :- ReadUint(f, cntBase + 2 * i, 2);
    var offs :- ReadUint(f, offBase + 2 * i, 2);
    Ok(RenderHead(name, f.bytes[a + 8] as nat, offs, cnt))
  }

  /** Render-info record i before version 0.10, read with `_readInfo`
      (values relative to 0). */
  function RenderRecord0(f: File, base: nat, i: nat): Result<(string, RenderParam)>
  {
    var h :- RenderHead0(f, base, i);
    var p :- Info(f, false, h.name, h.typ, h.offs, h.cnt, 0);
    Ok((h.name, p))
  }

  /** Render-info record i from version 0.10, read with `_readInfo`
      (values relative to valBase). */
  function RenderRecord10(f: File, base: nat, valBase: nat, cntBase: nat, offBase: nat, i: nat): Result<(string, RenderParam)>
  {
    var h :- RenderHead10(f, base, cntBase, offBase, i);
    var p :- Info(f, true, h.name, h.typ, h.offs, h.cnt, valBase);
    Ok((h.name, p))
  }

  /** The render-info decoder of the version, over the header fields of
      RenderKeys. */
  function RenderStep(v10: bool, f: File, k: (nat, nat, nat, nat, nat)): nat -> Result<(string, RenderParam)>
  {
    (i: nat) => if v10 then RenderRecord10(f, k.0, k.1, k.2, k.3, i) else RenderRecord0(f, k.0, i)
  }

  /** A loop that raised before its first record. */
  function Failed<T>(e: Error): Tables.Run<T>
  {
    Tables.Run([], Err(e))
  }

  /** The render-info loop of the header's version: the header lookups, in
      the order the code makes them, then one record per index. */
  function RenderRun(v10: bool, f: File, header: Record): Tables.Run<(string, RenderParam)>
  {
    match RenderKeys(v10, header)
    case Err(e) => Failed(e)
    case Ok(k) => Tables.Prefix(RenderStep(v10, f, k), k.4)
  }

  /** The header fields the render-info loop uses: its base, then from
      version 0.10 the value, count and offset arrays, then the count. */
  function RenderKeys(v10: bool, header: Record): Result<(nat, nat, nat, nat, nat)>
  {
    var base :- GetNum(header, RenderInfoOffs);
    if v10 then
      var valBase :- GetNum(header, RenderInfoValueOffs);
      var cntBase :- GetNum(header, RenderInfoCntOffs);
      var offBase :- GetNum(header, RenderInfoOffOffs);
      var n :- GetNum(header, RenderInfoCnt);
      Ok((base, valBase, cntBase, offBase, n))
    else
      var n :- GetNum(header, RenderInfoCnt);
      Ok((base, 0, 0, 0, n))
  }

  /** What render-info record i before version 0.10 holds when it reads:
      the 24 bytes at a fit in the file, its name is the string their first
      8 bytes point to, its 2-byte tag at a + 18 is a known type and its
      type name that type's, and it has as many values as its 2-byte count,
      value j being value j of that tag at the 8-byte offset at a + 8. */
  ghost predicate Render0Fields(f: File, a: nat, name: string, p: RenderParam)
  {
    && a + 24 <= |f.bytes|
    && LeUint(f.bytes, a, 8) in f.strings
    && name == p.name == f.strings[LeUint(f.bytes, a, 8)]
    && p.count == LeUint(f.bytes, a + 16, 2)
    && LeUint(f.bytes, a + 18, 2) < 3 && p.typeName == TypeName(false, LeUint(f.bytes, a + 18, 2))
    && |p.vals| == p.count
    && forall j :: 0 <= j < p.count ==>
         InfoValueAt(f, false, LeUint(f.bytes, a + 18, 2), LeUint(f.bytes, a + 8, 8), j) == Ok(p.vals[j])
  }

  /** Render-info record i is read at base + 24i before version 0.10, as
      Render0Fields says. */
  lemma RenderRecord0Reads(f: File, base: nat, i: nat)
    ensures var r := RenderRecord0(f, base, i);
      r.Ok? ==> Render0Fields(f, base + 24 * i, r.value.0, r.value.1)
  {
    var r := RenderRecord0(f, base, i);
    if r.Ok? {
      var a := base + 24 * i;
      InfoContents(f, false, f.strings[LeUint(f.bytes, a, 8)], LeUint(f.bytes, a + 18, 2), LeUint(f.bytes, a + 8, 8),
                   LeUint(f.bytes, a + 16, 2), 0, LeUint(f.bytes, a + 8, 8));
    }
  }

  /** What render-info record i from version 0.10 holds when it reads: the
      16 bytes at a fit in the file, its name is the string their first 8
      bytes point to, its type byte is a known type and its type name that
      type's, and it has as many values as the 2-byte count at
      cntBase + 2i, value j being value j of that type read from valBase
      plus the 2-byte offset at offBase + 2i. */
  ghost predicate Render10Fields(f: File, a: nat, valBase: nat, cntBase: nat, offBase: nat, i: nat, name: string, p: RenderParam)
  {
    && a + 16 <= |f.bytes|
    && LeUint(f.bytes, a, 8) in f.strings
    && name == p.name == f.strings[LeUint(f.bytes, a, 8)]
    && cntBase + 2 * i + 2 <= |f.bytes| && offBase + 2 * i + 2 <= |f.bytes|
    && p.count == LeUint(f.bytes, cntBase + 2 * i, 2)
    && f.bytes[a + 8] < 3 && p.typeName == TypeName(true, f.bytes[a + 8] as nat)
    && |p.vals| == p.count
    && forall j :: 0 <= j < p.count ==>
         InfoValueAt(f, true, f.bytes[a + 8] as nat, valBase + LeUint(f.bytes, offBase + 2 * i, 2), j) == Ok(p.vals[j])
  }

  /** From version 0.10 record i is read at base + 16i, as Render10Fields
      says. */
  lemma RenderRecord10Reads(f: File, base: nat, valBase: nat, cntBase: nat, offBase: nat, i: nat)
    ensures var r := RenderRecord10(f, base, valBase, cntBase, offBase, i);
      r.Ok? ==> Render10Fields(f, base + 16 * i, valBase, cntBase, offBase, i, r.value.0, r.value.1)
  {
    var r := RenderRecord10(f, base, valBase, cntBase, offBase, i);
    if r.Ok? {
      var a := base + 16 * i;
      var offs := LeUint(f.bytes, offBase + 2 * i, 2);
      InfoContents(f, true, f.strings[LeUint(f.bytes, a, 8)], f.bytes[a + 8] as nat, offs,
                   LeUint(f.bytes, cntBase + 2 * i, 2), valBase, valBase + offs);
    }
  }

  // ---------------------------------------------------------------------
  // Material params (`shaderParamTypes`, `_readMaterialParams`,
  // `_readMaterialParams10`)

  /** How one 4-byte item of a param format is read: 'i', 'I' or 'f'. */
  datatype Item = SInt | UInt | FloatItem

  /** An entry of `shaderParamTypes`: the struct format, its name and its
      print format, with the format's items in order. */
  datatype ParamType = ParamType(fmt: string, name: string, outfmt: string, items: seq<Item>)

  /** `shaderParamTypes[tag]`, or the KeyError of an unlisted tag. */
  function ShaderParamType(tag: nat): (r: Result<ParamType>)
    ensures r.Ok? <==> tag in {0x04, 0x08, 0x0C, 0x0D, 0x0E, 0x0F, 0x1E}
    ensures r.Err? ==> r.error == UnknownTag(tag)
  {
    if tag == 0x04 then Ok(ParamType("i", "sptr", "%08X", [SInt]))
    else if tag == 0x08 then Ok(ParamType("I", "ptr", "%08X", [UInt]))
    else if tag == 0x0C then Ok(ParamType("f", "float", "%f", [FloatItem]))
    else if tag == 0x0D then Ok(ParamType("2f", "Vec2f", "%f, %f", [FloatItem, FloatItem]))
    else if tag == 0x0E then Ok(ParamType("3f", "Vec3f", "%f, %f, %f", [FloatItem, FloatItem, FloatItem]))
    else if tag == 0x0F then Ok(ParamType("4f", "Vec4f", "%f, %f, %f, %f", [FloatItem, FloatItem, FloatItem, FloatItem]))
    else if tag == 0x1E then
      Ok(ParamType("I5f", "texSRT", "mode=%d XS=%f YS=%f rot=%f X=%f Y=%f",
                   [UInt, FloatItem, FloatItem, FloatItem, FloatItem, FloatItem]))
    else Err(UnknownTag(tag))
  }

  /** An item read from its 4 little-endian bytes; a float is kept as its
      bit pattern. */
  function ItemValue(it: Item, w: nat): int
  {
    if it == SInt then Signed(w, 32) else w
  }

  /** `read(fmt, offs)`: the format's items from the 4 * |items| bytes at
      offs. */
  function ReadItems(f: File, items: seq<Item>, offs: nat): (r: Result<seq<int>>)
    ensures r.Ok? <==> offs + 4 * |items| <= |f.bytes|
    ensures r.Ok? ==>
      && |r.value| == |items|
      && forall k :: 0 <= k < |items| ==> r.value[k] == ItemValue(items[k], LeUint(f.bytes, offs + 4 * k, 4))
  {
    if offs + 4 * |items| <= |f.bytes| then
      Ok(seq(|items|, (k: int) requires 0 <= k < |items| => ItemValue(items[k], LeUint(f.bytes, offs + 4 * k, 4))))
    else Err(OutOfBounds(offs))
  }

  /** A material param: before version 0.10 its raw data bytes and the
      record's other fields, from it the data decoded with its type's
      format. */
  datatype MaterialParam =
    | Param0(name: string, typ: ParamType, size: nat, offset: nat, idxs: (nat, nat), unk00: nat, unk14: int, raw: seq<byte>)
    | Param10(name: string, data: seq<int>, typ: ParamType, offset: nat)

  /** Param record i before version 0.10: 'QQBBHiHH' (unk0, name, tag,
      size, offset, unk14, idx0, idx1) at arrayOffs + 32i, its size bytes
      of data at dataOffs + offset. */
  function ParamRecord0(f: File, arrayOffs: nat, dataOffs: nat, i: nat): Result<(string, MaterialParam)>
  {
    var a := arrayOffs + 32 * i;
    var _ :- Fits(f, a, 28);
    var name :- ReadStr(f, LeUint(f.bytes, a + 8, 8));
    var typ :- ShaderParamType(f.bytes[a + 16] as nat);
    var size, offset := f.bytes[a + 17] as nat, LeUint(f.bytes, a + 18, 2);
    var raw :- ReadBytes(f, dataOffs + offset, size);
    Ok((name, Param0(name, typ, size, offset, (LeUint(f.bytes, a + 24, 2), LeUint(f.bytes, a + 26, 2)),
                     LeUint(f.bytes, a, 8), Signed(LeUint(f.bytes, a + 20, 4), 32), raw)))
  }

  /** Param record i from version 0.10: 'QQHB' (unk0, name, offset, tag)
      at arrayOffs + 0x18i, its data in its type's format at
      dataOffs + offset. */
  function ParamRecord10(f: File, arrayOffs: nat, dataOffs: nat, i: nat): Result<(string, MaterialParam)>
  {
    var a := arrayOffs + 0x18 * i;
    var _ :- Fits(f, a, 19);
    var name :- ReadStr(f, LeUint(f.bytes, a + 8, 8));
    var typ :- ShaderParamType(f.bytes[a + 18] as nat);
    var offset := LeUint(f.bytes, a + 16, 2);
    var data :- ReadItems(f, typ.items, dataOffs + offset);
    Ok((name, Param10(name, data, typ, offset)))
  }

  function ParamStep(v10: bool, f: File, arrayOffs: nat, dataOffs: nat): nat -> Result<(string, MaterialParam)>
  {
    (i: nat) => if v10 then ParamRecord10(f, arrayOffs, dataOffs, i) else ParamRecord0(f, arrayOffs, dataOffs, i)
  }

  /** The material-param loop: the array and data offsets and the count
      from the header, then one record per index. */
  function ParamRun(v10: bool, f: File, header: Record): Tables.Run<(string, MaterialParam)>
  {
    match ParamKeys(header)
    case Err(e) => Failed(e)
    case Ok(k) => Tables.Prefix(ParamStep(v10, f, k.0, k.1), k.2)
  }

  function ParamKeys(header: Record): Result<(nat, nat, nat)>
  {
    var arrayOffs :- GetNum(header, MatParamArrayOffs);
    var dataOffs :- GetNum(header, MatParamDataOffs);
    var n :- GetNum(header, MatParamCnt);
    Ok((arrayOffs, dataOffs, n))
  }

  /** What param record i before version 0.10 holds when it reads: the 28
      bytes at a fit in the file, its name is the string they point to,
      its type the entry of its tag, its offset and the other fields the
      ones stored there, and its data the size bytes at dataOffs plus that
      offset. */
  ghost predicate Param0Fields(f: File, a: nat, dataOffs: nat, name: string, p: MaterialParam)
  {
    && a + 28 <= |f.bytes| && p.Param0?
    && LeUint(f.bytes, a + 8, 8) in f.strings
    && name == p.name == f.strings[LeUint(f.bytes, a + 8, 8)]
    && ShaderParamType(f.bytes[a + 16] as nat) == Ok(p.typ)
    && |p.raw| == p.size == f.bytes[a + 17] as nat
    && p.offset == LeUint(f.bytes, a + 18, 2)
    && p.unk00 == LeUint(f.bytes, a, 8) && p.unk14 == Signed(LeUint(f.bytes, a + 20, 4), 32)
    && p.idxs == (LeUint(f.bytes, a + 24, 2), LeUint(f.bytes, a + 26, 2))
    && dataOffs + p.offset + p.size <= |f.bytes|
    && p.raw == f.bytes[dataOffs + p.offset .. dataOffs + p.offset + p.size]
  }

  /** Before version 0.10, param record i is the 28 bytes at
      arrayOffs + 32i, as Param0Fields says; an unlisted tag raises. */
  lemma ParamRecord0Meaning(f: File, arrayOffs: nat, dataOffs: nat, i: nat)
    ensures var r := ParamRecord0(f, arrayOffs, dataOffs, i);
      r.Ok? ==> Param0Fields(f, arrayOffs + 32 * i, dataOffs, r.value.0, r.value.1)
    ensures var a := arrayOffs + 32 * i;
      a + 28 <= |f.bytes| && LeUint(f.bytes, a + 8, 8) in f.strings && ShaderParamType(f.bytes[a + 16] as nat).Err? ==>
        ParamRecord0(f, arrayOffs, dataOffs, i) == Err(UnknownTag(f.bytes[a + 16] as nat))
  {
  }

  /** What param record i from version 0.10 holds when it reads: the 19
      bytes at a fit in the file, its name is the string they point to,
      its type the entry of its tag, and its data one value per item of
      that type's format, read at dataOffs plus its offset. */
  ghost predicate Param10Fields(f: File, a: nat, dataOffs: nat, name: string, p: MaterialParam)
  {
    && a + 19 <= |f.bytes| && p.Param10?
    && LeUint(f.bytes, a + 8, 8) in f.strings
    && name == p.name == f.strings[LeUint(f.bytes, a + 8, 8)]
    && ShaderParamType(f.bytes[a + 18] as nat) == Ok(p.typ)
    && p.offset == LeUint(f.bytes, a + 16, 2)
    && ReadItems(f, p.typ.items, dataOffs + p.offset) == Ok(p.data)
  }

  /** From version 0.10, param record i is the 19 bytes at
      arrayOffs + 0x18i, as Param10Fields says; an unlisted tag raises. */
  lemma ParamRecord10Meaning(f: File, arrayOffs: nat, dataOffs: nat, i: nat)
    ensures var r := ParamRecord10(f, arrayOffs, dataOffs, i);
      r.Ok? ==> Param10Fields(f, arrayOffs + 0x18 * i, dataOffs, r.value.0, r.value.1)
    ensures var a := arrayOffs + 0x18 * i;
      a + 19 <= |f.bytes| && LeUint(f.bytes, a + 8, 8) in f.strings && ShaderParamType(f.bytes[a + 18] as nat).Err? ==>
        ParamRecord10(f, arrayOffs, dataOffs, i) == Err(UnknownTag(f.bytes[a + 18] as nat))
  {
  }

  // ---------------------------------------------------------------------
  // Dicts (`_readDicts`)

  /** The dicts `_readDicts` sets, in order: `<name>_dict` for name in
      render_info, sampler, mat_param and user_data, read at the header's
      `<name>_dict_offs`, the field listed here. */
  const DictOffsKeys: seq<Key> := [RenderInfoDictOffs, SamplerDictOffs, MatParamDictOffs, UserDataDictOffs]

  /** Dict i of `_readDicts`: None for a zero `<name>_dict_offs`, otherwise
      the Dict read at that offset. */
  function DictRecord(fres: Fres, header: Record, i: nat): Result<Option<seq<string>>>
  {
    if i >= |DictOffsKeys| then Err(BadIndex(i))
    else
      var offs :- GetNum(header, DictOffsKeys[i]);
      if offs == 0 then Ok(None)
      else
        var d :- fres.dict(offs);
        Ok(Some(d))
  }

  function DictStep(fres: Fres, header: Record): nat -> Result<Option<seq<string>>>
  {
    (i: nat) => DictRecord(fres, header, i)
  }

  /** A zero offset gives None without reading anything: the result does
      not depend on the Dict reader. A non-zero one gives the Dict read
      there, or its exception. */
  lemma DictZeroOffset(fres: Fres, other: nat -> Result<seq<string>>, header: Record, i: nat)
    requires i < |DictOffsKeys|
    ensures var r, key := DictRecord(fres, header, i), DictOffsKeys[i];
      && (GetNum(header, key) == Ok(0) ==> r == Ok(None) &&
                                            DictRecord(fres.(dict := other), header, i) == r)
      && (GetNum(header, key).Ok? && GetNum(header, key).value != 0 ==>
            (r.Ok? <==> fres.dict(GetNum(header, key).value).Ok?) &&
            (r.Ok? ==> r.value == Some(fres.dict(GetNum(header, key).value).value)))
  {
  }

  // ---------------------------------------------------------------------
  // Texture samplers (`_readTextureSamplers`)

  /** A texture reference: the texture's name, the sampler it is bound to
      and its descriptor slot. */
  datatype TextureSampler = TextureSampler(textureName: string, textureSampler: string, slot: int)

  /** Texture reference i: the name through the 8-byte offset at
      tex_ref_array_offs + 8i, the slot 'q' at tex_slot_offs + 8i, the
      sampler name from node i + 1 of the sampler dict. */
  function TexRefRecord(f: File, header: Record, samplerDict: Option<seq<string>>, i: nat): Result<(string, TextureSampler)>
  {
    var arr :- GetNum(header, TexRefArrayOffs);
    var texName :- StrAt(f, arr + 8 * i);
    var slots :- GetNum(header, TexSlotOffs);
    var slot :- ReadSint(f, slots + 8 * i, 8);
    var name :- Node(samplerDict, "sampler_dict", i + 1);
    Ok((name, TextureSampler(texName, name, slot)))
  }

  function TexRefStep(f: File, header: Record, samplerDict: Option<seq<string>>): nat -> Result<(string, TextureSampler)>
  {
    (i: nat) => TexRefRecord(f, header, samplerDict, i)
  }

  function TexRefRun(f: File, header: Record, samplerDict: Option<seq<string>>): Tables.Run<(string, TextureSampler)>
  {
    match GetNum(header, TexRefCnt)
    case Err(e) => Failed(e)
    case Ok(n) => Tables.Prefix(TexRefStep(f, header, samplerDict), n)
  }

  /** A texture reference is stored under the sampler name of node i + 1,
      and is read exactly when the two offsets are in the header, both
      values lie in the file and the sampler dict has that node. */
  lemma TexRefMeaning(f: File, header: Record, samplerDict: Option<seq<string>>, i: nat)
    ensures var r := TexRefRecord(f, header, samplerDict, i);
      r.Ok? <==> && GetNum(header, TexRefArrayOffs).Ok? && GetNum(header, TexSlotOffs).Ok?
                 && StrAt(f, GetNum(header, TexRefArrayOffs).value + 8 * i).Ok?
                 && GetNum(header, TexSlotOffs).value + 8 * i + 8 <= |f.bytes|
                 && samplerDict.Some? && i + 1 < |samplerDict.value|
    ensures var r := TexRefRecord(f, header, samplerDict, i);
      r.Ok? ==> && r.value.0 == r.value.1.textureSampler == samplerDict.value[i + 1]
                && r.value.1.textureName == StrAt(f, GetNum(header, TexRefArrayOffs).value + 8 * i).value
                && r.value.1.slot == Signed(LeUint(f.bytes, GetNum(header, TexSlotOffs).value + 8 * i, 8), 64)
  {
  }

  /** The index-array offset as `_readTextureSamplers` looks it up,
      whatever the version: only the ShaderAssign10 layout of version 0.10
      has a `tex_attr_indx` field. */
  function TexAttrIndexAsWritten(assign: Record): Result<nat>
  {
    GetNum(assign, TexAttrIndx)
  }

  /** Before version 0.10 that lookup raises KeyError on every ShaderAssign
      record, whatever the file holds. */
  lemma AsWrittenV0TexAttrIndexFails(assign: Record)
    requires assign.Keys == ShaderAssignFields
    ensures TexAttrIndexAsWritten(assign) == Err(MissingField(TexAttrIndx))
  {
    assert TexAttrIndx !in ShaderAssignFields;
  }

  /** Whether the texture attributes name their dict nodes through an index
      array. The ShaderAssign layout before version 0.10 has no
      `tex_attr_indx`: there the attributes take the nodes in order, as
      with a zero index offset. */
  function TexAttrIndex(assign: Record, v10: bool): (r: Result<nat>)
    ensures !v10 ==> r == Ok(0)
    ensures v10 ==> r == TexAttrIndexAsWritten(assign)
  {
    if v10 then GetNum(assign, TexAttrIndx) else Ok(0)
  }

  /** With that correction, a texture attribute before version 0.10 that
      is read takes node i + 1 of the texture-attribute dict. */
  lemma V0FragNodesInOrder(f: File, assign: Record, texAttrDict: Option<seq<string>>,
                           samplers: map<string, TextureSampler>, i: nat)
    ensures var r := FragRecord(f, assign, false, texAttrDict, samplers, i);
      r.Ok? ==> texAttrDict.Some? && i + 1 < |texAttrDict.value| && r.value.0 == texAttrDict.value[i + 1]
  {
    FragMeaning(f, assign, false, texAttrDict, samplers, i);
  }

  /** Texture attribute i: the sampler name through the 8-byte offset at
      tex_attr_names + 8i, and the attribute name from node i + 1 of the
      texture-attribute dict, or from node idx + 1 for the byte idx at
      tex_attr_indx + i when that offset is not zero; it is bound to the
      texture reference of that sampler. */
  function FragRecord(f: File, assign: Record, v10: bool, texAttrDict: Option<seq<string>>,
                      samplers: map<string, TextureSampler>, i: nat): Result<(string, TextureSampler)>
  {
    var names :- GetNum(assign, TexAttrNames);
    var samplerName :- StrAt(f, names + 8 * i);
    var indx :- TexAttrIndex(assign, v10);
    var node :- if indx == 0 then Ok(i + 1) else (var idx :- ReadUint(f, indx + i, 1); Ok(idx + 1));
    var name :- Node(texAttrDict, "tex_attribute_dict", node);
    if samplerName in samplers then Ok((name, samplers[samplerName])) else Err(MissingKey(samplerName))
  }

  function FragStep(f: File, assign: Record, v10: bool, texAttrDict: Option<seq<string>>,
                    samplers: map<string, TextureSampler>): nat -> Result<(string, TextureSampler)>
  {
    (i: nat) => FragRecord(f, assign, v10, texAttrDict, samplers, i)
  }

  function FragRun(f: File, assign: Record, v10: bool, texAttrDict: Option<seq<string>>,
                   samplers: map<string, TextureSampler>): Tables.Run<(string, TextureSampler)>
  {
    match GetNum(assign, NumTexAttrs)
    case Err(e) => Failed(e)
    case Ok(n) => Tables.Prefix(FragStep(f, assign, v10, texAttrDict, samplers), n)
  }

  /** Every texture attribute is bound to a texture reference already read,
      the one of its sampler name; a sampler name with no reference raises
      KeyError. The node comes from the index array exactly when its offset
      is not zero. */
  lemma FragMeaning(f: File, assign: Record, v10: bool, texAttrDict: Option<seq<string>>,
                    samplers: map<string, TextureSampler>, i: nat)
    ensures var r := FragRecord(f, assign, v10, texAttrDict, samplers, i);
      r.Ok? ==> && StrAt(f, GetNum(assign, TexAttrNames).value + 8 * i).Ok?
                && var samplerName := StrAt(f, GetNum(assign, TexAttrNames).value + 8 * i).value;
                   samplerName in samplers && r.value.1 == samplers[samplerName]
    ensures var r := FragRecord(f, assign, v10, texAttrDict, samplers, i);
      r.Ok? && TexAttrIndex(assign, v10) == Ok(0) ==> texAttrDict.Some? && i + 1 < |texAttrDict.value| &&
                                                       r.value.0 == texAttrDict.value[i + 1]
    ensures var r, indx := FragRecord(f, assign, v10, texAttrDict, samplers, i), TexAttrIndex(assign, v10);
      r.Ok? && indx.Ok? && indx.value != 0 ==>
        && indx.value + i < |f.bytes| && texAttrDict.Some?
        && f.bytes[indx.value + i] as nat + 1 < |texAttrDict.value|
        && r.value.0 == texAttrDict.value[f.bytes[indx.value + i] as nat + 1]
    ensures var r := FragRecord(f, assign, v10, texAttrDict, samplers, i);
      (&& GetNum(assign, TexAttrNames).Ok? && StrAt(f, GetNum(assign, TexAttrNames).value + 8 * i).Ok?
       && StrAt(f, GetNum(assign, TexAttrNames).value + 8 * i).value !in samplers) ==> r.Err?
  {
    var r := FragRecord(f, assign, v10, texAttrDict, samplers, i);
    var indx := TexAttrIndex(assign, v10);
    if r.Ok? && indx.Ok? && indx.value != 0 {
      assert ReadUint(f, indx.value + i, 1).Ok?;
      assert LeUint(f.bytes, indx.value + i, 1) == f.bytes[indx.value + i] as nat;
    }
  }

  // ---------------------------------------------------------------------
  // Sampler infos (`_readSamplerInfoArray`)

  /** An entry of `samplerInfoList`: the slot and the decoded SamplerInfo. */
  datatype SamplerEntry = SamplerEntry(slot: int, data: Record)

  /** Sampler info i: the SamplerInfo at sampler_info_offs + 0x20i and the
      slot 'q' at sampler_slot_offs + 8i. */
  function SamplerRecord(fres: Fres, header: Record, i: nat): Result<SamplerEntry>
  {
    var infos :- GetNum(header, SamplerInfoOffs);
    var data :- fres.read(SamplerInfoStruct, infos + 0x20 * i);
    var slots :- GetNum(header, SamplerSlotOffs);
    var slot :- ReadSint(fres.file, slots + 8 * i, 8);
    Ok(SamplerEntry(slot, data))
  }

  function SamplerStep(fres: Fres, header: Record): nat -> Result<SamplerEntry>
  {
    (i: nat) => SamplerRecord(fres, header, i)
  }

  function SamplerRun(fres: Fres, header: Record): Tables.Run<SamplerEntry>
  {
    match GetNum(header, SamplerCnt)
    case Err(e) => Failed(e)
    case Ok(n) => Tables.Prefix(SamplerStep(fres, header), n)
  }

  /** The list has sampler_cnt entries when the loop completes. */
  lemma SamplerListLength(fres: Fres, header: Record)
    ensures var run := SamplerRun(fres, header);
      run.outcome.Ok? ==> GetNum(header, SamplerCnt) == Ok(|run.items|)
  {
  }

  /** Entry i is the SamplerInfo at sampler_info_offs + 0x20i with the slot
      at sampler_slot_offs + 8i. */
  lemma SamplerEntryAt(fres: Fres, header: Record, i: nat)
    requires i < |SamplerRun(fres, header).items|
    ensures var e := SamplerRun(fres, header).items[i];
      && GetNum(header, SamplerInfoOffs).Ok? && GetNum(header, SamplerSlotOffs).Ok?
      && fres.read(SamplerInfoStruct, GetNum(header, SamplerInfoOffs).value + 0x20 * i) == Ok(e.data)
      && GetNum(header, SamplerSlotOffs).value + 8 * i + 8 <= |fres.file.bytes|
      && e.slot == Signed(LeUint(fres.file.bytes, GetNum(header, SamplerSlotOffs).value + 8 * i, 8), 64)
  {
    var run := SamplerRun(fres, header);
    Tables.PrefixAt(SamplerStep(fres, header), GetNum(header, SamplerCnt).value, i);
    assert SamplerRecord(fres, header, i) == Ok(run.items[i]);
  }

  // ---------------------------------------------------------------------
  // Shader assign (`_readShaderAssign`)

  /** The shader assign of the format version and the header the later
      readers see: from version 0.10 the ShaderReflection at `shader_refl`
      is merged into both, its fields replacing theirs. */
  function AssignOf(fres: Fres, header: Record): Result<(Record, Record)>
  {
    var offs :- GetNum(header, ShaderAssignOffs);
    if IsV10(fres) then
      var assign :- fres.read(ShaderAssign10Struct, offs);
      var reflOffs :- GetNum(assign, ShaderRefl);
      var refl :- fres.read(ShaderReflectionStruct, reflOffs);
      Ok((assign + refl, header + refl))
    else
      var assign :- fres.read(ShaderAssignStruct, offs);
      Ok((assign, header))
  }

  /** From version 0.10 every ShaderReflection field reads as in the
      reflection, in the assign and in the header alike, and every other
      field keeps its value; before it, both are the records read. */
  lemma AssignMerge(fres: Fres, header: Record)
    ensures var r := AssignOf(fres, header);
      r.Ok? && IsV10(fres) ==>
        && GetNum(header, ShaderAssignOffs).Ok?
        && var assign := fres.read(ShaderAssign10Struct, GetNum(header, ShaderAssignOffs).value);
           && assign.Ok? && GetNum(assign.value, ShaderRefl).Ok?
           && var refl := fres.read(ShaderReflectionStruct, GetNum(assign.value, ShaderRefl).value);
              && refl.Ok?
              && (forall k :: k in refl.value ==> k in r.value.0 && r.value.0[k] == refl.value[k] &&
                                                  k in r.value.1 && r.value.1[k] == refl.value[k])
              && (forall k :: k in assign.value && k !in refl.value ==> k in r.value.0 && r.value.0[k] == assign.value[k])
              && (forall k :: k in header && k !in refl.value ==> k in r.value.1 && r.value.1[k] == header[k])
    ensures var r := AssignOf(fres, header);
      r.Ok? && !IsV10(fres) ==>
        && r.value.1 == header && GetNum(header, ShaderAssignOffs).Ok?
        && fres.read(ShaderAssignStruct, GetNum(header, ShaderAssignOffs).value) == Ok(r.value.0)
  {
  }

  /** Vertex attribute i: the name through the 8-byte offset at
      vtx_attr_names + 8i. */
  function VtxRecord(f: File, assign: Record, i: nat): Result<string>
  {
    var names :- GetNum(assign, VtxAttrNames);
    StrAt(f, names + 8 * i)
  }

  function VtxStep(f: File, assign: Record): nat -> Result<string>
  {
    (i: nat) => VtxRecord(f, assign, i)
  }

  function VtxRun(f: File, assign: Record): Tables.Run<string>
  {
    match GetNum(assign, NumVtxAttrs)
    case Err(e) => Failed(e)
    case Ok(n) => Tables.Prefix(VtxStep(f, assign), n)
  }

  /** `vtxAttrs` holds num_vtx_attrs names once the loop completes, name i
      being the string at vtx_attr_names + 8i. */
  lemma VtxAttrAt(f: File, assign: Record, i: nat)
    requires i < |VtxRun(f, assign).items|
    ensures var run := VtxRun(f, assign);
      && GetNum(assign, VtxAttrNames).Ok?
      && StrAt(f, GetNum(assign, VtxAttrNames).value + 8 * i) == Ok(run.items[i])
      && (run.outcome.Ok? ==> GetNum(assign, NumVtxAttrs) == Ok(|run.items|))
  {
    Tables.PrefixAt(VtxStep(f, assign), GetNum(assign, NumVtxAttrs).value, i);
    assert VtxRecord(f, assign, i) == Ok(VtxRun(f, assign).items[i]);
  }

  /** The fields `_readShaderAssign` reads the texture-attribute and the
      shader-option Dict offsets from, as the code names them whatever the
      version: only the ShaderReflection merged in from version 0.10 has
      them. */
  const AssignDictKeysAsWritten: (Key, Key) := (TexAttrDictOffs, ShaderOptionDictOffs)

  /** The fields holding those offsets in the layouts: `tex_attr_dict` and
      `shader_option_dict` in the ShaderAssign before version 0.10. */
  function AssignDictKeys(v10: bool): (k: (Key, Key))
    ensures !v10 ==> k.0 in ShaderAssignFields && k.1 in ShaderAssignFields
    ensures v10 ==> k == AssignDictKeysAsWritten
  {
    if v10 then AssignDictKeysAsWritten else (TexAttrDict, ShaderOptionDict)
  }

  /** The texture-attribute and the shader-option Dicts, read at the
      offsets under keys; the offsets are read even when zero. */
  function AttrDicts(fres: Fres, assign: Record, keys: (Key, Key)): (r: Result<(seq<string>, seq<string>)>)
    ensures r.Ok? <==> && GetNum(assign, keys.0).Ok? && fres.dict(GetNum(assign, keys.0).value).Ok?
                       && GetNum(assign, keys.1).Ok? && fres.dict(GetNum(assign, keys.1).value).Ok?
    ensures r.Ok? ==> r.value == (fres.dict(GetNum(assign, keys.0).value).value, fres.dict(GetNum(assign, keys.1).value).value)
  {
    var texOffs :- GetNum(assign, keys.0);
    var texDict :- fres.dict(texOffs);
    var optOffs :- GetNum(assign, keys.1);
    var optDict :- fres.dict(optOffs);
    Ok((texDict, optDict))
  }

  /** The fields of the ShaderAssign layout before version 0.10. */
  const ShaderAssignFields: set<Key> :=
    {Name, Name2, VtxAttrNames, VtxAttrDict, TexAttrNames, TexAttrDict,
     ShaderOptionVals, ShaderOptionDict, NumVtxAttrs, NumTexAttrs, NumShaderOptions}

  /** Before version 0.10 the lookup as written raises KeyError on every
      ShaderAssign record, whatever the file holds. */
  lemma AsWrittenV0DictsFail(fres: Fres, assign: Record)
    requires assign.Keys == ShaderAssignFields
    ensures AttrDicts(fres, assign, AssignDictKeysAsWritten) == Err(MissingField(TexAttrDictOffs))
  {
    assert TexAttrDictOffs !in ShaderAssignFields;
  }

  /** With the layout's own field names the Dicts are read at the offsets
      the record holds, in both versions. */
  lemma V0DictsRead(fres: Fres, assign: Record)
    requires assign.Keys == ShaderAssignFields
    requires forall k :: k in assign ==> assign[k].Num?
    ensures var r := AttrDicts(fres, assign, AssignDictKeys(false));
      r.Ok? <==> fres.dict(assign[TexAttrDict].n).Ok? && fres.dict(assign[ShaderOptionDict].n).Ok?
  {
    assert TexAttrDict in ShaderAssignFields && ShaderOptionDict in ShaderAssignFields;
  }

  // ---------------------------------------------------------------------
  // Shader options

  /** A shader option: a flag, or a value stored as a string. */
  datatype OptionValue = BoolOption(b: bool) | StringOption(s: string)

  /** Boolean option i (from version 0.10): named by node i + 1 of the
      shader-option dict, set exactly when bit i of the mask is set. */
  function BoolOptRecord(optDict: seq<string>, bools: nat, i: nat): Result<(string, OptionValue)>
  {
    var name :- Node(Some(optDict), "shader_option_dict", i + 1);
    Ok((name, BoolOption(Bit(bools, i) == 1)))
  }

  function BoolOptStep(optDict: seq<string>, bools: nat): nat -> Result<(string, OptionValue)>
  {
    (i: nat) => BoolOptRecord(optDict, bools, i)
  }

  /** String option i: named by node first + i + 1, first being
      num_bool_shader_options from version 0.10 and 0 before it, its value
      the string through the 8-byte offset at shader_option_vals + 8i. */
  function StrOptRecord(f: File, assign: Record, optDict: seq<string>, v10: bool, i: nat): Result<(string, OptionValue)>
  {
    var first :- if v10 then GetNum(assign, NumBoolShaderOptions) else Ok(0);
    var name :- Node(Some(optDict), "shader_option_dict", first + i + 1);
    var vals :- GetNum(assign, ShaderOptionVals);
    var s :- StrAt(f, vals + 8 * i);
    Ok((name, StringOption(s)))
  }

  function StrOptStep(f: File, assign: Record, optDict: seq<string>, v10: bool): nat -> Result<(string, OptionValue)>
  {
    (i: nat) => StrOptRecord(f, assign, optDict, v10, i)
  }

  /** The 4-byte mask at bool_shader_option_vals and the number of boolean
      options. */
  function BoolKeys(f: File, assign: Record): Result<(nat, nat)>
  {
    var at :- GetNum(assign, BoolShaderOptionVals);
    var bools :- ReadUint(f, at, 4);
    var n :- GetNum(assign, NumBoolShaderOptions);
    Ok((bools, n))
  }

  /** The number of string options: num_shader_options, less the boolean
      ones from version 0.10 (`range` of a negative count is empty). */
  function StrCount(v10: bool, assign: Record): (r: Result<nat>)
    ensures r.Ok? <==> GetNum(assign, NumShaderOptions).Ok? && (v10 ==> GetNum(assign, NumBoolShaderOptions).Ok?)
    ensures r.Ok? && !v10 ==> r.value == GetNum(assign, NumShaderOptions).value
    ensures r.Ok? && v10 ==>
      r.value as int == Max(GetNum(assign, NumShaderOptions).value - GetNum(assign, NumBoolShaderOptions).value, 0)
  {
    var total :- GetNum(assign, NumShaderOptions);
    if v10 then
      var nb :- GetNum(assign, NumBoolShaderOptions);
      Ok(if total >= nb then total - nb else 0)
    else Ok(total)
  }

  function Max(a: int, b: int): int
  {
    if a >= b then a else b
  }

  /** The options loops of the version: from version 0.10 the boolean
      options, then the string options; before it the string options. */
  function OptionRun(v10: bool, f: File, assign: Record, optDict: seq<string>): Tables.Run<(string, OptionValue)>
  {
    if v10 then
      match BoolKeys(f, assign)
      case Err(e) => Failed(e)
      case Ok(k) =>
        var b := Tables.Prefix(BoolOptStep(optDict, k.0), k.1);
        if b.outcome.Err? then b
        else match StrCount(true, assign)
          case Err(e) => Tables.Run(b.items, Err(e))
          case Ok(n) =>
            var p := Tables.Prefix(StrOptStep(f, assign, optDict, true), n);
            Tables.Run(b.items + p.items, p.outcome)
    else
      match StrCount(false, assign)
      case Err(e) => Failed(e)
      case Ok(n) => Tables.Prefix(StrOptStep(f, assign, optDict, false), n)
  }

  /** Boolean option i is `(bools & (1 << i)) != 0` under the name of node
      i + 1; a mask of 4 bytes leaves every option from 32 on unset. */
  lemma BoolOptMeaning(optDict: seq<string>, bools: nat, i: nat)
    ensures BoolOptRecord(optDict, bools, i).Ok? <==> i + 1 < |optDict|
    ensures BoolOptRecord(optDict, bools, i).Ok? ==>
      BoolOptRecord(optDict, bools, i).value == (optDict[i + 1], BoolOption(Bit(bools, i) == 1))
    ensures bools < Pow2(32) && i >= 32 && i + 1 < |optDict| ==>
      BoolOptRecord(optDict, bools, i).value.1 == BoolOption(false)
  {
    if bools < Pow2(32) && i >= 32 {
      BitAbove(bools, 32, i);
    }
  }

  /** From version 0.10 string option i is named by node
      num_bool_shader_options + i + 1; before it by node i + 1. */
  lemma StrOptMeaning(f: File, assign: Record, optDict: seq<string>, v10: bool, i: nat)
    ensures var r := StrOptRecord(f, assign, optDict, v10, i);
      r.Ok? ==> && (v10 ==> GetNum(assign, NumBoolShaderOptions).Ok?)
                && var first := if v10 then GetNum(assign, NumBoolShaderOptions).value else 0;
                   && first + i + 1 < |optDict| && r.value.0 == optDict[first + i + 1]
                   && GetNum(assign, ShaderOptionVals).Ok?
                   && r.value.1 == StringOption(StrAt(f, GetNum(assign, ShaderOptionVals).value + 8 * i).value)
  {
  }

  /** `shaderOptions`: an option named by an empty node is never stored,
      and the last option of a name decides its value. */
  lemma OptionsStored(run: Tables.Run<(string, OptionValue)>, i: nat)
    requires i < |run.items| && run.items[i].0 != ""
    requires forall j :: i < j < |run.items| ==> run.items[j].0 != run.items[i].0
    ensures "" !in Tables.Named(run.items)
    ensures run.items[i].0 in Tables.Named(run.items) && Tables.Named(run.items)[run.items[i].0] == run.items[i].1
  {
    Tables.NamedLastWins(run.items, i);
  }

  /** What `_readShaderAssign` leaves: the shader assign and the header,
      the vertex attributes, the two Dicts and the shader options. */
  datatype AssignData = AssignData(assign: Record, header: Record, vtxAttrs: seq<string>,
                                   texAttrDict: seq<string>, optDict: seq<string>,
                                   options: map<string, OptionValue>)

  /** `_readShaderAssign` on a header that has been read. */
  function ShaderAssign(fres: Fres, header: Record): Result<AssignData>
  {
    var v10 := IsV10(fres);
    var ah :- AssignOf(fres, header);
    var vtx := VtxRun(fres.file, ah.0);
    var _ :- vtx.outcome;
    var d :- AttrDicts(fres, ah.0, AssignDictKeys(v10));
    var opts := OptionRun(v10, fres.file, ah.0, d.1);
    var _ :- opts.outcome;
    Ok(AssignData(ah.0, ah.1, vtx.items, d.0, d.1, Tables.Named(opts.items)))
  }

  // ---------------------------------------------------------------------
  // The whole material (`readFromFRES`)

  /** What `_readDicts`, `_readRenderInfo(10)`, `_readMaterialParams(10)`
      and the name lookup leave. */
  datatype TablesData = TablesData(dicts: seq<Option<seq<string>>>,  // the `<name>_dict` of each of DictOffsKeys, in order
                                   renderInfo: map<string, RenderParam>,
                                   materialParams: map<string, MaterialParam>,
                                   name: string)

  /** What `_readTextureSamplers` and `_readSamplerInfoArray` leave. */
  datatype SamplerData = SamplerData(textureSamplers: map<string, TextureSampler>,
                                     fragSamplers: map<string, TextureSampler>,
                                     samplerInfoList: seq<SamplerEntry>)

  /** Everything `readFromFRES` sets on a material. */
  datatype MaterialData = MaterialData(header: Record, assign: AssignData, tables: TablesData, samplers: SamplerData)

  /** The header layout of the format version: Header10 for version 0.10,
      Header for every other. */
  function HeaderKind(fres: Fres): (k: StructKind)
    ensures k == Header10Struct <==> fres.version == (0, 10)
    ensures k == HeaderStruct <==> fres.version != (0, 10)
  {
    if IsV10(fres) then Header10Struct else HeaderStruct
  }

  /** The dicts loop of `_readDicts`. */
  function DictRun(fres: Fres, header: Record): Tables.Run<Option<seq<string>>>
  {
    Tables.Prefix(DictStep(fres, header), |DictOffsKeys|)
  }

  /** The dicts, the render info and the material params of the version,
      then the name, from the header the shader assign leaves. */
  function MaterialTables(fres: Fres, header: Record): (r: Result<TablesData>)
    ensures r.Ok? ==> |r.value.dicts| == |DictOffsKeys|
  {
    var v10 := IsV10(fres);
    var dicts := DictRun(fres, header);
    var _ :- dicts.outcome;
    var render := RenderRun(v10, fres.file, header);
    var _ :- render.outcome;
    var params := ParamRun(v10, fres.file, header);
    var _ :- params.outcome;
    var name :- GetStr(header, Name);
    Ok(TablesData(dicts.items, Tables.Table(render.items), Tables.Table(params.items), name))
  }

  /** The texture references through the sampler dict, the fragment
      samplers bound to them, and the sampler infos. */
  function MaterialSamplers(fres: Fres, header: Record, assign: Record, texAttrDict: seq<string>, samplerDict: Option<seq<string>>): Result<SamplerData>
  {
    var tex := TexRefRun(fres.file, header, samplerDict);
    var _ :- tex.outcome;
    var textures := Tables.Table(tex.items);
    var frag := FragRun(fres.file, assign, IsV10(fres), Some(texAttrDict), textures);
    var _ :- frag.outcome;
    var smp := SamplerRun(fres, header);
    var _ :- smp.outcome;
    Ok(SamplerData(textures, Tables.Table(frag.items), smp.items))
  }

  /** A material read at offset: the header of the version, the shader
      assign, the tables, then the samplers; the first exception raised
      ends the read. */
  function ReadMaterial(fres: Fres, offset: nat): Result<MaterialData>
  {
    var header0 :- fres.read(HeaderKind(fres), offset);
    AfterHeader(fres, header0)
  }

  /** A material whose header is read: the shader assign, then the tables
      and the samplers. */
  function AfterHeader(fres: Fres, header0: Record): Result<MaterialData>
  {
    var sa :- ShaderAssign(fres, header0);
    var body :- MaterialBody(fres, sa);
    Ok(MaterialData(sa.header, sa, body.0, body.1))
  }

  /** What follows the shader assign: the tables, then the samplers, read
      with the header and the shader assign it left. */
  function MaterialBody(fres: Fres, sa: AssignData): Result<(TablesData, SamplerData)>
  {
    var t :- MaterialTables(fres, sa.header);
    var s :- MaterialSamplers(fres, sa.header, sa.assign, sa.texAttrDict, t.dicts[1]);  // sampler_dict
    Ok((t, s))
  }

  /** Every fragment sampler is bound to one of the texture references. */
  lemma FragSamplersBound(fres: Fres, header: Record, assign: Record, texAttrDict: seq<string>, samplerDict: Option<seq<string>>)
    ensures var r := MaterialSamplers(fres, header, assign, texAttrDict, samplerDict);
      r.Ok? ==> forall k :: k in r.value.fragSamplers ==> r.value.fragSamplers[k] in r.value.textureSamplers.Values
  {
    var r := MaterialSamplers(fres, header, assign, texAttrDict, samplerDict);
    if r.Ok? {
      var textures := r.value.textureSamplers;
      var run := FragRun(fres.file, assign, IsV10(fres), Some(texAttrDict), textures);
      forall k | k in r.value.fragSamplers ensures r.value.fragSamplers[k] in textures.Values {
        Tables.TableFrom(run.items, k);
        var i :| 0 <= i < |run.items| && run.items[i] == (k, r.value.fragSamplers[k]);
        Tables.PrefixMeaning(FragStep(fres.file, assign, IsV10(fres), Some(texAttrDict), textures),
                             GetNum(assign, NumTexAttrs).value);
        assert FragStep(fres.file, assign, IsV10(fres), Some(texAttrDict), textures)(i) == Ok(run.items[i]);
        FragMeaning(fres.file, assign, IsV10(fres), Some(texAttrDict), textures, i);
      }
    }
  }

  /** Every texture reference is stored under the name of its sampler, a
      node of the sampler dict; there are sampler_cnt sampler infos. */
  lemma TexturesNamed(fres: Fres, header: Record, assign: Record, texAttrDict: seq<string>, samplerDict: Option<seq<string>>)
    ensures var r := MaterialSamplers(fres, header, assign, texAttrDict, samplerDict);
      r.Ok? ==> && GetNum(header, SamplerCnt) == Ok(|r.value.samplerInfoList|)
                && forall k :: k in r.value.textureSamplers ==>
                     && r.value.textureSamplers[k].textureSampler == k
                     && samplerDict.Some? && k in samplerDict.value
  {
    var r := MaterialSamplers(fres, header, assign, texAttrDict, samplerDict);
    if r.Ok? {
      SamplerListLength(fres, header);
      var d := samplerDict;
      var run := TexRefRun(fres.file, header, d);
      forall k | k in r.value.textureSamplers
        ensures r.value.textureSamplers[k].textureSampler == k && d.Some? && k in d.value
      {
        Tables.TableFrom(run.items, k);
        var i :| 0 <= i < |run.items| && run.items[i] == (k, r.value.textureSamplers[k]);
        Tables.PrefixMeaning(TexRefStep(fres.file, header, d), GetNum(header, TexRefCnt).value);
        assert TexRefStep(fres.file, header, d)(i) == Ok(run.items[i]);
        TexRefMeaning(fres.file, header, d, i);
      }
    }
  }
}
