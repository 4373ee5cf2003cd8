/** A bone of an FSKL skeleton: the two on-disk layouts of its flag word
    (before and from version 0.10 of the format) and the copy of the
    decoded record into the bone. */
module Bone {
  import opened Bits
  import opened Outcome
  import Flags

  /** `Bone.BillboardMode`, an IntEnum. */
  datatype BillboardMode = BB_None | Child | World_Vec | World_Point | Screen_Vec | Screen_Point | Y_Vec | Y_Point

  /** The integer value of a billboard mode. */
  function ModeValue(m: BillboardMode): (v: nat)
    ensures v < 8
  {
    match m
    case BB_None => 0
    case Child => 1
    case World_Vec => 2
    case World_Point => 3
    case Screen_Vec => 4
    case Screen_Point => 5
    case Y_Vec => 6
    case Y_Point => 7
  }

  /** `Bone.BillboardMode(v)`: the member of value v, or ValueError. */
  function ModeOf(v: nat): (r: Result<BillboardMode>)
    ensures r.Ok? <==> v < 8
    ensures r.Ok? ==> ModeValue(r.value) == v
    ensures r.Err? ==> r.error == BadEnumValue(v)
  {
    if v == 0 then Ok(BB_None)
    else if v == 1 then Ok(Child)
    else if v == 2 then Ok(World_Vec)
    else if v == 3 then Ok(World_Point)
    else if v == 4 then Ok(Screen_Vec)
    else if v == 5 then Ok(Screen_Point)
    else if v == 6 then Ok(Y_Vec)
    else if v == 7 then Ok(Y_Point)
    else Err(BadEnumValue(v))
  }

  /** Every member is what its own value converts back to. */
  lemma ModeRoundTrip(m: BillboardMode)
    ensures ModeOf(ModeValue(m)) == Ok(m)
  {
  }

  type Layout = seq<Flags.Field<BillboardMode>>

  /** A one-bit entry. */
  function Flag(name: string): Flags.Field<BillboardMode>
  {
    Flags.Field(name, 1, None)
  }

  /** The nine one-bit fields that end both layouts. */
  const ScaleFlags: seq<string> :=
    ["SEG_SCALE_COMPENSATE", "UNIFORM_SCALE", "SCALE_VOL_1", "NO_ROTATION", "NO_TRANSLATION",
     "GRP_UNIFORM_SCALE", "GRP_SCALE_VOL_1", "GRP_NO_ROTATION", "GRP_NO_TRANSLATION"]

  /** Those nine as one-bit entries. */
  function ScaleTail(): Layout
  {
    seq(|ScaleFlags|, k requires 0 <= k < |ScaleFlags| => Flag(ScaleFlags[k]))
  }

  /** The entries of BoneStruct before the nine. */
  function Head0(): Layout
  {
    [Flag("VISIBLE"), Flags.Field("RESERVED0", 11, None), Flag("EULER"), Flags.Field("RESERVED1", 3, None),
     Flags.Field("BB_MODE", 3, Some(ModeOf)), Flags.Field("RESERVED2", 4, None)]
  }

  /** The entries of BoneStruct10 before the nine. */
  function Head10(): Layout
  {
    [Flags.Field("RESERVED0", 12, None), Flag("VISIBLE"), Flags.Field("RESERVED1", 3, None),
     Flags.Field("BB_MODE", 3, Some(ModeOf)), Flags.Field("RESERVED2", 4, None)]
  }

  /** The flags of BoneStruct. */
  function Layout0(): Layout
  {
    Head0() + ScaleTail()
  }

  /** The flags of BoneStruct10. */
  function Layout10(): Layout
  {
    Head10() + ScaleTail()
  }

  /** Offsets given as a table of running sums are the layout's offsets. */
  lemma {:induction false} OffsetsAre(fields: Layout, offs: seq<nat>, n: nat)
    requires |offs| == |fields| + 1 && offs[0] == 0 && n <= |fields|
    requires forall i :: 0 <= i < |fields| ==> offs[i + 1] == offs[i] + fields[i].length
    ensures Flags.Offset(fields, n) == offs[n]
  {
    if n > 0 {
      OffsetsAre(fields, offs, n - 1);
    }
  }

  const Offsets0: seq<nat> := [0, 1, 12, 13, 16, 19, 23, 24, 25, 26, 27, 28, 29, 30, 31, 32]
  const Offsets10: seq<nat> := [0, 12, 13, 16, 19, 23, 24, 25, 26, 27, 28, 29, 30, 31, 32]

  lemma Offsets0Are(n: nat)
    requires n <= |Layout0()|
    ensures Flags.Offset(Layout0(), n) == Offsets0[n]
  {
    OffsetsAre(Layout0(), Offsets0, n);
  }

  lemma Offsets10Are(n: nat)
    requires n <= |Layout10()|
    ensures Flags.Offset(Layout10(), n) == Offsets10[n]
  {
    OffsetsAre(Layout10(), Offsets10, n);
  }

  /** Both layouts cover exactly the 32 bits of the flag word. */
  lemma Widths()
    ensures Flags.Offset(Layout0(), |Layout0()|) == 32
    ensures Flags.Offset(Layout10(), |Layout10()|) == 32
  {
    Offsets0Are(|Layout0()|);
    Offsets10Are(|Layout10()|);
  }

  /** No name occurs twice in a layout. */
  lemma NamesDistinct()
    ensures Flags.Distinct(Layout0()) && Flags.Distinct(Layout10())
  {
    TailDistinct();
    HeadsDistinct();
    Flags.DistinctAppend(Head0(), ScaleTail());
    Flags.DistinctAppend(Head10(), ScaleTail());
  }

  lemma TailDistinct()
    ensures Flags.Distinct(ScaleTail())
  {
    forall i, j | 0 <= i < j < |ScaleFlags|
      ensures ScaleFlags[i] != ScaleFlags[j]
    {
      if |ScaleFlags[i]| == |ScaleFlags[j]| {
        assert ScaleFlags[i][4] != ScaleFlags[j][4] || ScaleFlags[i][0] != ScaleFlags[j][0];
      }
    }
  }

  /** The names of the leading entries are all shorter than the nine. */
  lemma HeadsDistinct()
    ensures Flags.Distinct(Head0()) && Flags.Distinct(Head10())
    ensures forall i, j :: 0 <= i < |Head0()| && 0 <= j < |ScaleTail()| ==> Head0()[i].name != ScaleTail()[j].name
    ensures forall i, j :: 0 <= i < |Head10()| && 0 <= j < |ScaleTail()| ==> Head10()[i].name != ScaleTail()[j].name
  {
    forall i, j | 0 <= i < |Head0()| && 0 <= j < |ScaleTail()|
      ensures Head0()[i].name != ScaleTail()[j].name
    {
      assert |Head0()[i].name| < 11 <= |ScaleTail()[j].name|;
    }
    forall i, j | 0 <= i < |Head10()| && 0 <= j < |ScaleTail()|
      ensures Head10()[i].name != ScaleTail()[j].name
    {
      assert |Head10()[i].name| < 11 <= |ScaleTail()[j].name|;
    }
  }

  /** The only conversion, BB_MODE's, accepts every 3-bit value: all 8 of
      them name a billboard mode. */
  lemma LayoutsTotal()
    ensures forall i :: 0 <= i < |Layout0()| ==> Flags.Total(Layout0()[i])
    ensures forall i :: 0 <= i < |Layout10()| ==> Flags.Total(Layout10()[i])
  {
    assert Pow2(3) == 8;
  }

  /** Unpacking either layout never raises. */
  lemma Decodes(val: nat)
    ensures Flags.Unpack(Layout0(), val, |Layout0()|).Ok?
    ensures Flags.Unpack(Layout10(), val, |Layout10()|).Ok?
  {
    LayoutsTotal();
    Flags.UnpackTotal(Layout0(), val, |Layout0()|);
    Flags.UnpackTotal(Layout10(), val, |Layout10()|);
  }

  /** The flags dict of a BoneStruct flag word. */
  function Unpacked0(val: nat): map<string, Flags.Value<BillboardMode>>
  {
    Decodes(val);
    Flags.Unpack(Layout0(), val, |Layout0()|).value
  }

  /** The flags dict of a BoneStruct10 flag word. */
  function Unpacked10(val: nat): map<string, Flags.Value<BillboardMode>>
  {
    Decodes(val);
    Flags.Unpack(Layout10(), val, |Layout10()|).value
  }

  /** A non-reserved entry of BoneStruct's layout appears in the dict with
      the value of its own bits. */
  lemma Entry0(val: nat, i: nat)
    requires i < |Layout0()| && !Flags.Reserved(Layout0()[i].name)
    ensures Layout0()[i].name in Unpacked0(val)
    ensures Flags.FieldValue(Layout0()[i], val, Offsets0[i]).Ok?
    ensures Unpacked0(val)[Layout0()[i].name] == Flags.FieldValue(Layout0()[i], val, Offsets0[i]).value
  {
    Decodes(val);
    NamesDistinct();
    Offsets0Are(i);
    Flags.UnpackField(Layout0(), val, |Layout0()|, i);
  }

  /** The same for BoneStruct10's layout. */
  lemma Entry10(val: nat, i: nat)
    requires i < |Layout10()| && !Flags.Reserved(Layout10()[i].name)
    ensures Layout10()[i].name in Unpacked10(val)
    ensures Flags.FieldValue(Layout10()[i], val, Offsets10[i]).Ok?
    ensures Unpacked10(val)[Layout10()[i].name] == Flags.FieldValue(Layout10()[i], val, Offsets10[i]).value
  {
    Decodes(val);
    NamesDistinct();
    Offsets10Are(i);
    Flags.UnpackField(Layout10(), val, |Layout10()|, i);
  }

  /** A one-bit entry holds the bit at its offset. */
  lemma FlagBit(name: string, val: nat, offs: nat)
    ensures Flags.FieldValue(Flag(name), val, offs) == Ok(Flags.Number(Bit(val, offs)))
  {
    assert Pow2(1) == 2;
  }

  /** VISIBLE is bit 0 of the word before version 0.10 and bit 12 from it. */
  lemma Visible(val: nat)
    ensures "VISIBLE" in Unpacked0(val) && Unpacked0(val)["VISIBLE"] == Flags.Number(Bit(val, 0))
    ensures "VISIBLE" in Unpacked10(val) && Unpacked10(val)["VISIBLE"] == Flags.Number(Bit(val, 12))
  {
    Entry0(val, 0);
    FlagBit("VISIBLE", val, 0);
    Entry10(val, 1);
    FlagBit("VISIBLE", val, 12);
  }

  /** EULER is bit 12 of the word before version 0.10 ... */
  lemma Euler(val: nat)
    ensures "EULER" in Unpacked0(val) && Unpacked0(val)["EULER"] == Flags.Number(Bit(val, 12))
  {
    Entry0(val, 2);
    FlagBit("EULER", val, 12);
  }

  /** ... and has no entry from it: that dict has no EULER key at all. */
  lemma NoEuler(val: nat)
    ensures "EULER" !in Unpacked10(val)
  {
    Decodes(val);
    NoEuler10();
    Flags.UnpackKeys(Layout10(), val, |Layout10()|);
  }

  lemma NoEuler10()
    ensures forall i :: 0 <= i < |Layout10()| ==> Layout10()[i].name != "EULER"
  {
  }

  lemma NoRawName()
    ensures forall i :: 0 <= i < |Layout0()| ==> Layout0()[i].name != "_raw"
    ensures forall i :: 0 <= i < |Layout10()| ==> Layout10()[i].name != "_raw"
  {
    NamesLong();
  }

  /** Every entry name has at least five characters. */
  lemma NamesLong()
    ensures forall i :: 0 <= i < |Layout0()| ==> |Layout0()[i].name| >= 5
    ensures forall i :: 0 <= i < |Layout10()| ==> |Layout10()[i].name| >= 5
  {
    forall i | 0 <= i < |Layout0()| ensures |Layout0()[i].name| >= 5 {
      if i >= |Head0()| {
        assert Layout0()[i] == ScaleTail()[i - |Head0()|];
      }
    }
    forall i | 0 <= i < |Layout10()| ensures |Layout10()[i].name| >= 5 {
      if i >= |Head10()| {
        assert Layout10()[i] == ScaleTail()[i - |Head10()|];
      }
    }
  }

  /** BB_MODE is bits 16 to 18 in both layouts, converted to the billboard
      mode of that value. */
  lemma BbMode(val: nat)
    ensures "BB_MODE" in Unpacked0(val) && Unpacked0(val)["BB_MODE"].Converted?
    ensures ModeValue(Unpacked0(val)["BB_MODE"].v) == Shr(val, 16) % 8
    ensures "BB_MODE" in Unpacked10(val) && Unpacked10(val)["BB_MODE"].Converted?
    ensures ModeValue(Unpacked10(val)["BB_MODE"].v) == Shr(val, 16) % 8
  {
    ModeField(val, 16);
    assert Layout0()[4] == Layout10()[3] == Flags.Field("BB_MODE", 3, Some(ModeOf));
    assert Offsets0[4] == Offsets10[3] == 16;
    Entry0(val, 4);
    Entry10(val, 3);
  }

  /** The BB_MODE entry at offs converts its three bits. */
  lemma ModeField(val: nat, offs: nat)
    ensures var r := Flags.FieldValue(Flags.Field("BB_MODE", 3, Some(ModeOf)), val, offs);
      r.Ok? && r.value.Converted? && ModeValue(r.value.v) == Shr(val, offs) % 8
  {
    assert Pow2(3) == 8;
  }

  /** The nine scale and hierarchy flags are bits 23 to 31, in the same
      order, in both layouts. */
  lemma ScaleFlag(val: nat, k: nat)
    requires k < |ScaleFlags|
    ensures ScaleFlags[k] in Unpacked0(val) && Unpacked0(val)[ScaleFlags[k]] == Flags.Number(Bit(val, 23 + k))
    ensures ScaleFlags[k] in Unpacked10(val) && Unpacked10(val)[ScaleFlags[k]] == Flags.Number(Bit(val, 23 + k))
  {
    ScaleOffsets(k);
    Entry0(val, 6 + k);
    Entry10(val, 5 + k);
    FlagBit(ScaleFlags[k], val, 23 + k);
  }

  lemma ScaleOffsets(k: nat)
    requires k < |ScaleFlags|
    ensures Layout0()[6 + k] == Flag(ScaleFlags[k]) && Offsets0[6 + k] == 23 + k
    ensures Layout10()[5 + k] == Flag(ScaleFlags[k]) && Offsets10[5 + k] == 23 + k
  {
  }

  /** `_raw` keeps the whole flag word in both layouts. */
  lemma RawWord(val: nat)
    ensures "_raw" in Unpacked0(val) && Unpacked0(val)["_raw"] == Flags.Number(val)
    ensures "_raw" in Unpacked10(val) && Unpacked10(val)["_raw"] == Flags.Number(val)
  {
    RawWord0(val);
    RawWord10(val);
  }

  /** BoneStruct's half of RawWord. */
  lemma RawWord0(val: nat)
    ensures "_raw" in Unpacked0(val) && Unpacked0(val)["_raw"] == Flags.Number(val)
  {
    Decodes(val);
    NoRawName();
    Flags.UnpackRaw(Layout0(), val, |Layout0()|);
  }

  /** BoneStruct10's half of RawWord. */
  lemma RawWord10(val: nat)
    ensures "_raw" in Unpacked10(val) && Unpacked10(val)["_raw"] == Flags.Number(val)
  {
    Decodes(val);
    NoRawName();
    Flags.UnpackRaw(Layout10(), val, |Layout10()|);
  }

  /** The two record layouts a bone is read with. */
  datatype StructKind = BoneStruct | BoneStruct10

  /** Version 0.10 of the FRES format reads BoneStruct10; every other
      version reads BoneStruct. */
  function StructFor(version: (nat, nat)): (k: StructKind)
    ensures k == BoneStruct10 <==> version == (0, 10)
  {
    if version == (0, 10) then BoneStruct10 else BoneStruct
  }

  /** The flags dict the record layout decodes from its flag word. */
  function FlagsOf(k: StructKind, word: nat): map<string, Flags.Value<BillboardMode>>
  {
    match k
    case BoneStruct => Unpacked0(word)
    case BoneStruct10 => Unpacked10(word)
  }

  /** Whatever the version, a bone's flags hold VISIBLE, BB_MODE and the
      whole word; VISIBLE moves from bit 0 to bit 12 at version 0.10. */
  lemma VersionFlags(version: (nat, nat), word: nat)
    ensures var d := FlagsOf(StructFor(version), word);
      && "VISIBLE" in d && d["VISIBLE"] == Flags.Number(Bit(word, if version == (0, 10) then 12 else 0))
      && "BB_MODE" in d && d["BB_MODE"].Converted? && ModeValue(d["BB_MODE"].v) == Shr(word, 16) % 8
      && "_raw" in d && d["_raw"] == Flags.Number(word)
      && ("EULER" in d <==> version != (0, 10))
  {
    Visible(word);
    BbMode(word);
    RawWord(word);
    Euler(word);
    NoEuler(word);
  }

  /** The fields of a decoded bone record; the vectors are the bit patterns
      of their 32-bit floats. */
  datatype BoneRecord = BoneRecord(
    name: string, pos: seq<bv32>, rot: seq<bv32>, scale: seq<bv32>,
    boneIdx: nat, parentIdx: int, smoothMtxIdx: int, rigidMtxIdx: int, billboardIdx: int,
    udataCount: nat, flagWord: nat)

  /** The FRES file as a bone reads it: the version in its header and its
      record decoder (`fres.read` of a bone struct at an offset). */
  datatype BoneFile = BoneFile(version: (nat, nat), read: (StructKind, nat) -> Result<BoneRecord>)

  /** A bone of a skeleton. */
  class Bone {
    const fres: BoneFile
    var offset: Option<nat>
    var parent: Option<Bone>
    var name: string
    var pos: seq<bv32>
    var rot: seq<bv32>
    var scale: seq<bv32>
    var boneIdx: nat
    var parentIdx: int
    var smoothMtxIdx: int
    var rigidMtxIdx: int
    var billboardIdx: int
    var udataCount: nat
    var flags: map<string, Flags.Value<BillboardMode>>

    constructor(fres: BoneFile)
      ensures this.fres == fres && offset == None && parent == None
    {
      this.fres := fres;
      offset := None;
      parent := None;
      name := "";
      pos, rot, scale := [], [], [];
      boneIdx, parentIdx, smoothMtxIdx, rigidMtxIdx, billboardIdx, udataCount := 0, 0, 0, 0, 0, 0;
      flags := map[];
    }

    /** The bone holds the fields of record d, its flags decoded with
        layout k. */
    predicate Holds(d: BoneRecord, k: StructKind)
      reads this
    {
      && name == d.name && pos == d.pos && rot == d.rot && scale == d.scale
      && boneIdx == d.boneIdx && parentIdx == d.parentIdx && smoothMtxIdx == d.smoothMtxIdx
      && rigidMtxIdx == d.rigidMtxIdx && billboardIdx == d.billboardIdx && udataCount == d.udataCount
      && flags == FlagsOf(k, d.flagWord)
    }

    /** `readFromFRES`: decode the record of the file's version at offset
        and copy its fields. */
    method ReadFromFres(offset: nat) returns (r: Result<()>)
      modifies this
      ensures this.offset == Some(offset) && parent == old(parent)
      ensures var d := fres.read(StructFor(fres.version), offset);
        && (r.Ok? <==> d.Ok?)
        && (r.Err? ==> r.error == d.error)
        && (r.Err? ==> unchanged(this`name, this`pos, this`rot, this`scale, this`boneIdx, this`parentIdx,
                                 this`smoothMtxIdx, this`rigidMtxIdx, this`billboardIdx, this`udataCount, this`flags))
        && (r.Ok? ==> Holds(d.value, StructFor(fres.version)))
    {
      this.offset := Some(offset);
      var kind := if fres.version == (0, 10) then BoneStruct10 else BoneStruct;
      var data := fres.read(kind, offset);
      if data.Err? {
        return Err(data.error);
      }
      Copy(data.value, kind);
      r := Ok(());
    }

    /** Copy the fields of d, decoding its flag word with layout k. */
    method Copy(d: BoneRecord, k: StructKind)
      modifies this`name, this`pos, this`rot, this`scale, this`boneIdx, this`parentIdx,
               this`smoothMtxIdx, this`rigidMtxIdx, this`billboardIdx, this`udataCount, this`flags
      ensures Holds(d, k)
    {
      name := d.name;
      pos := d.pos;
      rot := d.rot;
      scale := d.scale;
      boneIdx := d.boneIdx;
      parentIdx := d.parentIdx;
      smoothMtxIdx := d.smoothMtxIdx;
      rigidMtxIdx := d.rigidMtxIdx;
      billboardIdx := d.billboardIdx;
      udataCount := d.udataCount;
      flags := FlagsOf(k, d.flagWord);
    }
  }
}
