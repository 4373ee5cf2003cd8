/** BinaryStruct's Flags: one unsigned integer read from the file and split
    into named bit fields, laid out from bit 0 upwards in the order of the
    layout. */
module Flags {
  import opened Bits
  import opened Outcome
  import Reader

  /** The struct format of the flag word. */
  datatype IntFormat = B | H | I | Q

  /** `struct.calcsize(fmt)`. */
  function CalcSize(fmt: IntFormat): (n: nat)
    ensures 1 <= n <= 8
  {
    match fmt
    case B => 1
    case H => 2
    case I => 4
    case Q => 8
  }

  /** A layout entry: a plain bit length, or the `(length, func)` form whose
      bits go through a conversion that may raise. */
  datatype Field<V> = Field(name: string, length: nat, convert: Option<nat -> Result<V>>)

  /** A value of the unpacked dict: the bits themselves, or what the
      conversion made of them. */
  datatype Value<V> = Number(n: nat) | Converted(v: V)

  /** `name[:8] == "RESERVED"`. */
  predicate Reserved(name: string)
  {
    (if |name| >= 8 then name[..8] else name) == "RESERVED"
  }

  /** The bit offset of entry i: the sum of the lengths of all earlier
      entries, reserved ones included. */
  function Offset<V>(fields: seq<Field<V>>, i: nat): nat
    requires i <= |fields|
  {
    if i == 0 then 0 else Offset(fields, i - 1) + fields[i - 1].length
  }

  /** `(val & (((1 << length) - 1) << offs)) >> offs`: bits offs ..
      offs + length - 1 of val. */
  function Extract(val: nat, offs: nat, length: nat): (v: nat)
    ensures v == Shr(val, offs) % Pow2(length)
    ensures v < Pow2(length)
  {
    AndShiftedMask(val, length, offs);
    MulDiv(Shr(val, offs) % Pow2(length), Pow2(offs));
    Shr(And(val, Shl(Pow2(length) - 1, offs)), offs)
  }

  lemma MulDiv(x: nat, p: nat)
    requires p >= 1
    ensures (x * p) / p == x
  {
    DivModUnique(x * p, p, x, 0);
  }

  /** The value of one entry at bit offset offs. */
  function FieldValue<V>(fl: Field<V>, val: nat, offs: nat): Result<Value<V>>
  {
    var bits := Extract(val, offs, fl.length);
    match fl.convert
    case None => Ok(Number(bits))
    case Some(convert) =>
      var v := convert(bits);
      if v.Ok? then Ok(Converted(v.value)) else Err(v.error)
  }

  /** The dict readFromFile builds from the word val after the first n
      entries: `_raw`, then every entry that is not reserved. */
  function Unpack<V>(fields: seq<Field<V>>, val: nat, n: nat): Result<map<string, Value<V>>>
    requires n <= |fields|
  {
    if n == 0 then Ok(map["_raw" := Number(val)])
    else
      var prev := Unpack(fields, val, n - 1);
      var fl := fields[n - 1];
      if prev.Err? || Reserved(fl.name) then prev
      else
        var v := FieldValue(fl, val, Offset(fields, n - 1));
        if v.Err? then Err(v.error) else Ok(prev.value[fl.name := v.value])
  }

  /** The unpacking succeeds exactly when every conversion of a non-reserved
      entry does. */
  lemma {:induction false} UnpackOk<V>(fields: seq<Field<V>>, val: nat, n: nat)
    requires n <= |fields|
    ensures Unpack(fields, val, n).Ok? <==>
              forall i :: 0 <= i < n && !Reserved(fields[i].name) ==> FieldValue(fields[i], val, Offset(fields, i)).Ok?
  {
    if n > 0 {
      UnpackOk(fields, val, n - 1);
      var fl := fields[n - 1];
      if Unpack(fields, val, n - 1).Err? {
        UnpackStops(fields, val, n - 1, n);
        var j :| 0 <= j < n - 1 && !Reserved(fields[j].name) && !FieldValue(fields[j], val, Offset(fields, j)).Ok?;
      } else {
        UnpackNext(fields, val, n - 1);
        if !Reserved(fl.name) && !FieldValue(fl, val, Offset(fields, n - 1)).Ok? {
          assert Unpack(fields, val, n).Err?;
        } else {
          assert Unpack(fields, val, n).Ok?;
          forall i | 0 <= i < n && !Reserved(fields[i].name)
            ensures FieldValue(fields[i], val, Offset(fields, i)).Ok?
          {
          }
        }
      }
    }
  }

  /** An entry whose conversion, if any, accepts every value of its width. */
  predicate Total<V>(fl: Field<V>)
  {
    fl.convert.Some? ==> forall v: nat :: v < Pow2(fl.length) ==> fl.convert.value(v).Ok?
  }

  /** A layout of total entries unpacks every word. */
  lemma UnpackTotal<V>(fields: seq<Field<V>>, val: nat, n: nat)
    requires n <= |fields| && forall i :: 0 <= i < |fields| ==> Total(fields[i])
    ensures Unpack(fields, val, n).Ok?
  {
    UnpackOk(fields, val, n);
    forall i | 0 <= i < n && !Reserved(fields[i].name)
      ensures FieldValue(fields[i], val, Offset(fields, i)).Ok?
    {
      assert Total(fields[i]);
    }
  }

  /** The keys of a successful unpacking are `_raw` and the names of the
      non-reserved entries: no reserved name ever appears. */
  lemma {:induction false} UnpackKeys<V>(fields: seq<Field<V>>, val: nat, n: nat)
    requires n <= |fields| && Unpack(fields, val, n).Ok?
    ensures forall k :: k in Unpack(fields, val, n).value <==>
              k == "_raw" || exists i :: 0 <= i < n && !Reserved(fields[i].name) && fields[i].name == k
  {
    UnpackKeySet(fields, val, n);
    KeySetMembers(fields, n);
  }

  /** `_raw` and the names of the non-reserved entries among the first n. */
  ghost function KeySet<V>(fields: seq<Field<V>>, n: nat): set<string>
    requires n <= |fields|
  {
    if n == 0 then {"_raw"}
    else KeySet(fields, n - 1) + (if Reserved(fields[n - 1].name) then {} else {fields[n - 1].name})
  }

  /** The keys of a successful unpacking after n entries are KeySet(fields, n). */
  lemma {:induction false} UnpackKeySet<V>(fields: seq<Field<V>>, val: nat, n: nat)
    requires n <= |fields| && Unpack(fields, val, n).Ok?
    ensures Unpack(fields, val, n).value.Keys == KeySet(fields, n)
  {
    if n > 0 {
      assert Unpack(fields, val, n - 1).Ok?;
      UnpackKeySet(fields, val, n - 1);
      UnpackNext(fields, val, n - 1);
    }
  }

  /** KeySet holds `_raw` and exactly the names of non-reserved entries. */
  lemma {:induction false} KeySetMembers<V>(fields: seq<Field<V>>, n: nat)
    requires n <= |fields|
    ensures forall k :: k in KeySet(fields, n) <==>
              k == "_raw" || exists i :: 0 <= i < n && !Reserved(fields[i].name) && fields[i].name == k
  {
    if n > 0 {
      KeySetMembers(fields, n - 1);
      forall k ensures k in KeySet(fields, n) <==>
                       k == "_raw" || exists i :: 0 <= i < n && !Reserved(fields[i].name) && fields[i].name == k {
        if k in KeySet(fields, n) && k != "_raw" && k !in KeySet(fields, n - 1) {
          assert !Reserved(fields[n - 1].name) && fields[n - 1].name == k;
        }
        if exists i :: 0 <= i < n && !Reserved(fields[i].name) && fields[i].name == k {
          var i :| 0 <= i < n && !Reserved(fields[i].name) && fields[i].name == k;
          if i < n - 1 {
            assert k in KeySet(fields, n - 1);
          }
        }
      }
    }
  }

  /** One more entry of an unpacking that has not raised. */
  lemma UnpackNext<V>(fields: seq<Field<V>>, val: nat, i: nat)
    requires i < |fields| && Unpack(fields, val, i).Ok?
    ensures var fl := fields[i];
      Unpack(fields, val, i + 1) ==
        if Reserved(fl.name) then Unpack(fields, val, i)
        else match FieldValue(fl, val, Offset(fields, i))
          case Ok(v) => Ok(Unpack(fields, val, i).value[fl.name := v])
          case Err(e) => Err(e)
  {
  }

  /** After a conversion has raised, the later entries change nothing. */
  lemma {:induction false} UnpackStops<V>(fields: seq<Field<V>>, val: nat, i: nat, n: nat)
    requires i <= n <= |fields| && Unpack(fields, val, i).Err?
    ensures Unpack(fields, val, n) == Unpack(fields, val, i)
    decreases n - i
  {
    if n > i {
      UnpackStops(fields, val, i, n - 1);
    }
  }

  /** Every entry name of the layout differs from the later ones (the
      layout is a Python dict). */
  predicate Distinct<V>(fields: seq<Field<V>>)
  {
    forall i, j :: 0 <= i < j < |fields| ==> fields[i].name != fields[j].name
  }

  /** Two layouts without a name in common make a distinct concatenation. */
  lemma DistinctAppend<V>(a: seq<Field<V>>, b: seq<Field<V>>)
    requires Distinct(a) && Distinct(b)
    requires forall i, j :: 0 <= i < |a| && 0 <= j < |b| ==> a[i].name != b[j].name
    ensures Distinct(a + b)
  {
  }

  /** A non-reserved entry whose name no later entry has gets its bits,
      converted when it has a conversion. */
  lemma {:induction false} UnpackField<V>(fields: seq<Field<V>>, val: nat, n: nat, i: nat)
    requires i < n <= |fields| && !Reserved(fields[i].name)
    requires forall j :: i < j < n ==> fields[j].name != fields[i].name
    requires Unpack(fields, val, n).Ok?
    ensures fields[i].name in Unpack(fields, val, n).value
    ensures (UnpackOk(fields, val, n);
             FieldValue(fields[i], val, Offset(fields, i)).Ok? &&
             Unpack(fields, val, n).value[fields[i].name] == FieldValue(fields[i], val, Offset(fields, i)).value)
  {
    if i < n - 1 {
      UnpackField(fields, val, n - 1, i);
    }
  }

  /** `_raw` holds the unmodified word unless an entry is named `_raw`. */
  lemma {:induction false} UnpackRaw<V>(fields: seq<Field<V>>, val: nat, n: nat)
    requires n <= |fields| && Unpack(fields, val, n).Ok?
    requires forall i :: 0 <= i < n ==> fields[i].name != "_raw"
    ensures "_raw" in Unpack(fields, val, n).value && Unpack(fields, val, n).value["_raw"] == Number(val)
  {
    if n > 0 {
      assert Unpack(fields, val, n - 1).Ok?;
      UnpackRaw(fields, val, n - 1);
      var prev := Unpack(fields, val, n - 1).value;
      var fl := fields[n - 1];
      assert fl.name != "_raw";
      assert Unpack(fields, val, n).value == prev ||
             Unpack(fields, val, n).value == prev[fl.name := FieldValue(fl, val, Offset(fields, n - 1)).value];
    }
  }

  class Flags<V> {
    var name: string
    var flags: seq<Field<V>>
    var fmt: IntFormat
    var size: nat

    /** `Flags(name, flags, fmt)`; `size` is `struct.calcsize(fmt)`. */
    constructor(name: string, flags: seq<Field<V>>, fmt: IntFormat)
      ensures this.name == name && this.flags == flags && this.fmt == fmt && size == CalcSize(fmt)
    {
      this.name, this.flags, this.fmt := name, flags, fmt;
      size := CalcSize(fmt);
    }

    /** readFromFile at an explicit offset: the word, split by the layout. */
    method ReadFromFile(f: Reader.File, offset: nat) returns (r: Result<map<string, Value<V>>>)
      ensures offset + CalcSize(fmt) > |f.bytes| ==> r == Err(OutOfBounds(offset))
      ensures offset + CalcSize(fmt) <= |f.bytes| ==>
                r == Unpack(flags, LeUint(f.bytes, offset, CalcSize(fmt)), |flags|)
    {
      var val := Reader.ReadUint(f, offset, CalcSize(fmt));
      if val.Err? {
        return Err(val.error);
      }
      var res := map["_raw" := Number(val.value)];
      var offs := 0;
      var i := 0;
      while i < |flags|
        invariant i <= |flags| && offs == Offset(flags, i)
        invariant Unpack(flags, val.value, i) == Ok(res)
      {
        var fl := flags[i];
        var head := if |fl.name| >= 8 then fl.name[..8] else fl.name;
        UnpackNext(flags, val.value, i);
        if head != "RESERVED" {
          var bits := Extract(val.value, offs, fl.length);
          match fl.convert {
            case None =>
              res := res[fl.name := Number(bits)];
            case Some(convert) =>
              var v := convert(bits);
              if v.Err? {
                UnpackStops(flags, val.value, i + 1, |flags|);
                return Err(v.error);
              }
              res := res[fl.name := Converted(v.value)];
          }
        }
        offs := offs + fl.length;
        i := i + 1;
      }
      return Ok(res);
    }
  }
}
