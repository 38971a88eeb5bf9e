/**
 The parameter table of a kernel, read from the bytes of its `.nv.info` section
 (`get_parm_for_kernel`).

 The section is a list of entries. An entry has a format, an attribute code, and either two bytes
 of value, or the size of a value that follows. Two kinds of entry matter: one for each parameter,
 and one with the size of the parameter area.
 */
module KernelParams {
  import opened Attempts
  import opened Bytes
  import opened LaunchArguments

  const HVAL: Byte := 3
  const SVAL: Byte := 4
  const KPARAM_INFO: Byte := 0x17
  const CBANK_PARAM_SIZE: Byte := 0x19

  /* ---------- attribute lists ---------- */

  /**
   `rest` is the part of a parameter entry's last word below the 14 bits of the size. The values of
   another entry are the two bytes of its header, or in format SVAL the bytes that follow it.
   */
  datatype Attribute =
    | Parameter(index: nat, ordinal: nat, offset: nat, size: nat, rest: nat)
    | ParameterSize(size: nat)
    | Other(format: Byte, code: Byte, values: seq<Byte>)

  predicate ValidAttribute(a: Attribute) {
    match a
    case Parameter(index, ordinal, offset, size, rest) =>
      index < U32 && ordinal < U16 && offset < U16 && size < 0x4000 && rest < 0x4_0000
    case ParameterSize(size) => size < U16
    case Other(format, code, values) =>
      if format == SVAL then code != KPARAM_INFO && |values| < U16
      else !(format == HVAL && code == CBANK_PARAM_SIZE) && |values| == 2
  }

  predicate ValidList(l: seq<Attribute>) {
    forall a :: a in l ==> ValidAttribute(a)
  }

  function Encode(a: Attribute): (s: seq<Byte>)
    ensures |s| > 0
  {
    match a
    case Parameter(index, ordinal, offset, size, rest) =>
      [SVAL, KPARAM_INFO] + ToLE(12, 2) +
      (ToLE(index, 4) + ToLE(ordinal, 2) + ToLE(offset, 2) + ToLE(size * 0x4_0000 + rest, 4))
    case ParameterSize(size) => [HVAL, CBANK_PARAM_SIZE] + ToLE(size, 2)
    case Other(format, code, values) =>
      [format, code] + (if format == SVAL then ToLE(|values|, 2) + values else values)
  }

  function EncodeAll(l: seq<Attribute>): seq<Byte> {
    if l == [] then [] else Encode(l[0]) + EncodeAll(l[1..])
  }

  /* ---------- the table ---------- */

  /** What the memory holds that `realloc` adds to the two arrays of the table. */
  datatype Added = Added(offsets: nat -> nat, sizes: nat -> nat)

  function Grown(s: seq<nat>, n: nat, added: nat -> nat): (r: seq<nat>)
    requires |s| <= n
    ensures |r| == n
  {
    seq(n, i requires 0 <= i < n => if i < |s| then s[i] else added(i))
  }

  /** A parameter entry is stored: the table grows up to its ordinal if need be. */
  function Store(info: KernelInfo, ordinal: nat, offset: nat, size: nat, added: Added): (r: KernelInfo)
    requires |info.offsets| == |info.sizes|
    ensures |r.offsets| == |r.sizes|
  {
    var n := if ordinal >= |info.offsets| then ordinal + 1 else |info.offsets|;
    KernelInfo(info.paramSize, Grown(info.offsets, n, added.offsets)[ordinal := offset],
               Grown(info.sizes, n, added.sizes)[ordinal := size])
  }

  function Apply(a: Attribute, info: KernelInfo, added: Added): (r: KernelInfo)
    requires |info.offsets| == |info.sizes|
    ensures |r.offsets| == |r.sizes|
  {
    match a
    case Parameter(_, ordinal, offset, size, _) => Store(info, ordinal, offset, size, added)
    case ParameterSize(size) => info.(paramSize := size)
    case Other(_, _, _) => info
  }

  function ApplyAll(l: seq<Attribute>, info: KernelInfo, added: Added): (r: KernelInfo)
    requires |info.offsets| == |info.sizes|
    ensures |r.offsets| == |r.sizes|
  {
    if l == [] then info else ApplyAll(l[1..], Apply(l[0], info, added), added)
  }

  /* ---------- the parser ---------- */

  function Skip(data: seq<Byte>, n: nat): (s: seq<Byte>)
    ensures |s| == if n <= |data| then |data| - n else 0
  {
    if n <= |data| then data[n..] else []
  }

  /** The loop of `get_parm_for_kernel` on the rest of the section. */
  function Parse(data: seq<Byte>, info: KernelInfo, added: Added): (r: Attempt<KernelInfo>)
    requires |info.offsets| == |info.sizes|
    ensures r.Ok? ==> |r.value.offsets| == |r.value.sizes|
    decreases |data|
  {
    if data == [] then Ok(info)
    else if data[0] == SVAL then
      if |data| < 4 then Undefined
      else if data[1] == KPARAM_INFO then
        if Field(data, 2, 2) != 12 then Failed
        else if |data| < 16 then Undefined
        else Parse(data[16..],
                   Store(info, Field(data, 8, 2), Field(data, 10, 2), Field(data, 12, 4) / 0x4_0000, added), added)
      else Parse(Skip(data, 4 + Field(data, 2, 2)), info, added)
    else if data[0] == HVAL then
      if |data| < 2 then Undefined
      else if data[1] == CBANK_PARAM_SIZE then
        if |data| < 4 then Undefined
        else Parse(data[4..], info.(paramSize := Field(data, 2, 2)), added)
      else Parse(Skip(data, 4), info, added)
    else Parse(Skip(data, 4), info, added)
  }

  lemma SkipTwice(data: seq<Byte>, a: nat, b: nat)
    ensures Skip(Skip(data, a), b) == Skip(data, a + b)
  {
  }

  lemma SkipNothing(data: seq<Byte>)
    ensures Skip(data, 0) == data
  {
  }

  lemma SkippedField(data: seq<Byte>, pos: nat, at: nat, width: nat)
    requires pos + at + width <= |data|
    ensures Field(Skip(data, pos), at, width) == Field(data, pos + at, width)
  {
    assert Skip(data, pos)[at..at + width] == data[pos + at..pos + at + width];
  }

  /** The bytes at a position are those at the start of the rest. */
  lemma EntryAt(data: seq<Byte>, pos: nat)
    requires pos < |data|
    ensures var rest := Skip(data, pos);
            rest[0] == data[pos] && (pos + 1 < |data| ==> rest[1] == data[pos + 1]) &&
            (pos + 4 <= |data| ==> Field(rest, 2, 2) == Field(data, pos + 2, 2) && rest[4..] == Skip(data, pos + 4)) &&
            (pos + 16 <= |data| ==>
               rest[16..] == Skip(data, pos + 16) && Field(rest, 8, 2) == Field(data, pos + 8, 2) &&
               Field(rest, 10, 2) == Field(data, pos + 10, 2) && Field(rest, 12, 4) == Field(data, pos + 12, 4))
  {
    if pos + 4 <= |data| {
      SkippedField(data, pos, 2, 2);
    }
    if pos + 16 <= |data| {
      SkippedField(data, pos, 8, 2);
      SkippedField(data, pos, 10, 2);
      SkippedField(data, pos, 12, 4);
    }
  }

  /** The members of `kernel_info_t` that describe the parameters. */
  class KernelRecord {
    var paramSize: nat
    var paramNum: nat
    var offsets: array<nat>
    var sizes: array<nat>

    constructor ()
      ensures Valid() && fresh(offsets) && fresh(sizes)
      ensures paramNum == 0
    {
      paramSize, paramNum, offsets, sizes := 0, 0, new nat[0], new nat[0];
    }

    ghost predicate Valid()
      reads this
    {
      paramNum == offsets.Length == sizes.Length && offsets != sizes
    }

    ghost function Info(): (info: KernelInfo)
      requires Valid()
      reads this, offsets, sizes
      ensures |info.offsets| == |info.sizes| == paramNum
    {
      KernelInfo(paramSize, offsets[..], sizes[..])
    }

    static method Realloc(a: array<nat>, n: nat, added: nat -> nat) returns (b: array<nat>)
      requires a.Length <= n
      ensures fresh(b) && b[..] == Grown(a[..], n, added)
    {
      b := new nat[n](i requires 0 <= i < n reads a => if i < a.Length then a[i] else added(i));
    }

    /** The part both readers of parameter tables share: grow the arrays, then assign. */
    method StoreParameter(ordinal: nat, offset: nat, size: nat, added: Added)
      requires Valid()
      modifies this, offsets, sizes
      ensures Valid() && Info() == Store(old(Info()), ordinal, offset, size, added)
      ensures fresh(offsets) || offsets == old(offsets)
      ensures fresh(sizes) || sizes == old(sizes)
    {
      if ordinal >= paramNum {
        var o := Realloc(offsets, ordinal + 1, added.offsets);
        var s := Realloc(sizes, ordinal + 1, added.sizes);
        offsets, sizes, paramNum := o, s, ordinal + 1;
      }
      assert offsets[..] == Grown(old(offsets[..]), paramNum, added.offsets);
      assert sizes[..] == Grown(old(sizes[..]), paramNum, added.sizes);
      offsets[ordinal] := offset;
      sizes[ordinal] := size;
    }

    method GetParameters(data: seq<Byte>, added: Added) returns (r: Attempt<()>)
      modifies this
      ensures match Parse(data, KernelInfo(0, [], []), added)
        case Ok(info) => r == Ok(()) && Valid() && Info() == info
        case Failed => r == Failed
        case Undefined => r == Undefined
    {
      hide Field, Store, Skip;
      paramNum, paramSize := 0, 0;
      offsets, sizes := new nat[0], new nat[0];
      ghost var whole := Parse(data, KernelInfo(0, [], []), added);
      assert Info() == KernelInfo(0, [], []);
      SkipNothing(data);
      var secpos := 0;
      while secpos < |data|
        invariant Valid() && fresh(offsets) && fresh(sizes)
        invariant Parse(Skip(data, secpos), Info(), added) == whole
        decreases |data| - secpos
      {
        EntryAt(data, secpos);
        if data[secpos] == SVAL {
          if secpos + 4 > |data| {
            return Undefined;
          }
          var valuesSize := Field(data, secpos + 2, 2);
          if data[secpos + 1] == KPARAM_INFO {
            if valuesSize != 0xc {
              return Failed;
            }
            if secpos + 16 > |data| {
              return Undefined;
            }
            StoreParameter(Field(data, secpos + 8, 2), Field(data, secpos + 10, 2),
                           Field(data, secpos + 12, 4) / 0x4_0000, added);
          }
          SkipTwice(data, secpos, 4 + valuesSize);
          secpos := secpos + 4 + valuesSize;
        } else {
          if data[secpos] == HVAL {
            if secpos + 2 > |data| {
              return Undefined;
            }
            if data[secpos + 1] == CBANK_PARAM_SIZE {
              if secpos + 4 > |data| {
                return Undefined;
              }
              paramSize := Field(data, secpos + 2, 2);
            }
          }
          SkipTwice(data, secpos, 4);
          secpos := secpos + 4;
        }
      }
      return Ok(());
    }
  }
}
