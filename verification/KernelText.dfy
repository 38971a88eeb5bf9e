/**
 The parameter table of a kernel, read from the text `cuobjdump` prints (`cpu_utils_read_pars`).

 A line "Attribute:" with a name decides how the next lines "Value:" are read. Other lines are
 passed over, and two blank lines in a row end the description of the kernel.
 */
module KernelText {
  import opened Attempts
  import opened Bytes
  import opened LaunchArguments
  import opened KernelParams
  import opened Scanning

  const NAMES: seq<string> := ["EIATTR_KPARAM_INFO", "EIATTR_CBANK_PARAM_SIZE", "EIATTR_PARAM_CBANK"]

  /** The states of the reader: an index into NAMES, or ATTR_T_LAST for any other attribute. */
  const KPARAM: nat := 0
  const PARAM_SIZE: nat := 1
  const PARAM_CBANK: nat := 2
  const ATTR_T_LAST: nat := 3

  /** Text before each of four conversions, of which the first is not stored. */
  function FourNumbers(first: string, second: string, third: string, fourth: string): Format {
    Text(first) + ([Hex(U16, false)] + (Text(second) + ([Hex(U16, true)] +
    (Text(third) + ([Hex(U16, true)] + (Text(fourth) + [Hex(U16, true), Space]))))))
  }

  function TwoNumbers(first: string, second: string): Format {
    Text(first) + ([Hex(U32, false)] + (Text(second) + [Hex(U64, true)]))
  }

  function OneNumber(first: string): Format {
    Text(first) + [Hex(U64, true)]
  }

  function ParameterFormat(): Format {
    FourNumbers("Index : 0x", " Ordinal : 0x", " Offset : 0x", " Size : 0x")
  }

  function SizeFormat(): Format {
    OneNumber("0x")
  }

  function BankFormat(): Format {
    TwoNumbers("0x", " 0x")
  }

  /* ---------- one line ---------- */

  datatype Line = Blank | KeyOnly(key: string) | KeyValue(key: string, value: string)

  /** `sscanf(line, "%31s %255c\n", key, val)`, and the last character of `val` removed. */
  function ScanLine(line: string): Line {
    var s := SkipSpace(line);
    if s == "" then Blank
    else
      var key := Word(s, 31);
      var rest := SkipSpace(s[|key|..]);
      if rest == "" then KeyOnly(key)
      else if |rest| <= 255 then KeyValue(key, rest[..|rest| - 1])
      else KeyValue(key, rest[..254])
  }

  function StateOf(name: string): nat {
    if name == NAMES[2] then 2 else if name == NAMES[1] then 1 else if name == NAMES[0] then 0 else ATTR_T_LAST
  }

  /** A line "Value:" in a state. */
  function ReadValue(state: nat, value: string, info: KernelInfo, added: Added): (r: Attempt<KernelInfo>)
    requires |info.offsets| == |info.sizes|
    ensures r.Ok? ==> |r.value.offsets| == |r.value.sizes|
  {
    if state == KPARAM then
      var v := Scan(ParameterFormat(), value);
      if |v| != 3 then Failed else Ok(Store(info, v[0], v[1], v[2], added))
    else if state == PARAM_SIZE then
      var v := Scan(SizeFormat(), value);
      if |v| != 1 then Failed else Ok(info.(paramSize := v[0]))
    else if state == PARAM_CBANK then
      if |Scan(BankFormat(), value)| != 1 then Failed else Ok(info)
    else Ok(info)
  }

  /** A line with a key and a value: the next state and the table. */
  function ReadKey(key: string, value: string, state: nat, info: KernelInfo, added: Added)
    : (r: Attempt<(nat, KernelInfo)>)
    requires |info.offsets| == |info.sizes|
    ensures r.Ok? ==> |r.value.1.offsets| == |r.value.1.sizes|
  {
    if key == "Attribute:" then Ok((StateOf(value), info))
    else if key == "Value:" then
      var now :- ReadValue(state, value, info, added);
      Ok((state, now))
    else Ok((state, info))
  }

  /* ---------- all lines ---------- */

  /** The reader on the lines that are left: the table, and the lines it does not take. */
  function ReadFrom(lines: seq<string>, state: nat, blanks: nat, info: KernelInfo, added: Added)
    : (r: Attempt<(KernelInfo, seq<string>)>)
    requires |info.offsets| == |info.sizes|
    ensures r.Ok? ==> |r.value.0.offsets| == |r.value.0.sizes|
  {
    if lines == [] then Ok((info, []))
    else
      match ScanLine(lines[0])
      case Blank =>
        if blanks + 1 >= 2 then Ok((info, lines[1..])) else ReadFrom(lines[1..], state, blanks + 1, info, added)
      case KeyOnly(_) => ReadFrom(lines[1..], state, 0, info, added)
      case KeyValue(key, value) =>
        var (next, now) :- ReadKey(key, value, state, info, added);
        ReadFrom(lines[1..], next, 0, now, added)
  }

  /** The lines a call leaves in the file are the result. The size of the area is not reset. */
  method ReadParameters(record: KernelRecord, lines: seq<string>, added: Added) returns (r: Attempt<seq<string>>)
    modifies record
    ensures match ReadFrom(lines, ATTR_T_LAST, 0, KernelInfo(old(record.paramSize), [], []), added)
      case Ok((info, rest)) => r == Ok(rest) && record.Valid() && record.Info() == info
      case Failed => r == Failed
      case Undefined => r == Undefined
  {
    hide Scan, ParameterFormat, SizeFormat, BankFormat, ScanLine, StateOf, Store;
    record.paramNum := 0;
    record.offsets, record.sizes := new nat[0], new nat[0];
    ghost var whole := ReadFrom(lines, ATTR_T_LAST, 0, KernelInfo(record.paramSize, [], []), added);
    assert record.Info() == KernelInfo(record.paramSize, [], []) && lines[0..] == lines;
    var state, blanks, n := ATTR_T_LAST, 0, 0;
    while n < |lines|
      invariant n <= |lines| && blanks < 2
      invariant record.Valid() && fresh(record.offsets) && fresh(record.sizes)
      invariant ReadFrom(lines[n..], state, blanks, record.Info(), added) == whole
      decreases |lines| - n
    {
      var line := ScanLine(lines[n]);
      assert lines[n..][0] == lines[n] && lines[n..][1..] == lines[n + 1..];
      n := n + 1;
      if line.Blank? {
        blanks := blanks + 1;
        if blanks >= 2 {
          return Ok(lines[n..]);
        }
        continue;
      }
      blanks := 0;
      if line.KeyOnly? {
        continue;
      }
      if line.key == "Attribute:" {
        state := FindState(line.value);
      } else if line.key == "Value:" {
        if state == KPARAM {
          var v := Scan(ParameterFormat(), line.value);
          if |v| != 3 {
            return Failed;
          }
          record.StoreParameter(v[0], v[1], v[2], added);
        } else if state == PARAM_SIZE {
          var v := Scan(SizeFormat(), line.value);
          if |v| != 1 {
            return Failed;
          }
          record.paramSize := v[0];
        } else if state == PARAM_CBANK {
          var v := Scan(BankFormat(), line.value);
          if |v| != 1 {
            return Failed;
          }
        }
      }
    }
    return Ok([]);
  }

  method FindState(name: string) returns (state: nat)
    ensures state == StateOf(name)
  {
    state := ATTR_T_LAST;
    for i := 0 to ATTR_T_LAST
      invariant state == if i > 2 && name == NAMES[2] then 2 else if i > 1 && name == NAMES[1] then 1
                         else if i > 0 && name == NAMES[0] then 0 else ATTR_T_LAST
    {
      if name == NAMES[i] {
        state := i;
      }
    }
  }
}
