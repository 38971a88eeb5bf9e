/**
 The API log on disk: `cr_dump` writes the records one after the other, `cr_restore` reads them back
 into the log. A record is `function`, `arg_size`, the arguments, `result`, `data_size`, the data.
 */
module ApiLog {
  import opened Bytes
  import opened GrowableList

  const RESULT_SIZE: nat := 16
  const FUNCTION_SIZE: nat := 4

  /** A pointer to a block of memory, or NULL. */
  datatype Block = Null | Block(bytes: seq<Byte>)

  /** `api_record_t`. The union `result` is its sixteen bytes. */
  datatype Record = Record(function_: nat, argSize: nat, arguments: seq<Byte>,
                           result: seq<Byte>, dataSize: nat, data: Block)

  /** What the `RECORD_*` macros build: sizes that fit their fields and tell the size of the blocks. */
  predicate Recorded(r: Record) {
    r.function_ < U32 && r.argSize == |r.arguments| < U64 && |r.result| == RESULT_SIZE && r.dataSize < U64 &&
    match r.data
    case Null => r.dataSize == 0
    case Block(bytes) => r.dataSize == |bytes|
  }

  /** A block of no bytes comes back as NULL. */
  function Normal(r: Record): Record {
    if r.dataSize == 0 then r.(data := Null) else r
  }

  function NormalLog(rs: seq<Record>): (ns: seq<Record>)
    ensures |ns| == |rs| && forall i :: 0 <= i < |rs| ==> ns[i] == Normal(rs[i])
  {
    seq(|rs|, i requires 0 <= i < |rs| => Normal(rs[i]))
  }

  predicate RecordedLog(rs: seq<Record>) {
    forall r :: r in rs ==> Recorded(r)
  }

  /* ---------- the file's contents ---------- */

  /** The bytes of the data that are written. */
  function DataBytes(r: Record): seq<Byte> {
    if r.dataSize > 0 && r.data.Block? then r.data.bytes else []
  }

  function DumpedRecord(r: Record): seq<Byte> {
    ToLE(r.function_, FUNCTION_SIZE) + ToLE(r.argSize, 8) + r.arguments + r.result + ToLE(r.dataSize, 8) + DataBytes(r)
  }

  function DumpedLog(rs: seq<Record>): seq<Byte> {
    if rs == [] then [] else DumpedRecord(rs[0]) + DumpedLog(rs[1..])
  }

  /** One record read, the end of the file instead of a record, or a record cut short. */
  datatype Reading = Complete(record: Record, next: nat) | AtEnd | Broken

  function ReadRecord(content: seq<Byte>, pos: nat): (r: Reading)
    ensures r.Complete? ==> pos < r.next <= |content|
  {
    var arguments := pos + FUNCTION_SIZE + 8;
    if pos + FUNCTION_SIZE > |content| then AtEnd
    else if arguments > |content| then Broken
    else
      var argSize := Field(content, pos + FUNCTION_SIZE, 8);
      var result := arguments + argSize;
      var data := result + RESULT_SIZE + 8;
      if data > |content| then Broken
      else
        var dataSize := Field(content, result + RESULT_SIZE, 8);
        if data + dataSize > |content| then Broken
        else
          Complete(Record(Field(content, pos, FUNCTION_SIZE), argSize, content[arguments..result],
                          content[result..result + RESULT_SIZE], dataSize,
                          if dataSize == 0 then Null else Block(content[data..data + dataSize])),
                   data + dataSize)
  }

  /** All the records from `pos` on, and whether the file ends where one could start. */
  function ReadLog(content: seq<Byte>, pos: nat): (seq<Record>, bool)
    decreases |content| - pos
  {
    match ReadRecord(content, pos)
    case AtEnd => ([], true)
    case Broken => ([], false)
    case Complete(r, next) => var (rest, ok) := ReadLog(content, next); ([r] + rest, ok)
  }

  /* ---------- reading back what was written ---------- */

  /** Where the fields of a record lie. */
  lemma RecordLaidOut(content: seq<Byte>, pos: nat, r: Record)
    requires Recorded(r) && Holds(content, pos, DumpedRecord(r))
    ensures var arguments := pos + FUNCTION_SIZE + 8; var result := arguments + r.argSize;
            var data := result + RESULT_SIZE + 8;
            Holds(content, pos, ToLE(r.function_, FUNCTION_SIZE)) &&
            Holds(content, pos + FUNCTION_SIZE, ToLE(r.argSize, 8)) && Holds(content, arguments, r.arguments) &&
            Holds(content, result, r.result) && Holds(content, result + RESULT_SIZE, ToLE(r.dataSize, 8)) &&
            Holds(content, data, DataBytes(r)) && pos + |DumpedRecord(r)| == data + r.dataSize
  {
    hide ToLE, Holds;
    var function_, argSize, dataSize := ToLE(r.function_, FUNCTION_SIZE), ToLE(r.argSize, 8), ToLE(r.dataSize, 8);
    HoldsAppend(content, pos, function_ + argSize + r.arguments + r.result + dataSize, DataBytes(r));
    HoldsAppend(content, pos, function_ + argSize + r.arguments + r.result, dataSize);
    HoldsAppend(content, pos, function_ + argSize + r.arguments, r.result);
    HoldsAppend(content, pos, function_ + argSize, r.arguments);
    HoldsAppend(content, pos, function_, argSize);
  }

  lemma RecordReadBack(content: seq<Byte>, pos: nat, r: Record)
    requires Recorded(r) && Holds(content, pos, DumpedRecord(r))
    ensures ReadRecord(content, pos) == Complete(Normal(r), pos + |DumpedRecord(r)|)
  {
    hide ToLE, FromLE, DumpedRecord;
    RecordLaidOut(content, pos, r);
    Pow256Values();
    FitsRoundTrip(r.function_, FUNCTION_SIZE);
    FitsRoundTrip(r.argSize, 8);
    FitsRoundTrip(r.dataSize, 8);
  }

  /**
   A record in the file, in numbers: four bytes of procedure, eight of size, the arguments, sixteen of result,
   eight of size, the data.
   */
  lemma DumpedInNumbers(r: Record)
    requires Recorded(r)
    ensures var d, n, m := DumpedRecord(r), |r.arguments|, r.dataSize;
            |d| == 36 + n + m && Field(d, 0, 4) == r.function_ && Field(d, 4, 8) == n && d[12..12 + n] == r.arguments &&
            d[12 + n..28 + n] == r.result && Field(d, 28 + n, 8) == m && (r.data.Block? ==> d[36 + n..] == r.data.bytes)
  {
    hide ToLE, FromLE, DumpedRecord;
    var d, n := DumpedRecord(r), |r.arguments|;
    assert Holds(d, 0, d);
    RecordLaidOut(d, 0, r);
    Pow256Values();
    FitsRoundTrip(r.function_, 4);
    FitsRoundTrip(n, 8);
    FitsRoundTrip(r.dataSize, 8);
    assert d[36 + n..36 + n + r.dataSize] == d[36 + n..];
  }

  /** Reading takes the same numbers from any bytes; it ends in the first four, or breaks in what follows. */
  lemma ReadInNumbers(content: seq<Byte>, pos: nat)
    ensures var r := ReadRecord(content, pos);
            if pos + 4 > |content| then r == AtEnd
            else if pos + 12 > |content| then r == Broken
            else
              var n := Field(content, pos + 4, 8);
              if pos + 36 + n > |content| then r == Broken
              else
                var m := Field(content, pos + 28 + n, 8);
                if pos + 36 + n + m > |content| then r == Broken
                else
                  var at := pos + 12 + n;
                  r == Complete(Record(Field(content, pos, 4), n, content[pos + 12..at], content[at..at + 16], m,
                                       if m == 0 then Null else Block(content[at + 24..at + 24 + m])), at + 24 + m)
  {
    hide FromLE;
  }

  /** A file that ends before the record does, or inside its `function` field. */
  lemma RecordCut(content: seq<Byte>, pos: nat, r: Record)
    requires Recorded(r) && pos <= |content| < pos + |DumpedRecord(r)|
    requires content[pos..] <= DumpedRecord(r)
    ensures ReadRecord(content, pos) == if |content| < pos + FUNCTION_SIZE then AtEnd else Broken
  {
    hide ToLE, FromLE, DumpedRecord;
    var whole := content[..pos] + DumpedRecord(r);
    assert Holds(whole, pos, DumpedRecord(r));
    RecordReadBack(whole, pos, r);
    assert content <= whole;
    if pos + FUNCTION_SIZE + 8 <= |content| {
      var at := pos + FUNCTION_SIZE;
      assert content[at..at + 8] == whole[at..at + 8];
      var size := pos + FUNCTION_SIZE + 8 + r.argSize + RESULT_SIZE;
      if size + 8 <= |content| {
        assert content[size..size + 8] == whole[size..size + 8];
      }
    }
  }

  lemma ReadLogUnfolds(content: seq<Byte>, pos: nat)
    ensures match ReadRecord(content, pos)
      case AtEnd => ReadLog(content, pos) == ([], true)
      case Broken => ReadLog(content, pos) == ([], false)
      case Complete(r, next) => ReadLog(content, pos) == ([r] + ReadLog(content, next).0, ReadLog(content, next).1)
  {
    hide ReadRecord;
  }

  lemma NoRecordsRead(content: seq<Byte>)
    ensures ReadRecord(content, |content|) == AtEnd && NormalLog([]) == []
  {
  }

  lemma NormalLogCons(rs: seq<Record>, n: nat)
    requires n < |rs|
    ensures NormalLog(rs)[..n + 1] == [Normal(rs[0])] + NormalLog(rs[1..])[..n]
    ensures n == |rs| - 1 ==> NormalLog(rs) == [Normal(rs[0])] + NormalLog(rs[1..])
  {
    hide Normal;
  }

  /**
   The records of the log come back, all of them and in order. `cr_restore` appends an element before
   it finds the end of the file; it removes it again, so the log is exactly what was dumped.
   */
  lemma {:induction false} LogReadBack(content: seq<Byte>, pos: nat, rs: seq<Record>)
    requires RecordedLog(rs) && Holds(content, pos, DumpedLog(rs)) && |content| == pos + |DumpedLog(rs)|
    ensures ReadLog(content, pos) == (NormalLog(rs), true)
    decreases |rs|
  {
    hide Recorded, DumpedRecord, ReadRecord, Normal, NormalLog, ReadLog;
    ReadLogUnfolds(content, pos);
    if rs == [] {
      NoRecordsRead(content);
    } else {
      HoldsAppend(content, pos, DumpedRecord(rs[0]), DumpedLog(rs[1..]));
      RecordReadBack(content, pos, rs[0]);
      LogReadBack(content, pos + |DumpedRecord(rs[0])|, rs[1..]);
      NormalLogCons(rs, |rs| - 1);
    }
  }

  /** How many records lie whole in the first `size` bytes. */
  function WholeRecords(rs: seq<Record>, size: nat): (n: nat)
    ensures n <= |rs|
  {
    if rs == [] || size < |DumpedRecord(rs[0])| then 0
    else 1 + WholeRecords(rs[1..], size - |DumpedRecord(rs[0])|)
  }

  lemma {:induction false} WholeRecordsIsLargest(rs: seq<Record>, size: nat)
    ensures var n := WholeRecords(rs, size);
            |DumpedLog(rs[..n])| <= size && (n < |rs| ==> size < |DumpedLog(rs[..n + 1])|)
    decreases |rs|
  {
    if rs != [] && size >= |DumpedRecord(rs[0])| {
      var n := WholeRecords(rs[1..], size - |DumpedRecord(rs[0])|);
      WholeRecordsIsLargest(rs[1..], size - |DumpedRecord(rs[0])|);
      assert rs[..n + 1][1..] == rs[1..][..n];
      if n + 1 < |rs| {
        assert rs[..n + 2][1..] == rs[1..][..n + 1];
      }
    } else if rs != [] {
      assert rs[..1][1..] == [];
    }
  }

  /**
   Whatever prefix of a dumped log the file holds, exactly its whole records come back, so never one
   that was not dumped; and no error is reported only if the cut lies at a record's start or inside
   its `function` field.
   */
  lemma {:induction false} CutLogReadBack(content: seq<Byte>, pos: nat, rs: seq<Record>)
    requires RecordedLog(rs) && pos <= |content| && content[pos..] <= DumpedLog(rs)
    ensures var n := WholeRecords(rs, |content| - pos);
            ReadLog(content, pos) ==
            (NormalLog(rs)[..n], |content| - pos < |DumpedLog(rs[..n])| + FUNCTION_SIZE)
    decreases |rs|
  {
    hide Recorded, DumpedRecord, ReadRecord, Normal, NormalLog, ReadLog;
    var size := |content| - pos;
    ReadLogUnfolds(content, pos);
    if rs == [] {
      NoRecordsRead(content);
    } else if size < |DumpedRecord(rs[0])| {
      assert content[pos..] <= DumpedRecord(rs[0]);
      RecordCut(content, pos, rs[0]);
      assert rs[..0] == [] && NormalLog(rs)[..0] == [];
    } else {
      CutAfterFirst(content, pos, rs);
      RecordReadBack(content, pos, rs[0]);
      CutLogReadBack(content, pos + |DumpedRecord(rs[0])|, rs[1..]);
      var n := WholeRecords(rs[1..], size - |DumpedRecord(rs[0])|);
      NormalLogCons(rs, n);
      assert rs[..n + 1][1..] == rs[1..][..n];
    }
  }

  lemma CutAfterFirst(content: seq<Byte>, pos: nat, rs: seq<Record>)
    requires rs != [] && pos + |DumpedRecord(rs[0])| <= |content| && content[pos..] <= DumpedLog(rs)
    ensures Holds(content, pos, DumpedRecord(rs[0])) && content[pos + |DumpedRecord(rs[0])|..] <= DumpedLog(rs[1..])
  {
    hide DumpedRecord;
    var first := DumpedRecord(rs[0]);
    assert content[pos..][..|first|] == first;
    assert content[pos + |first|..] == content[pos..][|first|..];
  }

  /* ---------- the code ---------- */

  /** A stdio stream. */
  class File {
    var content: seq<Byte>
    var pos: nat
    var eof: bool

    constructor (content: seq<Byte>)
      ensures this.content == content && pos == 0 && !eof
    {
      this.content, pos, eof := content, 0, false;
    }

    /** `fwrite` at the end of the file */
    method Write(bytes: seq<Byte>)
      modifies this`content
      ensures content == old(content) + bytes
    {
      content := content + bytes;
    }

    /** `fread`: as many of the `n` bytes as there are */
    method Read(n: nat) returns (bytes: seq<Byte>)
      requires pos <= |content|
      modifies this`pos, this`eof
      ensures pos == old(pos) + |bytes| <= |content| && bytes == content[old(pos)..pos]
      ensures if old(pos) + n <= |content| then |bytes| == n && eof == old(eof)
              else pos == |content| && |bytes| < n && eof
    {
      if pos + n <= |content| {
        bytes := content[pos..pos + n];
      } else {
        bytes := content[pos..];
        eof := true;
      }
      pos := pos + |bytes|;
    }
  }

  /** `cr_dump_api_record` */
  method DumpApiRecord(f: File, r: Record)
    modifies f`content
    ensures f.content == old(f.content) + DumpedRecord(r)
  {
    f.Write(ToLE(r.function_, FUNCTION_SIZE));
    f.Write(ToLE(r.argSize, 8));
    f.Write(r.arguments);
    f.Write(r.result);
    f.Write(ToLE(r.dataSize, 8));
    if r.dataSize > 0 && r.data.Block? {
      f.Write(r.data.bytes);
    }
  }

  /** `cr_dump` */
  method Dump(log: List<Record>, f: File)
    requires log.Valid()
    modifies f`content
    ensures f.content == old(f.content) + DumpedLog(log.Contents())
  {
    hide DumpedRecord;
    ghost var rs := log.Contents();
    for i := 0 to log.length
      invariant log.Valid() && log.Contents() == rs
      invariant f.content == old(f.content) + DumpedLog(rs[..i])
    {
      DumpedLogSnoc(rs, i);
      var record := log.At(i);
      DumpApiRecord(f, record.value);
    }
    assert rs[..|rs|] == rs;
  }

  lemma {:induction false} DumpedLogSnoc(rs: seq<Record>, n: nat)
    requires n < |rs|
    ensures DumpedLog(rs[..n + 1]) == DumpedLog(rs[..n]) + DumpedRecord(rs[n])
    decreases n
  {
    hide DumpedRecord;
    if n == 0 {
      assert rs[..1][1..] == [] && rs[..0] == [];
    } else {
      DumpedLogSnoc(rs[1..], n - 1);
      assert rs[..n + 1][1..] == rs[1..][..n] && rs[..n][1..] == rs[1..][..n - 1];
    }
  }

  /** `cr_restore_api_record`: 0, or 2 at the end of the file, or 1; the record's fields as far as they were read. */
  method RestoreApiRecord(f: File, was: Record) returns (res: nat, r: Record)
    requires f.pos <= |f.content|
    modifies f`pos, f`eof
    ensures f.pos <= |f.content|
    ensures match ReadRecord(f.content, old(f.pos))
      case Complete(record, next) => res == 0 && r == record && f.pos == next && f.eof == old(f.eof)
      case AtEnd => res == 2 && f.eof && f.pos == |f.content| && r == was
      case Broken => res == 1 && f.eof && f.pos == |f.content|
  {
    hide FromLE;
    r := was;
    var bytes := f.Read(FUNCTION_SIZE);
    if |bytes| != FUNCTION_SIZE {
      // A read error, where this is 1, is not modelled.
      assert f.eof;
      return 2, r;
    }
    r := r.(function_ := FromLE(bytes));
    bytes := f.Read(8);
    if |bytes| != 8 {
      return 1, r;
    }
    r := r.(argSize := FromLE(bytes));
    bytes := f.Read(r.argSize);
    r := r.(arguments := bytes);
    if |bytes| != r.argSize {
      return 1, r;
    }
    bytes := f.Read(RESULT_SIZE);
    r := r.(result := bytes);
    if |bytes| != RESULT_SIZE {
      return 1, r;
    }
    bytes := f.Read(8);
    if |bytes| != 8 {
      return 1, r;
    }
    r := r.(dataSize := FromLE(bytes));
    if r.dataSize > 0 {
      bytes := f.Read(r.dataSize);
      r := r.(data := Block(bytes));
      if |bytes| != r.dataSize {
        return 1, r;
      }
    } else {
      r := r.(data := Null);
    }
    return 0, r;
  }
}
