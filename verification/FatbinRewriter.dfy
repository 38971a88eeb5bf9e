/**
 `decompress_fatbin` and `decompress_section`: a fatbin with compressed sections becomes one with
 plain sections. The functions say what the code computes; class `OutputBuffer` is the code.

 The fatbin lies at address `address`. What `realloc` hands out beyond the old contents is not
 known: `uninitialised` gives the byte found at each place of the buffer.
 */
module FatbinRewriter {
  import opened Attempts
  import opened Bytes
  import opened FatbinLayout
  import Lz4Block
  import Decompressor

  /* ---------- what the code computes ---------- */

  /** `*output` as far as it is allocated, `*output_size`, and `eh_out_offset`. */
  datatype Output = Output(mem: seq<Byte>, size: nat, elfAt: nat)

  function Realloc(mem: seq<Byte>, capacity: nat, uninitialised: nat -> Byte): (r: seq<Byte>)
    ensures |r| == capacity
    ensures |mem| <= capacity ==> mem <= r
  {
    seq(capacity, i requires 0 <= i < capacity => if i < |mem| then mem[i] else uninitialised(i))
  }

  /** `eh_out->size += n` and `th_out->size += n`. */
  function AddTo(mem: seq<Byte>, at: nat, n: nat): (r: seq<Byte>)
    requires at + 8 <= |mem|
    ensures |r| == |mem|
  {
    Put(mem, at, 8, Field(mem, at, 8) + n)
  }

  /** A copied section header once its members say "not compressed, `size` bytes". */
  function PlainHeader(mem: seq<Byte>, at: nat, header: TextHeader): (r: seq<Byte>)
    requires at + TEXT_HEADER_SIZE <= |mem|
    ensures |r| == |mem|
  {
    var m1 := Put(mem, at + FLAGS_AT, 8, ClearCompress(Field(mem, at + FLAGS_AT, 8)));
    var m2 := Put(m1, at + COMPRESSED_SIZE_AT, 4, 0);
    var m3 := Put(m2, at + DECOMPRESSED_SIZE_AT, 8, 0);
    Put(m3, at + SIZE_AT, 8, header.decompressedSize)
  }

  /** The buffer with the region's header copied to `at`, its size member 0. */
  function RegionHeader(mem: seq<Byte>, at: nat, header: seq<Byte>): (r: seq<Byte>)
    requires |header| == ELF_HEADER_SIZE && at + ELF_HEADER_SIZE <= |mem|
    ensures |r| == |mem|
  {
    Put(Splice(mem, at, header), at + ELF_SIZE_AT, 8, 0)
  }

  /** `realloc`, and for a region's first section the region's header; `size` is where the section goes. */
  function MakeRoom(data: seq<Byte>, elf: nat, text: nat, header: TextHeader,
                    uninitialised: nat -> Byte, o: Output): Output
    requires elf + ELF_HEADER_SIZE <= |data|
  {
    var mem := Realloc(o.mem, o.size + header.decompressedSize + ELF_HEADER_SIZE + header.headerSize, uninitialised);
    if text == elf + ELF_HEADER_SIZE
    then Output(RegionHeader(mem, o.size, data[elf..elf + ELF_HEADER_SIZE]), o.size + ELF_HEADER_SIZE, o.size)
    else o.(mem := mem)
  }

  /** The output after the section's header has been written at `textAt`. */
  datatype Opened = Opened(output: Output, textAt: nat)

  /** The region's size grows, and the section's header is copied to the end of `o` and made plain. */
  function WriteHeader(data: seq<Byte>, text: nat, header: TextHeader, o: Output): (r: Attempt<Opened>)
    ensures r.Ok? ==> text + header.headerSize <= |data|
    ensures r.Ok? ==> r.value.output.elfAt + ELF_HEADER_SIZE <= |r.value.output.mem|
    ensures r.Ok? ==> r.value.textAt + TEXT_HEADER_SIZE <= |r.value.output.mem|
  {
    if o.elfAt + ELF_HEADER_SIZE > |o.mem| || text + header.headerSize > |data| ||
       o.size + header.headerSize > |o.mem| || o.size + TEXT_HEADER_SIZE > |o.mem| then Undefined
    else
      var m1 := AddTo(o.mem, o.elfAt + ELF_SIZE_AT, header.decompressedSize + header.headerSize);
      var m2 := Splice(m1, o.size, data[text..text + header.headerSize]);
      Ok(Opened(Output(PlainHeader(m2, o.size, header), o.size + header.decompressedSize + header.headerSize, o.elfAt),
                o.size))
  }

  /** The call of `decompress` on the bytes after the section's header. */
  function FillSection(data: seq<Byte>, text: nat, header: TextHeader, section: Opened): (r: Attempt<Opened>)
    requires text + header.headerSize <= |data|
    ensures r.Ok? ==> r.value.textAt == section.textAt && |r.value.output.mem| == |section.output.mem| &&
                      r.value.output.elfAt == section.output.elfAt
  {
    var start := Lz4Block.State(0, 0, section.output.mem);
    match Lz4Block.Run(data[text + header.headerSize..], header.compressedSize,
                       section.textAt + header.headerSize, header.decompressedSize, start)
    case Halt(s) =>
      if s.opos != header.decompressedSize then Failed
      else Ok(section.(output := section.output.(mem := s.mem)))
    case _ => Undefined
  }

  /** The zero bytes expected after compressed data that ends at address `end`: 1 to 8 of them. */
  function InputPadding(end: nat): (n: nat)
    ensures 1 <= n <= 8 && (end + n) % 8 == 0
  {
    8 - end % 8
  }

  /** What brings `size` to a multiple of 8. */
  function OutputPadding(size: nat): (n: nat)
    ensures n < 8 && (size + n) % 8 == 0
  {
    (8 - size % 8) % 8
  }

  /** How many bytes of input the section takes after its header, once the zeros are found. */
  function CheckPadding(data: seq<Byte>, address: nat, text: nat, header: TextHeader): (r: Attempt<nat>)
    ensures r.Ok? ==> r.value > 0 && text + header.headerSize + r.value <= |data|
  {
    var end := text + header.headerSize + header.compressedSize;
    var n := InputPadding(address + end);
    // The expected zeros are an array of six.
    if n > 6 || end + n > |data| then Undefined
    else if data[end..end + n] != Zeros(n) then Failed
    else Ok(header.compressedSize + n)
  }

  /** The decompressed data padded to a multiple of 8 bytes, and both size members told. */
  function PadOutput(header: TextHeader, section: Opened): (r: Attempt<Output>)
    requires section.output.elfAt + ELF_HEADER_SIZE <= |section.output.mem|
    requires section.textAt + TEXT_HEADER_SIZE <= |section.output.mem|
  {
    var o := section.output;
    var end := section.textAt + header.headerSize + header.decompressedSize;
    var pad := OutputPadding(header.decompressedSize);
    if end + pad > |o.mem| then Undefined
    else
      var m1 := Splice(o.mem, end, Zeros(pad));
      var m2 := AddTo(m1, o.elfAt + ELF_SIZE_AT, pad);
      Ok(Output(AddTo(m2, section.textAt + SIZE_AT, pad), o.size + pad, o.elfAt))
  }

  function RewriteSection(data: seq<Byte>, address: nat, elf: nat, text: nat, header: TextHeader,
                          uninitialised: nat -> Byte, o: Output): (r: Attempt<(Output, nat)>)
    requires elf + ELF_HEADER_SIZE <= |data|
    ensures r.Ok? ==> r.value.1 > 0 && text + header.headerSize + r.value.1 <= |data|
  {
    var section :- WriteHeader(data, text, header, MakeRoom(data, elf, text, header, uninitialised, o));
    var filled :- FillSection(data, text, header, section);
    var read :- CheckPadding(data, address, text, header);
    var padded :- PadOutput(header, filled);
    Ok((padded, read))
  }

  /** One section, from the check of its header on; the result has the position after it. */
  function RewriteNext(data: seq<Byte>, address: nat, elf: nat, text: nat,
                       uninitialised: nat -> Byte, o: Output): (r: Attempt<(Output, nat)>)
    requires elf + ELF_HEADER_SIZE <= |data|
    ensures r.Ok? ==> text < r.value.1 <= |data|
  {
    var header :- TextHeaderAt(data, text, SizeT(|data| - text - ELF_HEADER_SIZE));
    var (o', read) :- RewriteSection(data, address, elf, text, header, uninitialised, o);
    Ok((o', text + header.headerSize + read))
  }

  /** Where the region whose header is at `elf` ends, by its size member. */
  function RegionEnd(data: seq<Byte>, elf: nat): nat
    requires elf + ELF_HEADER_SIZE <= |data|
  {
    elf + ELF_HEADER_SIZE + Field(data, elf + ELF_SIZE_AT, 8)
  }

  /** The `do` loop over the sections of the region whose header is at `elf`, from the one at `text` on. */
  function RewriteSections(data: seq<Byte>, address: nat, elf: nat, text: nat,
                           uninitialised: nat -> Byte, o: Output): (r: Attempt<(Output, nat)>)
    requires elf + ELF_HEADER_SIZE <= |data| && text <= |data|
    ensures r.Ok? ==> text < r.value.1 <= |data|
    decreases |data| - text
  {
    var (o', next) :- RewriteNext(data, address, elf, text, uninitialised, o);
    // The end of the region is a pointer, which must not leave the data.
    if RegionEnd(data, elf) > |data| then Undefined
    else if next < RegionEnd(data, elf) then RewriteSections(data, address, elf, next, uninitialised, o')
    else Ok((o', next))
  }

  /** The outer loop over the regions, from the one at `elf` on. */
  function RewriteRegions(data: seq<Byte>, address: nat, elf: nat, uninitialised: nat -> Byte, o: Output)
    : Attempt<Output>
    requires elf <= |data|
    decreases |data| - elf
  {
    if elf == |data| then Ok(o)
    else
      var _ :- ElfHeaderAt(data, elf);
      var (o', next) :- RewriteSections(data, address, elf, elf + ELF_HEADER_SIZE, uninitialised, o);
      RewriteRegions(data, address, next, uninitialised, o')
  }

  /* ---------- the code ---------- */

  /** Assigns the member of `width` bytes at `at`. */
  method SetField(a: array<Byte>, at: nat, width: nat, value: nat)
    requires at + width <= a.Length
    modifies a
    ensures a[..] == Put(old(a[..]), at, width, value)
  {
    var bytes := ToLE(value, width);
    forall i | 0 <= i < width {
      a[at + i] := bytes[i];
    }
  }

  method AddToField(a: array<Byte>, at: nat, n: nat)
    requires at + 8 <= a.Length
    modifies a
    ensures a[..] == AddTo(old(a[..]), at, n)
  {
    SetField(a, at, 8, Field(a[..], at, 8) + n);
  }

  method CopyTo(a: array<Byte>, at: nat, bytes: seq<Byte>)
    requires at + |bytes| <= a.Length
    modifies a
    ensures a[..] == Splice(old(a[..]), at, bytes)
  {
    forall i | 0 <= i < |bytes| {
      a[at + i] := bytes[i];
    }
  }

  method MakePlain(a: array<Byte>, at: nat, header: TextHeader)
    requires at + TEXT_HEADER_SIZE <= a.Length
    modifies a
    ensures a[..] == PlainHeader(old(a[..]), at, header)
  {
    SetField(a, at + FLAGS_AT, 8, ClearCompress(Field(a[..], at + FLAGS_AT, 8)));
    SetField(a, at + COMPRESSED_SIZE_AT, 4, 0);
    SetField(a, at + DECOMPRESSED_SIZE_AT, 8, 0);
    SetField(a, at + SIZE_AT, 8, header.decompressedSize);
  }

  class OutputBuffer {
    var data: array<Byte>
    var size: nat
    var elfAt: nat

    ghost function Value(): Output
      reads this, data
    {
      Output(data[..], size, elfAt)
    }

    constructor ()
      ensures Value() == Output([], 0, 0) && fresh(data)
    {
      data := new Byte[0];
      size, elfAt := 0, 0;
    }

    method Reallocate(capacity: nat, uninitialised: nat -> Byte)
      modifies this`data
      ensures fresh(data) && data[..] == Realloc(old(data[..]), capacity, uninitialised)
    {
      var was := data;
      data := new Byte[capacity](i requires 0 <= i < capacity reads was =>
                                 if i < was.Length then was[i] else uninitialised(i));
    }

    method WriteRegionHeader(header: seq<Byte>)
      requires |header| == ELF_HEADER_SIZE && size + ELF_HEADER_SIZE <= data.Length
      modifies this`size, this`elfAt, data
      ensures Value() == Output(RegionHeader(old(data[..]), old(size), header), old(size) + ELF_HEADER_SIZE, old(size))
    {
      CopyTo(data, size, header);
      SetField(data, size + ELF_SIZE_AT, 8, 0);
      elfAt := size;
      size := size + ELF_HEADER_SIZE;
    }

    method Reserve(fatbin: seq<Byte>, elf: nat, text: nat, header: TextHeader, uninitialised: nat -> Byte)
      requires elf + ELF_HEADER_SIZE <= |fatbin|
      modifies this
      ensures fresh(data) && Value() == MakeRoom(fatbin, elf, text, header, uninitialised, old(Value()))
    {
      hide Splice, Put, Realloc;
      Reallocate(size + header.decompressedSize + ELF_HEADER_SIZE + header.headerSize, uninitialised);
      if text == elf + ELF_HEADER_SIZE {
        WriteRegionHeader(fatbin[elf..elf + ELF_HEADER_SIZE]);
      }
    }

    /** The section's header; the result is where it now lies. */
    method AppendHeader(fatbin: seq<Byte>, text: nat, header: TextHeader) returns (r: Attempt<nat>)
      modifies this`size, data
      ensures match WriteHeader(fatbin, text, header, old(Value()))
        case Ok(s) => r == Ok(s.textAt) && Value() == s.output
        case Failed => r == Failed
        case Undefined => r == Undefined
    {
      hide PlainHeader, AddTo, Splice, Put, Field, TextHeaderOf;
      if elfAt + ELF_HEADER_SIZE > data.Length || text + header.headerSize > |fatbin| ||
         size + header.headerSize > data.Length || size + TEXT_HEADER_SIZE > data.Length {
        return Undefined;
      }
      var textAt := size;
      AddToField(data, elfAt + ELF_SIZE_AT, header.decompressedSize + header.headerSize);
      CopyTo(data, textAt, fatbin[text..text + header.headerSize]);
      MakePlain(data, textAt, header);
      size := textAt + header.decompressedSize + header.headerSize;
      return Ok(textAt);
    }

    method AppendPadding(header: TextHeader, textAt: nat) returns (r: Attempt<()>)
      requires elfAt + ELF_HEADER_SIZE <= data.Length && textAt + TEXT_HEADER_SIZE <= data.Length
      modifies this`size, data
      ensures match PadOutput(header, Opened(old(Value()), textAt))
        case Ok(o) => r == Ok(()) && Value() == o
        case Failed => r == Failed
        case Undefined => r == Undefined
    {
      hide AddTo, Splice, Put, Field;
      var end := textAt + header.headerSize + header.decompressedSize;
      var pad := OutputPadding(header.decompressedSize);
      if end + pad > data.Length {
        return Undefined;
      }
      CopyTo(data, end, Zeros(pad));
      AddToField(data, elfAt + ELF_SIZE_AT, pad);
      AddToField(data, textAt + SIZE_AT, pad);
      size := size + pad;
      return Ok(());
    }

    /** The decompressed data goes right after the section's header. */
    method AppendData(fatbin: seq<Byte>, text: nat, header: TextHeader, textAt: nat) returns (r: Attempt<()>)
      requires text + header.headerSize <= |fatbin|
      modifies data
      ensures match FillSection(fatbin, text, header, Opened(old(Value()), textAt))
        case Ok(s) => r == Ok(()) && Value() == s.output && s.textAt == textAt
        case Failed => r == Failed
        case Undefined => r == Undefined
    {
      var count :- Decompressor.Decompress(fatbin[text + header.headerSize..], header.compressedSize,
                                           data, textAt + header.headerSize, header.decompressedSize);
      if count != header.decompressedSize {
        return Failed;
      }
      return Ok(());
    }

    /** `decompress_section`: the number of input bytes used after the section's header. */
    method DecompressSection(fatbin: seq<Byte>, address: nat, elf: nat, text: nat, header: TextHeader,
                             uninitialised: nat -> Byte)
      returns (r: Attempt<nat>)
      requires elf + ELF_HEADER_SIZE <= |fatbin|
      modifies this, data
      ensures fresh(data)
      ensures match RewriteSection(fatbin, address, elf, text, header, uninitialised, old(Value()))
        case Ok((o, read)) => r == Ok(read) && Value() == o
        case Failed => r == Failed
        case Undefined => r == Undefined
    {
      Reserve(fatbin, elf, text, header, uninitialised);
      var textAt :- AppendHeader(fatbin, text, header);
      var _ :- AppendData(fatbin, text, header, textAt);
      var read :- CheckPadding(fatbin, address, text, header);
      var _ :- AppendPadding(header, textAt);
      return Ok(read);
    }

    /** The body of the inner loop of `decompress_fatbin`: one section. */
    method DecompressNext(fatbin: seq<Byte>, address: nat, elf: nat, text: nat, uninitialised: nat -> Byte)
      returns (r: Attempt<nat>)
      requires elf + ELF_HEADER_SIZE <= |fatbin|
      modifies this, data
      ensures fresh(data) || data == old(data)
      ensures match RewriteNext(fatbin, address, elf, text, uninitialised, old(Value()))
        case Ok((o, next)) => r == Ok(next) && Value() == o
        case Failed => r == Failed
        case Undefined => r == Undefined
    {
      hide RewriteSection, TextHeaderAt;
      var header :- TextHeaderAt(fatbin, text, SizeT(|fatbin| - text - ELF_HEADER_SIZE));
      var read :- DecompressSection(fatbin, address, elf, text, header, uninitialised);
      return Ok(text + header.headerSize + read);
    }

    /** The inner loop of `decompress_fatbin`: the sections of one region. */
    method DecompressRegion(fatbin: seq<Byte>, address: nat, elf: nat, uninitialised: nat -> Byte)
      returns (r: Attempt<nat>)
      requires elf + ELF_HEADER_SIZE <= |fatbin|
      modifies this, data
      ensures fresh(data) || data == old(data)
      ensures match RewriteSections(fatbin, address, elf, elf + ELF_HEADER_SIZE, uninitialised, old(Value()))
        case Ok((o, next)) => r == Ok(next) && Value() == o
        case Failed => r == Failed
        case Undefined => r == Undefined
    {
      ghost var whole := RewriteSections(fatbin, address, elf, elf + ELF_HEADER_SIZE, uninitialised, Value());
      var end := RegionEnd(fatbin, elf);
      var pos, more := elf + ELF_HEADER_SIZE, true;
      while more
        invariant elf < pos <= |fatbin| && (fresh(data) || data == old(data))
        invariant more ==> RewriteSections(fatbin, address, elf, pos, uninitialised, Value()) == whole
        invariant !more ==> whole == Ok((Value(), pos))
        decreases |fatbin| - pos, more
      {
        pos :- DecompressNext(fatbin, address, elf, pos, uninitialised);
        if end > |fatbin| {
          return Undefined;
        }
        more := pos < end;
      }
      return Ok(pos);
    }
  }

  /** `decompress_fatbin`: the decompressed fatbin is the first `size` bytes of the buffer. */
  method DecompressFatbin(fatbin: seq<Byte>, address: nat, uninitialised: nat -> Byte)
    returns (r: Attempt<seq<Byte>>)
    ensures match RewriteRegions(fatbin, address, 0, uninitialised, Output([], 0, 0))
      case Ok(o) => if o.size <= |o.mem| then r == Ok(o.mem[..o.size]) else r == Undefined
      case Failed => r == Failed
      case Undefined => r == Undefined
  {
    var output := new OutputBuffer();
    ghost var whole := RewriteRegions(fatbin, address, 0, uninitialised, output.Value());
    var pos := 0;
    while pos < |fatbin|
      invariant pos <= |fatbin| && fresh(output.data)
      invariant RewriteRegions(fatbin, address, pos, uninitialised, output.Value()) == whole
    {
      var _ :- ElfHeaderAt(fatbin, pos);
      pos :- output.DecompressRegion(fatbin, address, pos, uninitialised);
    }
    if output.size > output.data.Length {
      return Undefined;
    }
    return Ok(output.data[..output.size]);
  }
}
