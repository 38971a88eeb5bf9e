/**
 `elf2_get_fatbin_info`: the walk over the sections of the fatbin's first region, which hands the
 device code of each to `elf2_parameter_info`, and `decompress_single_section` for the packed ones.

 `accepts` stands for `elf2_parameter_info` (the work of libelf): whether it takes the data without
 an error. `claimedSize` is what `*fatbin_size` holds on entry. As in module FatbinRewriter,
 `uninitialised` gives the bytes of fresh memory, and the fatbin lies at `address`.
 */
module FatbinWalk {
  import opened Attempts
  import opened Bytes
  import opened FatbinLayout
  import opened FatbinRewriter

  const KIND_DEVICE_CODE: nat := 2

  function Uninitialised(from: nat, n: nat, uninitialised: nat -> Byte): (r: seq<Byte>)
    ensures |r| == n
  {
    seq(n, i requires 0 <= i < n => uninitialised(from + i))
  }

  /** What is handed on for decompressed data: zeros cover its start, and fresh memory follows it. */
  function HandedOn(payload: seq<Byte>, uninitialised: nat -> Byte): (r: seq<Byte>)
    ensures |r| == |payload| + OutputPadding(|payload|)
  {
    var pad := OutputPadding(|payload|);
    Splice(payload + Uninitialised(|payload|, pad, uninitialised), 0, Zeros(pad))
  }

  /** The zero bytes expected after data that ends at address `end`: 0 to 7 of them. */
  function AlignmentPadding(end: nat): (n: nat)
    ensures n < 8 && (end + n) % 8 == 0
  {
    (8 - end % 8) % 8
  }

  /** The bytes handed on and the input bytes used, for packed data at `at`. */
  function SingleSection(data: seq<Byte>, address: nat, at: nat, header: TextHeader, uninitialised: nat -> Byte)
    : (r: Attempt<(seq<Byte>, nat)>)
    requires at <= |data|
    ensures r.Ok? && r.value.0 != [] ==> r.value.1 > 0
  {
    var mem := Uninitialised(0, header.decompressedSize + 7, uninitialised);
    var run := Lz4Block.Run(data[at..], header.compressedSize, 0, header.decompressedSize, Lz4Block.State(0, 0, mem));
    if !run.Halt? then Undefined
    else if run.state.opos != header.decompressedSize then Failed
    else
      var end := at + header.compressedSize;
      var n := AlignmentPadding(address + end);
      if end + n > |data| then Undefined
      else if data[end..end + n] != Zeros(n) then Failed
      else
        var pad := OutputPadding(header.decompressedSize);
        Ok((Splice(run.state.mem, 0, Zeros(pad))[..header.decompressedSize + pad], header.compressedSize + n))
  }

  /** One section: the data handed on, if any, and the position after it. */
  function Visit(data: seq<Byte>, address: nat, elf: nat, text: nat, claimedSize: nat,
                 accepts: seq<Byte> -> bool, uninitialised: nat -> Byte): (r: Attempt<(seq<seq<Byte>>, nat)>)
    ensures r.Ok? ==> text <= r.value.1 && text < |data|
  {
    var header :- TextHeaderAt(data, text, SizeT(claimedSize - (text - elf) - ELF_HEADER_SIZE));
    var at := text + header.headerSize;
    if header.kind != KIND_DEVICE_CODE then
      // The position past the section is a pointer, which must not leave the data.
      if at + header.size > |data| then Undefined else Ok(([], at + header.size))
    else if at > |data| then Undefined
    else
      var (handed, read) :-
        if CompressFlag(header.flags) then SingleSection(data, address, at, header, uninitialised)
        else if at + header.size > |data| then Undefined
        else Ok((data[at..at + header.size], header.size));
      if handed == [] || !accepts(handed) then Failed
      else Ok(([handed], at + read))
  }

  /** The loop, up to the end of the region: the data handed on, in order, and where it stops. */
  function VisitSections(data: seq<Byte>, address: nat, elf: nat, text: nat, end: nat, claimedSize: nat,
                         accepts: seq<Byte> -> bool, uninitialised: nat -> Byte): Attempt<(seq<seq<Byte>>, nat)>
    decreases |data| - text
  {
    var (handed, next) :- Visit(data, address, elf, text, claimedSize, accepts, uninitialised);
    // The end of the region is a pointer, too.
    if end > |data| then Undefined
    else if next < end then
      // A section that takes no room is visited for ever.
      if next == text then Undefined else
      var (rest, stop) :- VisitSections(data, address, elf, next, end, claimedSize, accepts, uninitialised);
      Ok((handed + rest, stop))
    else
      Ok((handed, next))
  }

  /** The whole walk, with the region's header at `elf`; the result also has the region's total size. */
  function VisitRegion(data: seq<Byte>, address: nat, elf: nat, claimedSize: nat,
                       accepts: seq<Byte> -> bool, uninitialised: nat -> Byte): Attempt<(seq<seq<Byte>>, nat)>
    requires elf <= |data|
  {
    // The check of the header is told that it is there.
    if elf + ELF_HEADER_SIZE > |data| then Undefined else
    var size :- ElfHeaderAt(data, elf);
    var (handed, _) :- VisitSections(data, address, elf, elf + ELF_HEADER_SIZE, RegionEnd(data, elf), claimedSize,
                                     accepts, uninitialised);
    Ok((handed, ELF_HEADER_SIZE + size))
  }

  /* ---------- the code ---------- */

  method DecompressSingleSection(data: seq<Byte>, address: nat, at: nat, header: TextHeader,
                                 uninitialised: nat -> Byte)
    returns (r: Attempt<(seq<Byte>, nat)>)
    requires at <= |data|
    ensures r == SingleSection(data, address, at, header, uninitialised)
  {
    hide Lz4Block.Run, Splice;
    var output := new Byte[header.decompressedSize + 7](i requires 0 <= i => uninitialised(i));
    assert output[..] == Uninitialised(0, header.decompressedSize + 7, uninitialised);
    var count :- Decompressor.Decompress(data[at..], header.compressedSize, output, 0, header.decompressedSize);
    if count != header.decompressedSize {
      return Failed;
    }
    var end := at + header.compressedSize;
    var padding := AlignmentPadding(address + end);
    if end + padding > |data| {
      return Undefined;
    }
    if data[end..end + padding] != Zeros(padding) {
      return Failed;
    }
    var pad := OutputPadding(header.decompressedSize);
    CopyTo(output, 0, Zeros(pad));
    return Ok((output[..header.decompressedSize + pad], header.compressedSize + padding));
  }

  /** The body of the loop. */
  method VisitSection(data: seq<Byte>, address: nat, elf: nat, text: nat, claimedSize: nat,
                      accepts: seq<Byte> -> bool, uninitialised: nat -> Byte)
    returns (r: Attempt<(seq<seq<Byte>>, nat)>)
    ensures r == Visit(data, address, elf, text, claimedSize, accepts, uninitialised)
  {
    hide SingleSection, TextHeaderAt, CompressFlag;
    var header :- TextHeaderAt(data, text, SizeT(claimedSize - (text - elf) - ELF_HEADER_SIZE));
    var at := text + header.headerSize;
    if header.kind != KIND_DEVICE_CODE {
      return if at + header.size > |data| then Undefined else Ok(([], at + header.size));
    }
    if at > |data| {
      return Undefined;
    }
    var handed, read;
    if CompressFlag(header.flags) {
      var p :- DecompressSingleSection(data, address, at, header, uninitialised);
      handed, read := p.0, p.1;
    } else {
      if at + header.size > |data| {
        return Undefined;
      }
      handed, read := data[at..at + header.size], header.size;
    }
    if handed == [] || !accepts(handed) {
      return Failed;
    }
    return Ok(([handed], at + read));
  }

  method GetFatbinInfo(data: seq<Byte>, address: nat, elf: nat, claimedSize: nat,
                       accepts: seq<Byte> -> bool, uninitialised: nat -> Byte)
    returns (r: Attempt<(seq<seq<Byte>>, nat)>)
    requires elf <= |data|
    ensures r == VisitRegion(data, address, elf, claimedSize, accepts, uninitialised)
  {
    if elf + ELF_HEADER_SIZE > |data| {
      return Undefined;
    }
    var size :- ElfHeaderAt(data, elf);
    var end := RegionEnd(data, elf);
    var text, handed, more := elf + ELF_HEADER_SIZE, [], true;
    ghost var whole := VisitSections(data, address, elf, text, end, claimedSize, accepts, uninitialised);
    PrecededByNothing(whole);
    while more
      invariant more ==>
        whole == Preceded(handed, VisitSections(data, address, elf, text, end, claimedSize, accepts, uninitialised))
      invariant !more ==> whole == Ok((handed, text))
      decreases |data| - text, more
    {
      var p :- VisitSection(data, address, elf, text, claimedSize, accepts, uninitialised);
      if end > |data| || (p.1 == text && text < end) {
        return Undefined;
      }
      PrecededByBoth(handed, p.0, VisitSections(data, address, elf, p.1, end, claimedSize, accepts, uninitialised));
      handed, text := handed + p.0, p.1;
      more := text < end;
    }
    return Ok((handed, ELF_HEADER_SIZE + size));
  }

  ghost function Preceded(handed: seq<seq<Byte>>, r: Attempt<(seq<seq<Byte>>, nat)>)
    : Attempt<(seq<seq<Byte>>, nat)>
  {
    match r
    case Ok((rest, stop)) => Ok((handed + rest, stop))
    case Failed => Failed
    case Undefined => Undefined
  }

  lemma PrecededByNothing(r: Attempt<(seq<seq<Byte>>, nat)>)
    ensures Preceded([], r) == r
  {
    if r.Ok? {
      assert [] + r.value.0 == r.value.0;
    }
  }

  lemma PrecededByBoth(a: seq<seq<Byte>>, b: seq<seq<Byte>>, r: Attempt<(seq<seq<Byte>>, nat)>)
    ensures Preceded(a, Preceded(b, r)) == Preceded(a + b, r)
  {
    if r.Ok? {
      assert a + (b + r.value.0) == a + b + r.value.0;
    }
  }
}
