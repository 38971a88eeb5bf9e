/**
 What rewriting does to a well-formed fatbin: the same regions and sections in the same order, each
 section plain, its payload the data its block stands for, padded with zeros to a multiple of 8.
 */
module FatbinMeaning {
  import opened Attempts
  import opened Bytes
  import opened FatbinLayout
  import opened FatbinRewriter
  import opened Lz4Block
  import opened Lz4Laws

  /* ---------- compressed fatbins ---------- */

  datatype Section = Section(header: seq<Byte>, block: Block)

  datatype Region = Region(header: seq<Byte>, sections: seq<Section>)

  predicate ValidSection(s: Section) {
    ValidBlock(s.block) && TEXT_HEADER_SIZE <= |s.header| && NameEnd(s.header) < |s.header| &&
    var h := TextHeaderOf(s.header);
    h.headerSize == |s.header| && h.compressedSize == |EncodeBlock(s.block)| &&
    h.decompressedSize == |Expand(s.block)|
  }

  /** Where the compressed data of a section at `at` ends. */
  function CompressedEnd(at: nat, s: Section): nat
    requires ValidSection(s)
  {
    at + |s.header| + |EncodeBlock(s.block)|
  }

  function SectionBytes(address: nat, at: nat, s: Section): (r: seq<Byte>)
    requires ValidSection(s)
    ensures |r| > TEXT_HEADER_SIZE
  {
    s.header + EncodeBlock(s.block) + Zeros(InputPadding(address + CompressedEnd(at, s)))
  }

  predicate ValidSections(ss: seq<Section>) {
    forall s :: s in ss ==> ValidSection(s)
  }

  function SectionsBytes(address: nat, at: nat, ss: seq<Section>): seq<Byte>
    requires ValidSections(ss)
    decreases |ss|
  {
    if ss == [] then []
    else
      var first := SectionBytes(address, at, ss[0]);
      first + SectionsBytes(address, at + |first|, ss[1..])
  }

  /** A header, at least one section, and the header's size is that of the sections. */
  predicate ValidRegion(address: nat, at: nat, r: Region) {
    |r.header| == ELF_HEADER_SIZE && r.sections != [] && ValidSections(r.sections) &&
    ElfHeaderAt(r.header, 0) == Ok(|SectionsBytes(address, at + ELF_HEADER_SIZE, r.sections)|)
  }

  function RegionBytes(address: nat, at: nat, r: Region): (b: seq<Byte>)
    requires ValidRegion(address, at, r)
    ensures |b| > ELF_HEADER_SIZE
  {
    r.header + SectionsBytes(address, at + ELF_HEADER_SIZE, r.sections)
  }

  predicate ValidFatbin(address: nat, at: nat, rs: seq<Region>)
    decreases |rs|
  {
    rs == [] ||
    (ValidRegion(address, at, rs[0]) && ValidFatbin(address, at + |RegionBytes(address, at, rs[0])|, rs[1..]))
  }

  function FatbinBytes(address: nat, at: nat, rs: seq<Region>): seq<Byte>
    requires ValidFatbin(address, at, rs)
    decreases |rs|
  {
    if rs == [] then []
    else
      var first := RegionBytes(address, at, rs[0]);
      first + FatbinBytes(address, at + |first|, rs[1..])
  }

  /* ---------- plain fatbins ---------- */

  function PaddedData(s: Section): seq<Byte>
    requires ValidSection(s)
  {
    Expand(s.block) + Zeros(OutputPadding(|Expand(s.block)|))
  }

  function NewHeader(s: Section): (h: seq<Byte>)
    requires ValidSection(s)
    ensures |h| == |s.header|
  {
    Put(PlainHeader(s.header, 0, TextHeaderOf(s.header)), SIZE_AT, 8, |PaddedData(s)|)
  }

  function NewSection(s: Section): (r: seq<Byte>)
    requires ValidSection(s)
    ensures |r| >= TEXT_HEADER_SIZE
  {
    NewHeader(s) + PaddedData(s)
  }

  function NewSections(ss: seq<Section>): seq<Byte>
    requires ValidSections(ss)
  {
    if ss == [] then [] else NewSection(ss[0]) + NewSections(ss[1..])
  }

  function NewRegion(r: Region): seq<Byte>
    requires |r.header| == ELF_HEADER_SIZE && ValidSections(r.sections)
  {
    Put(r.header, ELF_SIZE_AT, 8, |NewSections(r.sections)|) + NewSections(r.sections)
  }

  function NewFatbin(address: nat, at: nat, rs: seq<Region>): seq<Byte>
    requires ValidFatbin(address, at, rs)
    decreases |rs|
  {
    if rs == [] then []
    else NewRegion(rs[0]) + NewFatbin(address, at + |RegionBytes(address, at, rs[0])|, rs[1..])
  }

  /* ---------- one section ---------- */

  /**
   The output while a region is being written: what came `before` it, its header with the size of
   the `body` written so far, the body, and `spare` allocated bytes.
   */
  predicate Shape(o: Output, before: seq<Byte>, header: seq<Byte>, body: seq<Byte>, spare: seq<Byte>) {
    |header| == ELF_HEADER_SIZE &&
    o == Output(before + Put(header, ELF_SIZE_AT, 8, |body|) + body + spare,
                |before| + ELF_HEADER_SIZE + |body|, |before|)
  }

  lemma AddToSize(before: seq<Byte>, header: seq<Byte>, size: nat, rest: seq<Byte>, n: nat)
    requires |header| == ELF_HEADER_SIZE && size < U64
    ensures AddTo(before + Put(header, ELF_SIZE_AT, 8, size) + rest, |before| + ELF_SIZE_AT, n) ==
            before + Put(header, ELF_SIZE_AT, 8, size + n) + rest
  {
    var h := Put(header, ELF_SIZE_AT, 8, size);
    PutGetSize(header, ELF_SIZE_AT, size);
    PutMiddle(before, h, rest, ELF_SIZE_AT, 8, size + n);
    PutPut(header, ELF_SIZE_AT, 8, size, size + n);
  }

  lemma PlainHeaderMiddle(a: seq<Byte>, h: seq<Byte>, c: seq<Byte>, header: TextHeader)
    requires |h| >= TEXT_HEADER_SIZE
    ensures PlainHeader(a + h + c, |a|, header) == a + PlainHeader(h, 0, header) + c
  {
    var h1 := Put(h, FLAGS_AT, 8, ClearCompress(Field(h, FLAGS_AT, 8)));
    var h2 := Put(h1, COMPRESSED_SIZE_AT, 4, 0);
    var h3 := Put(h2, DECOMPRESSED_SIZE_AT, 8, 0);
    PutMiddle(a, h, c, FLAGS_AT, 8, ClearCompress(Field(h, FLAGS_AT, 8)));
    PutMiddle(a, h1, c, COMPRESSED_SIZE_AT, 4, 0);
    PutMiddle(a, h2, c, DECOMPRESSED_SIZE_AT, 8, 0);
    PutMiddle(a, h3, c, SIZE_AT, 8, header.decompressedSize);
  }

  /** The memory while a section is written: all before its header. */
  function Written(before: seq<Byte>, header: seq<Byte>, size: nat, body: seq<Byte>): seq<Byte>
    requires |header| == ELF_HEADER_SIZE
  {
    before + Put(header, ELF_SIZE_AT, 8, size) + body
  }

  lemma WrittenGrows(before: seq<Byte>, header: seq<Byte>, size: nat, body: seq<Byte>, rest: seq<Byte>, n: nat)
    requires |header| == ELF_HEADER_SIZE && size < U64
    ensures AddTo(Written(before, header, size, body) + rest, |before| + ELF_SIZE_AT, n) ==
            Written(before, header, size + n, body) + rest
  {
    AddToSize(before, header, size, body + rest, n);
    assert Written(before, header, size, body) + rest == before + Put(header, ELF_SIZE_AT, 8, size) + (body + rest);
  }

  lemma RegionSizeGrows(o: Output, before: seq<Byte>, header: seq<Byte>, body: seq<Byte>, spare: seq<Byte>, n: nat)
    requires Shape(o, before, header, body, spare) && |body| < U64
    ensures AddTo(o.mem, o.elfAt + ELF_SIZE_AT, n) == Written(before, header, |body| + n, body) + spare
  {
    hide Put, AddTo, Field;
    WrittenGrows(before, header, |body|, body, spare, n);
  }

  lemma HeaderCopied(written: seq<Byte>, text: seq<Byte>, spare: seq<Byte>, h: TextHeader)
    requires TEXT_HEADER_SIZE <= |text| <= |spare|
    ensures PlainHeader(Splice(written + spare, |written|, text), |written|, h) ==
            written + PlainHeader(text, 0, h) + spare[|text|..]
  {
    SpliceEnd(written, spare, text);
    PlainHeaderMiddle(written, text, spare[|text|..], h);
  }

  lemma WriteHeaderUnfolds(data: seq<Byte>, at: nat, text: seq<Byte>, h: TextHeader, o: Output)
    requires TEXT_HEADER_SIZE <= |text| == h.headerSize && Holds(data, at, text)
    requires o.elfAt + ELF_HEADER_SIZE <= |o.mem| && o.size + |text| <= |o.mem|
    ensures var m := AddTo(o.mem, o.elfAt + ELF_SIZE_AT, h.decompressedSize + |text|);
            WriteHeader(data, at, h, o) ==
            Ok(Opened(Output(PlainHeader(Splice(m, o.size, text), o.size, h),
                             o.size + h.decompressedSize + |text|, o.elfAt), o.size))
  {
    hide PlainHeader, AddTo, Splice;
  }

  /** A section's header `text`, appended and made plain. */
  lemma HeaderWritten(data: seq<Byte>, at: nat, text: seq<Byte>, h: TextHeader, o: Output,
                      before: seq<Byte>, header: seq<Byte>, body: seq<Byte>, spare: seq<Byte>)
    requires TEXT_HEADER_SIZE <= |text| <= |spare| && h.headerSize == |text| && Holds(data, at, text)
    requires Shape(o, before, header, body, spare) && |body| < U64
    ensures var written := Written(before, header, |body| + h.decompressedSize + |text|, body);
            WriteHeader(data, at, h, o) ==
            Ok(Opened(Output(written + PlainHeader(text, 0, h) + spare[|text|..],
                             |written| + |text| + h.decompressedSize, |before|), |written|))
  {
    hide PlainHeader, AddTo, Splice, WriteHeader;
    var n := h.decompressedSize + |text|;
    RegionSizeGrows(o, before, header, body, spare, n);
    HeaderCopied(Written(before, header, |body| + n, body), text, spare, h);
    WriteHeaderUnfolds(data, at, text, h, o);
  }

  /** The data of a valid block, decompressed right after the section's header. */
  lemma DataWritten(data: seq<Byte>, at: nat, b: Block, h: TextHeader, written: seq<Byte>, plain: seq<Byte>,
                    spare: seq<Byte>, size: nat, elfAt: nat)
    requires ValidBlock(b) && h.compressedSize == |EncodeBlock(b)| && h.decompressedSize == |Expand(b)|
    requires h.headerSize == |plain| && Holds(data, at + |plain|, EncodeBlock(b))
    requires |Expand(b)| <= |spare|
    ensures FillSection(data, at, h, Opened(Output(written + plain + spare, size, elfAt), |written|)) ==
            Ok(Opened(Output(written + plain + Expand(b) + spare[|Expand(b)|..], size, elfAt), |written|))
  {
    hide RepresentableBlock, Grounded, Run, EncodeBlock, Expand, Splice;
    var input, mem := data[at + |plain|..], written + plain + spare;
    assert EncodeBlock(b) <= input by {
      assert input[..|EncodeBlock(b)|] == data[at + |plain|..at + |plain| + |EncodeBlock(b)|];
    }
    BlockDecodes(input, |written + plain|, |Expand(b)|, mem, b);
    SpliceEnd(written + plain, spare, Expand(b));
  }

  /** Padding after `payload`, when there is room for it. */
  lemma PaddingWritten(h: TextHeader, before: seq<Byte>, header: seq<Byte>, size: nat, body: seq<Byte>,
                       plain: seq<Byte>, payload: seq<Byte>, spare: seq<Byte>, end: nat)
    requires |header| == ELF_HEADER_SIZE && size < U64
    requires |plain| >= TEXT_HEADER_SIZE && h.headerSize == |plain| && h.decompressedSize == |payload| < U64
    requires Field(plain, SIZE_AT, 8) == |payload|
    ensures var pad := OutputPadding(|payload|);
            var o := Output(Written(before, header, size, body) + plain + payload + spare, end, |before|);
            PadOutput(h, Opened(o, |Written(before, header, size, body)|)) ==
            if pad > |spare| then Undefined
            else Ok(Output(Written(before, header, size + pad, body) + Put(plain, SIZE_AT, 8, |payload| + pad) +
                           payload + Zeros(pad) + spare[pad..], end + pad, |before|))
  {
    hide AddTo, Splice, Put, Field;
    var pad := OutputPadding(|payload|);
    if pad <= |spare| {
      var w, w' := Written(before, header, size, body), Written(before, header, size + pad, body);
      var rest := payload + Zeros(pad) + spare[pad..];
      SpliceEnd(w + plain + payload, spare, Zeros(pad));
      assert w + plain + payload + Zeros(pad) + spare[pad..] == w + (plain + rest);
      WrittenGrows(before, header, size, body, plain + rest, pad);
      assert w' + (plain + rest) == w' + plain + rest;
      SizeGrows(w', plain, rest, |payload|, pad);
      var p := Put(plain, SIZE_AT, 8, |payload| + pad);
      assert w' + p + rest == w' + p + payload + Zeros(pad) + spare[pad..];
    }
  }

  lemma SizeGrows(a: seq<Byte>, h: seq<Byte>, c: seq<Byte>, size: nat, n: nat)
    requires |h| >= TEXT_HEADER_SIZE && Field(h, SIZE_AT, 8) == size
    ensures AddTo(a + h + c, |a| + SIZE_AT, n) == a + Put(h, SIZE_AT, 8, size + n) + c
  {
    PutMiddle(a, h, c, SIZE_AT, 8, size + n);
  }

  /** `Shape`, whatever the spare bytes are. */
  predicate Standing(o: Output, before: seq<Byte>, header: seq<Byte>, body: seq<Byte>) {
    |header| == ELF_HEADER_SIZE && o.elfAt == |before| && o.size == |before| + ELF_HEADER_SIZE + |body| &&
    o.size <= |o.mem| && o.mem[..o.size] == Written(before, header, |body|, body)
  }

  lemma StandingIsShape(o: Output, before: seq<Byte>, header: seq<Byte>, body: seq<Byte>)
    requires Standing(o, before, header, body)
    ensures Shape(o, before, header, body, o.mem[o.size..])
  {
    assert o.mem == o.mem[..o.size] + o.mem[o.size..];
  }

  /** The output before a section: the region's header is there unless the section is its first. */
  predicate Ready(o: Output, before: seq<Byte>, header: seq<Byte>, body: seq<Byte>, first: bool) {
    if first then body == [] && |header| == ELF_HEADER_SIZE && o.size == |before| <= |o.mem| &&
                  o.mem[..o.size] == before
    else Standing(o, before, header, body)
  }

  /** The room there is for the section: enough for padding only if the section is not the first. */
  lemma RoomMade(data: seq<Byte>, elf: nat, at: nat, h: TextHeader, uninitialised: nat -> Byte, o: Output,
                 before: seq<Byte>, header: seq<Byte>, body: seq<Byte>)
    requires Holds(data, elf, header) && |header| == ELF_HEADER_SIZE
    requires Ready(o, before, header, body, at == elf + ELF_HEADER_SIZE)
    ensures var room := MakeRoom(data, elf, at, h, uninitialised, o);
            Standing(room, before, header, body) &&
            |room.mem| - room.size == h.decompressedSize + h.headerSize +
                                      if at == elf + ELF_HEADER_SIZE then 0 else ELF_HEADER_SIZE
  {
    var mem := Realloc(o.mem, o.size + h.decompressedSize + ELF_HEADER_SIZE + h.headerSize, uninitialised);
    if at == elf + ELF_HEADER_SIZE {
      var spare := mem[o.size..];
      assert mem == before + spare;
      SpliceEnd(before, spare, header);
      PutMiddle(before, header, spare[ELF_HEADER_SIZE..], ELF_SIZE_AT, 8, 0);
      assert RegionHeader(mem, o.size, header) == before + Put(header, ELF_SIZE_AT, 8, 0) + spare[ELF_HEADER_SIZE..];
    } else {
      assert mem[..o.size] == o.mem[..o.size];
    }
  }

  /** The three writing steps, without the check of the input's padding between them. */
  function Append(data: seq<Byte>, at: nat, h: TextHeader, room: Output): Attempt<Output> {
    var section :- WriteHeader(data, at, h, room);
    var filled :- FillSection(data, at, h, section);
    PadOutput(h, filled)
  }

  lemma PlainHeaderSize(s: Section)
    requires ValidSection(s) && |Expand(s.block)| < U64
    ensures Field(PlainHeader(s.header, 0, TextHeaderOf(s.header)), SIZE_AT, 8) == |Expand(s.block)|
    ensures NewHeader(s) == Put(PlainHeader(s.header, 0, TextHeaderOf(s.header)), SIZE_AT, 8, |PaddedData(s)|)
  {
    hide RepresentableBlock, Grounded, EncodeBlock, Expand;
    var h := TextHeaderOf(s.header);
    var m1 := Put(s.header, FLAGS_AT, 8, ClearCompress(Field(s.header, FLAGS_AT, 8)));
    var m3 := Put(Put(m1, COMPRESSED_SIZE_AT, 4, 0), DECOMPRESSED_SIZE_AT, 8, 0);
    PutGetSize(m3, SIZE_AT, h.decompressedSize);
  }

  /** A valid section is appended whole, if there is room for its padding. */
  lemma SectionAppended(data: seq<Byte>, at: nat, s: Section, room: Output,
                        before: seq<Byte>, header: seq<Byte>, body: seq<Byte>, extra: nat)
    requires ValidSection(s) && Holds(data, at, s.header) && Holds(data, at + |s.header|, EncodeBlock(s.block))
    requires Standing(room, before, header, body) && |body + NewSection(s)| < U64
    requires |room.mem| - room.size == |Expand(s.block)| + |s.header| + extra
    ensures var r := Append(data, at, TextHeaderOf(s.header), room);
            if OutputPadding(|Expand(s.block)|) > extra then r == Undefined
            else r.Ok? && Standing(r.value, before, header, body + NewSection(s))
  {
    hide RepresentableBlock, Grounded, EncodeBlock, Expand, WriteHeader, FillSection, PadOutput, PlainHeader, Put,
         Field, Standing, Shape;
    var h, payload := TextHeaderOf(s.header), Expand(s.block);
    var plain, pad := PlainHeader(s.header, 0, h), OutputPadding(|payload|);
    StandingIsShape(room, before, header, body);
    var spare := room.mem[room.size..];
    var size := |body| + |payload| + |s.header|;
    var written := Written(before, header, size, body);
    HeaderWritten(data, at, s.header, h, room, before, header, body, spare);
    DataWritten(data, at, s.block, h, written, plain, spare[|s.header|..], |written| + |s.header| + |payload|,
                |before|);
    PlainHeaderSize(s);
    var rest := spare[|s.header|..][|payload|..];
    PaddingWritten(h, before, header, size, body, plain, payload, rest, |written| + |s.header| + |payload|);
    if pad <= extra {
      var r := Append(data, at, h, room).value;
      assert r.mem == Written(before, header, size + pad, body) + NewHeader(s) + payload + Zeros(pad) + rest[pad..];
      NowStanding(r, before, header, body, s, rest[pad..]);
    }
  }

  lemma NowStanding(o: Output, before: seq<Byte>, header: seq<Byte>, body: seq<Byte>, s: Section, rest: seq<Byte>)
    requires ValidSection(s) && |header| == ELF_HEADER_SIZE
    requires var payload := Expand(s.block); var pad := OutputPadding(|payload|);
             var written := Written(before, header, |body| + |payload| + |s.header| + pad, body);
             o.mem == written + NewHeader(s) + payload + Zeros(pad) + rest &&
             o.size == |written| + |s.header| + |payload| + pad && o.elfAt == |before|
    ensures Standing(o, before, header, body + NewSection(s))
  {
    hide RepresentableBlock, Grounded, EncodeBlock, Expand, PlainHeader, Put;
    var added := NewSection(s);
    var whole := Written(before, header, |body + added|, body + added);
    assert o.mem == whole + rest;
  }

  /* ---------- when rewriting succeeds ---------- */

  /** The header check looks 16 bytes too far: a section must start 80 bytes before the end. */
  predicate HeaderInReach(total: nat, at: nat) {
    at + ELF_HEADER_SIZE + TEXT_HEADER_SIZE <= total
  }

  /** No room is reserved for the padding of a region's first section, and six zeros are compared at most. */
  predicate PaddingFits(address: nat, at: nat, s: Section, first: bool)
    requires ValidSection(s)
  {
    InputPadding(address + CompressedEnd(at, s)) <= 6 && (first ==> |Expand(s.block)| % 8 == 0)
  }

  lemma HeaderRead(data: seq<Byte>, at: nat, s: Section)
    requires ValidSection(s) && Holds(data, at, s.header) && |data| < U64
    requires at + ELF_HEADER_SIZE <= |data| && at + |s.header| < |data|
    ensures TextHeaderAt(data, at, SizeT(|data| - at - ELF_HEADER_SIZE)) ==
            if HeaderInReach(|data|, at) then Ok(TextHeaderOf(s.header)) else Failed
  {
    hide ValidBlock, RepresentableBlock, Grounded, EncodeBlock, Expand;
    assert SizeT(|data| - at - ELF_HEADER_SIZE) == |data| - at - ELF_HEADER_SIZE;
    SameFields(data[at..], s.header);
  }

  lemma SameFields(a: seq<Byte>, b: seq<Byte>)
    requires TEXT_HEADER_SIZE <= |b| && b <= a
    ensures TextHeaderOf(a) == TextHeaderOf(b) && NameEnd(a) == NameEnd(b)
  {
    forall at: nat, width: nat | at + width <= |b|
      ensures Field(a, at, width) == Field(b, at, width)
    {
      assert a[at..at + width] == b[at..at + width];
    }
  }

  lemma PaddingChecked(data: seq<Byte>, address: nat, at: nat, s: Section)
    requires ValidSection(s) && Holds(data, at, SectionBytes(address, at, s))
    ensures var n := InputPadding(address + CompressedEnd(at, s));
            CheckPadding(data, address, at, TextHeaderOf(s.header)) ==
            if n > 6 then Undefined else Ok(|EncodeBlock(s.block)| + n)
    ensures Holds(data, at, s.header) && Holds(data, at + |s.header|, EncodeBlock(s.block))
  {
    hide RepresentableBlock, Grounded, EncodeBlock, Expand;
    var zeros := Zeros(InputPadding(address + CompressedEnd(at, s)));
    HoldsAppend(data, at, s.header + EncodeBlock(s.block), zeros);
    HoldsAppend(data, at, s.header, EncodeBlock(s.block));
  }

  /** One section rewritten, exactly when its padding fits. */
  lemma SectionRewritten(data: seq<Byte>, address: nat, elf: nat, at: nat, s: Section, uninitialised: nat -> Byte,
                         o: Output, before: seq<Byte>, header: seq<Byte>, body: seq<Byte>)
    requires ValidSection(s) && Holds(data, at, SectionBytes(address, at, s))
    requires Holds(data, elf, header) && |header| == ELF_HEADER_SIZE
    requires Ready(o, before, header, body, at == elf + ELF_HEADER_SIZE) && |body + NewSection(s)| < U64
    ensures var r := RewriteSection(data, address, elf, at, TextHeaderOf(s.header), uninitialised, o);
            if PaddingFits(address, at, s, at == elf + ELF_HEADER_SIZE)
            then r.Ok? && Standing(r.value.0, before, header, body + NewSection(s)) &&
                 r.value.1 == |SectionBytes(address, at, s)| - |s.header|
            else r == Undefined
  {
    hide RepresentableBlock, Grounded, EncodeBlock, Expand, WriteHeader, FillSection, PadOutput, MakeRoom,
         Standing, CheckPadding, Ready;
    var h, first := TextHeaderOf(s.header), at == elf + ELF_HEADER_SIZE;
    RoomMade(data, elf, at, h, uninitialised, o, before, header, body);
    PaddingChecked(data, address, at, s);
    var room := MakeRoom(data, elf, at, h, uninitialised, o);
    var extra := if first then 0 else ELF_HEADER_SIZE;
    SectionAppended(data, at, s, room, before, header, body, extra);
    FirstIsMultiple(|Expand(s.block)|);
    WritingSucceeds(data, at, h, room);
  }

  lemma FirstIsMultiple(size: nat)
    ensures OutputPadding(size) == 0 <==> size % 8 == 0
  {
  }

  /** Filling the section fails only if decompressing does; `Append` tells. */
  lemma WritingSucceeds(data: seq<Byte>, at: nat, h: TextHeader, room: Output)
    requires Append(data, at, h, room) == Undefined || Append(data, at, h, room).Ok?
    ensures var r := WriteHeader(data, at, h, room);
            r == Undefined || (r.Ok? && !FillSection(data, at, h, r.value).Failed?)
  {
    hide WriteHeader, FillSection, PadOutput;
  }

  predicate SectionFits(total: nat, address: nat, at: nat, s: Section, first: bool)
    requires ValidSection(s)
  {
    HeaderInReach(total, at) && PaddingFits(address, at, s, first)
  }

  predicate SectionsFit(total: nat, address: nat, at: nat, ss: seq<Section>, first: bool)
    requires ValidSections(ss)
    decreases |ss|
  {
    ss == [] ||
    (SectionFits(total, address, at, ss[0], first) &&
     SectionsFit(total, address, at + |SectionBytes(address, at, ss[0])|, ss[1..], false))
  }

  lemma NextRewritten(data: seq<Byte>, address: nat, elf: nat, at: nat, s: Section, uninitialised: nat -> Byte,
                      o: Output, before: seq<Byte>, header: seq<Byte>, body: seq<Byte>)
    requires ValidSection(s) && Holds(data, at, SectionBytes(address, at, s)) && |data| < U64
    requires Holds(data, elf, header) && |header| == ELF_HEADER_SIZE
    requires Ready(o, before, header, body, at == elf + ELF_HEADER_SIZE) && |body + NewSection(s)| < U64
    ensures var r := RewriteNext(data, address, elf, at, uninitialised, o);
            if SectionFits(|data|, address, at, s, at == elf + ELF_HEADER_SIZE)
            then r.Ok? && Standing(r.value.0, before, header, body + NewSection(s)) &&
                 r.value.1 == at + |SectionBytes(address, at, s)|
            else !r.Ok?
  {
    hide RepresentableBlock, Grounded, EncodeBlock, Expand, Standing, Ready, RewriteSection, PaddingFits, NewSection;
    PaddingChecked(data, address, at, s);
    HeaderRead(data, at, s);
    SectionRewritten(data, address, elf, at, s, uninitialised, o, before, header, body);
  }

  /** What the list of sections is made of, around its first. */
  lemma FirstSection(data: seq<Byte>, address: nat, at: nat, ss: seq<Section>)
    requires ss != [] && ValidSections(ss) && Holds(data, at, SectionsBytes(address, at, ss))
    ensures ValidSection(ss[0]) && ValidSections(ss[1..])
    ensures var first := SectionBytes(address, at, ss[0]);
            Holds(data, at, first) && Holds(data, at + |first|, SectionsBytes(address, at + |first|, ss[1..])) &&
            |SectionsBytes(address, at, ss)| == |first| + |SectionsBytes(address, at + |first|, ss[1..])|
    ensures NewSections(ss) == NewSection(ss[0]) + NewSections(ss[1..])
  {
    hide ValidSection, SectionBytes, NewSection;
    var first := SectionBytes(address, at, ss[0]);
    HoldsAppend(data, at, first, SectionsBytes(address, at + |first|, ss[1..]));
  }

  lemma SomeSectionsTakeRoom(address: nat, at: nat, ss: seq<Section>)
    requires ValidSections(ss)
    ensures |SectionsBytes(address, at, ss)| > 0 <==> ss != []
  {
  }

  lemma {:induction false} SectionsRewritten(
      data: seq<Byte>, address: nat, elf: nat, at: nat, ss: seq<Section>, uninitialised: nat -> Byte,
      o: Output, before: seq<Byte>, header: seq<Byte>, body: seq<Byte>)
    requires ss != [] && ValidSections(ss) && Holds(data, at, SectionsBytes(address, at, ss)) && |data| < U64
    requires Holds(data, elf, header) && |header| == ELF_HEADER_SIZE && elf + ELF_HEADER_SIZE <= at
    requires RegionEnd(data, elf) == at + |SectionsBytes(address, at, ss)|
    requires Ready(o, before, header, body, at == elf + ELF_HEADER_SIZE) && |body + NewSections(ss)| < U64
    ensures var r := RewriteSections(data, address, elf, at, uninitialised, o);
            if SectionsFit(|data|, address, at, ss, at == elf + ELF_HEADER_SIZE)
            then r.Ok? && Standing(r.value.0, before, header, body + NewSections(ss)) &&
              r.value.1 == RegionEnd(data, elf)
            else !r.Ok?
    decreases |ss|
  {
    hide ValidSection, SectionBytes, NewSection, RewriteNext, SectionFits, Standing;
    FirstSection(data, address, at, ss);
    var next := at + |SectionBytes(address, at, ss[0])|;
    NextRewritten(data, address, elf, at, ss[0], uninitialised, o, before, header, body);
    SomeSectionsTakeRoom(address, next, ss[1..]);
    if SectionFits(|data|, address, at, ss[0], at == elf + ELF_HEADER_SIZE) {
      var o' := RewriteNext(data, address, elf, at, uninitialised, o).value.0;
      assert body + NewSections(ss) == body + NewSection(ss[0]) + NewSections(ss[1..]);
      if ss[1..] == [] {
        assert SectionsFit(|data|, address, next, ss[1..], false);
        assert body + NewSection(ss[0]) + [] == body + NewSection(ss[0]);
      } else {
        SectionsRewritten(data, address, elf, next, ss[1..], uninitialised, o', before, header,
          body + NewSection(ss[0]));
      }
    }
  }

  /* ---------- whole fatbins ---------- */

  predicate FatbinFits(total: nat, address: nat, at: nat, rs: seq<Region>)
    requires ValidFatbin(address, at, rs)
    decreases |rs|
  {
    rs == [] ||
    (SectionsFit(total, address, at + ELF_HEADER_SIZE, rs[0].sections, true) &&
     FatbinFits(total, address, at + |RegionBytes(address, at, rs[0])|, rs[1..]))
  }

  lemma RegionHeaderRead(data: seq<Byte>, at: nat, header: seq<Byte>)
    requires |header| == ELF_HEADER_SIZE && Holds(data, at, header)
    ensures ElfHeaderAt(data, at) == ElfHeaderAt(header, 0)
    ensures RegionEnd(data, at) == at + ELF_HEADER_SIZE + Field(header, ELF_SIZE_AT, 8)
  {
    hide Field, Holds;
    HeldField(data, at, header, 0, 4);
    HeldField(data, at, header, 4, 2);
    HeldField(data, at, header, 6, 2);
    HeldField(data, at, header, ELF_SIZE_AT, 8);
    HeldInside(data, at, header);
  }

  lemma HeldInside(data: seq<Byte>, at: nat, held: seq<Byte>)
    requires Holds(data, at, held)
    ensures at + |held| <= |data|
  {
  }

  lemma HeldField(data: seq<Byte>, at: nat, held: seq<Byte>, k: nat, width: nat)
    requires Holds(data, at, held) && k + width <= |held|
    ensures Field(data, at + k, width) == Field(held, k, width)
  {
    hide FromLE;
    forall j | at <= j < at + |held|
      ensures data[j] == held[j - at]
    {
      assert data[at..at + |held|][j - at] == data[j];
    }
    assert data[at + k..at + k + width] == held[k..k + width];
  }

  /** What the output holds between two regions. */
  predicate Finished(o: Output, before: seq<Byte>) {
    o.size == |before| <= |o.mem| && o.mem[..o.size] == before
  }

  lemma RegionHeld(data: seq<Byte>, address: nat, at: nat, r: Region)
    requires ValidRegion(address, at, r) && Holds(data, at, RegionBytes(address, at, r))
    ensures Holds(data, at, r.header) && at + ELF_HEADER_SIZE <= |data| && ElfHeaderAt(data, at).Ok?
    ensures var body := SectionsBytes(address, at + ELF_HEADER_SIZE, r.sections);
            Holds(data, at + ELF_HEADER_SIZE, body) && RegionEnd(data, at) == at + ELF_HEADER_SIZE + |body| &&
            RegionEnd(data, at) == at + |RegionBytes(address, at, r)|
  {
    hide Field, Holds, SectionsBytes, ValidSections;
    HoldsAppend(data, at, r.header, SectionsBytes(address, at + ELF_HEADER_SIZE, r.sections));
    HeldInside(data, at, r.header);
    RegionHeaderRead(data, at, r.header);
  }

  lemma RegionFinished(o: Output, before: seq<Byte>, r: Region)
    requires |r.header| == ELF_HEADER_SIZE && ValidSections(r.sections)
    requires Standing(o, before, r.header, NewSections(r.sections))
    ensures Finished(o, before + NewRegion(r))
  {
    hide NewSections, Put, ValidSections;
    var header := Put(r.header, ELF_SIZE_AT, 8, |NewSections(r.sections)|);
    assert before + NewRegion(r) == before + header + NewSections(r.sections);
  }

  lemma RegionRewritten(data: seq<Byte>, address: nat, at: nat, r: Region, uninitialised: nat -> Byte,
                        o: Output, before: seq<Byte>)
    requires ValidRegion(address, at, r) && Holds(data, at, RegionBytes(address, at, r)) && |data| < U64
    requires Finished(o, before) && |NewRegion(r)| < U64
    ensures Holds(data, at, r.header) && ElfHeaderAt(data, at).Ok?
    ensures var out := RewriteSections(data, address, at, at + ELF_HEADER_SIZE, uninitialised, o);
            if SectionsFit(|data|, address, at + ELF_HEADER_SIZE, r.sections, true)
            then out.Ok? && Finished(out.value.0, before + NewRegion(r)) &&
                 out.value.1 == at + |RegionBytes(address, at, r)|
            else !out.Ok?
  {
    hide Holds, ElfHeaderAt, RegionEnd, RegionBytes, NewRegion, SectionsBytes, NewSections, RewriteSections,
         SectionsFit, Standing, Put, Finished, ValidSection;
    RegionHeld(data, address, at, r);
    StartReady(o, before, r);
    SectionsRewritten(data, address, at, at + ELF_HEADER_SIZE, r.sections, uninitialised, o, before, r.header, []);
    assert [] + NewSections(r.sections) == NewSections(r.sections);
    if SectionsFit(|data|, address, at + ELF_HEADER_SIZE, r.sections, true) {
      var out := RewriteSections(data, address, at, at + ELF_HEADER_SIZE, uninitialised, o).value.0;
      RegionFinished(out, before, r);
    }
  }

  lemma StartReady(o: Output, before: seq<Byte>, r: Region)
    requires Finished(o, before) && |r.header| == ELF_HEADER_SIZE && ValidSections(r.sections)
    ensures Ready(o, before, r.header, [], true) && |NewSections(r.sections)| <= |NewRegion(r)|
  {
    hide NewSections, Put, ValidSections;
  }

  /** Where the region after the first one starts. */
  function AfterFirst(address: nat, at: nat, rs: seq<Region>): (next: nat)
    requires rs != [] && ValidFatbin(address, at, rs)
    ensures next > at + ELF_HEADER_SIZE && ValidRegion(address, at, rs[0]) && ValidFatbin(address, next, rs[1..])
  {
    at + |RegionBytes(address, at, rs[0])|
  }

  /** What the list of regions is made of, around its first. */
  lemma FirstRegion(data: seq<Byte>, address: nat, at: nat, rs: seq<Region>)
    requires rs != [] && ValidFatbin(address, at, rs) && Holds(data, at, FatbinBytes(address, at, rs))
    ensures ValidRegion(address, at, rs[0])
    ensures var next := AfterFirst(address, at, rs);
            next == at + |RegionBytes(address, at, rs[0])| && Holds(data, at, RegionBytes(address, at, rs[0])) &&
            Holds(data, next, FatbinBytes(address, next, rs[1..])) &&
            at + |FatbinBytes(address, at, rs)| == next + |FatbinBytes(address, next, rs[1..])|
  {
    hide ValidRegion, RegionBytes;
    var next := AfterFirst(address, at, rs);
    HoldsAppend(data, at, RegionBytes(address, at, rs[0]), FatbinBytes(address, next, rs[1..]));
  }

  lemma FirstNewRegion(address: nat, at: nat, rs: seq<Region>)
    requires rs != [] && ValidFatbin(address, at, rs)
    requires |rs[0].header| == ELF_HEADER_SIZE && ValidSections(rs[0].sections)
    ensures NewFatbin(address, at, rs) == NewRegion(rs[0]) + NewFatbin(address, AfterFirst(address, at, rs), rs[1..])
  {
    hide ValidRegion, RegionBytes, NewRegion;
  }

  lemma RegionSizes(address: nat, at: nat, rs: seq<Region>)
    requires rs != [] && ValidFatbin(address, at, rs)
    ensures |rs[0].header| == ELF_HEADER_SIZE && ValidSections(rs[0].sections)
    ensures |RegionBytes(address, at, rs[0])| > ELF_HEADER_SIZE && ELF_HEADER_SIZE == 16
  {
  }

  /** One turn of the outer loop. */
  lemma RegionsUnfold(data: seq<Byte>, address: nat, at: nat, uninitialised: nat -> Byte, o: Output)
    requires at + ELF_HEADER_SIZE <= |data| && ElfHeaderAt(data, at).Ok?
    ensures var s := RewriteSections(data, address, at, at + ELF_HEADER_SIZE, uninitialised, o);
            var r := RewriteRegions(data, address, at, uninitialised, o);
            if s.Ok? then r == RewriteRegions(data, address, s.value.1, uninitialised, s.value.0) else !r.Ok?
  {
    hide RewriteSections, ElfHeaderAt;
  }

  lemma FitsUnfold(total: nat, address: nat, at: nat, rs: seq<Region>)
    requires rs != [] && ValidFatbin(address, at, rs) && ValidSections(rs[0].sections)
    ensures FatbinFits(total, address, at, rs) <==>
            SectionsFit(total, address, at + ELF_HEADER_SIZE, rs[0].sections, true) &&
            FatbinFits(total, address, AfterFirst(address, at, rs), rs[1..])
  {
    hide RegionBytes, ValidRegion, SectionsFit;
  }

  /** The outer loop, from the regions `rs` on, does what it should. */
  predicate RegionsDone(data: seq<Byte>, address: nat, at: nat, rs: seq<Region>,
                        uninitialised: nat -> Byte, o: Output, before: seq<Byte>)
    requires at <= |data| && ValidFatbin(address, at, rs)
  {
    var r := RewriteRegions(data, address, at, uninitialised, o);
    if FatbinFits(|data|, address, at, rs) then r.Ok? && Finished(r.value, before + NewFatbin(address, at, rs))
    else !r.Ok?
  }

  /** The regions `rs` lie at `at`, to the end of the data, and the output so far is `before`. */
  predicate RegionsAhead(data: seq<Byte>, address: nat, at: nat, rs: seq<Region>, o: Output, before: seq<Byte>) {
    ValidFatbin(address, at, rs) && Holds(data, at, FatbinBytes(address, at, rs)) &&
    |data| == at + |FatbinBytes(address, at, rs)| < U64 &&
    Finished(o, before) && |NewFatbin(address, at, rs)| < U64
  }

  lemma RegionStep(data: seq<Byte>, address: nat, at: nat, rs: seq<Region>, uninitialised: nat -> Byte,
                   o: Output, before: seq<Byte>) returns (next: nat, o': Output, before': seq<Byte>)
    requires RegionsAhead(data, address, at, rs, o, before) && rs != []
    requires SectionsFit(|data|, address, at + ELF_HEADER_SIZE, rs[0].sections, true)
    ensures RegionsAhead(data, address, next, rs[1..], o', before')
    ensures RegionsDone(data, address, next, rs[1..], uninitialised, o', before') ==>
            RegionsDone(data, address, at, rs, uninitialised, o, before)
  {
    hide ValidRegion, RegionBytes, NewRegion, RewriteSections, SectionsFit, Finished, ElfHeaderAt, ValidFatbin,
         FatbinBytes, NewFatbin, FatbinFits, RewriteRegions;
    FirstRegion(data, address, at, rs);
    RegionSizes(address, at, rs);
    FirstNewRegion(address, at, rs);
    RegionRewritten(data, address, at, rs[0], uninitialised, o, before);
    RegionsUnfold(data, address, at, uninitialised, o);
    FitsUnfold(|data|, address, at, rs);
    next, before' := AfterFirst(address, at, rs), before + NewRegion(rs[0]);
    o' := RewriteSections(data, address, at, at + ELF_HEADER_SIZE, uninitialised, o).value.0;
    assert before + NewFatbin(address, at, rs) == before' + NewFatbin(address, next, rs[1..]);
  }

  lemma RegionStops(data: seq<Byte>, address: nat, at: nat, rs: seq<Region>, uninitialised: nat -> Byte,
                    o: Output, before: seq<Byte>)
    requires RegionsAhead(data, address, at, rs, o, before) && rs != [] && ValidSections(rs[0].sections)
    requires !SectionsFit(|data|, address, at + ELF_HEADER_SIZE, rs[0].sections, true)
    ensures RegionsDone(data, address, at, rs, uninitialised, o, before)
  {
    hide ValidRegion, RegionBytes, NewRegion, RewriteSections, SectionsFit, Finished, ElfHeaderAt, ValidFatbin,
         FatbinBytes, NewFatbin, FatbinFits, RewriteRegions;
    FirstRegion(data, address, at, rs);
    RegionSizes(address, at, rs);
    FirstNewRegion(address, at, rs);
    RegionRewritten(data, address, at, rs[0], uninitialised, o, before);
    RegionsUnfold(data, address, at, uninitialised, o);
    FitsUnfold(|data|, address, at, rs);
  }

  lemma {:induction false} RegionsRewritten(data: seq<Byte>, address: nat, at: nat, rs: seq<Region>,
                                            uninitialised: nat -> Byte, o: Output, before: seq<Byte>)
    requires RegionsAhead(data, address, at, rs, o, before)
    ensures RegionsDone(data, address, at, rs, uninitialised, o, before)
    decreases |rs|
  {
    if rs == [] {
      assert before + NewFatbin(address, at, rs) == before;
    } else {
      hide RegionBytes, NewRegion, SectionsFit, Finished, FatbinBytes, NewFatbin, FatbinFits, RewriteRegions,
           ValidFatbin;
      RegionSizes(address, at, rs);
      if SectionsFit(|data|, address, at + ELF_HEADER_SIZE, rs[0].sections, true) {
        var next, o', before' := RegionStep(data, address, at, rs, uninitialised, o, before);
        RegionsRewritten(data, address, next, rs[1..], uninitialised, o', before');
      } else {
        RegionStops(data, address, at, rs, uninitialised, o, before);
      }
    }
  }

  /**
   A well-formed compressed fatbin is rewritten to its plain form if and only if every section
   starts 80 bytes before the end, is followed by at most six zeros, and, if it is the first of its
   region, has a decompressed size that is a multiple of 8. Whatever memory `realloc` hands out.
   */
  lemma FatbinRewritten(address: nat, rs: seq<Region>, uninitialised: nat -> Byte)
    requires ValidFatbin(address, 0, rs) && |FatbinBytes(address, 0, rs)| < U64 && |NewFatbin(address, 0, rs)| < U64
    ensures var data := FatbinBytes(address, 0, rs);
            var r := RewriteRegions(data, address, 0, uninitialised, Output([], 0, 0));
            if FatbinFits(|data|, address, 0, rs)
            then r.Ok? && r.value.size <= |r.value.mem| && r.value.mem[..r.value.size] == NewFatbin(address, 0, rs)
            else !r.Ok?
  {
    hide RewriteRegions, ValidFatbin, FatbinBytes, NewFatbin, FatbinFits;
    var data := FatbinBytes(address, 0, rs);
    assert Holds(data, 0, data);
    assert [] + NewFatbin(address, 0, rs) == NewFatbin(address, 0, rs);
    RegionsRewritten(data, address, 0, rs, uninitialised, Output([], 0, 0), []);
  }
}
