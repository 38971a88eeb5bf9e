/**
 Fatbins in numbers: where the members of the headers lie, what the rewriter makes of every byte of them,
 and where the walk and the rewriter go on after a section.
 */
module FatbinNumbers {
  import opened Attempts
  import opened Bytes
  import opened FatbinLayout
  import opened FatbinRewriter
  import opened FatbinWalk
  import opened FatbinMeaning
  import opened FatbinWalkLaws
  import opened Lz4Block

  /** From `from` up to `to` there are zeros. */
  predicate ZerosBetween(data: seq<Byte>, from: nat, to: nat) {
    from <= to <= |data| && forall i :: from <= i < to ==> data[i] == 0
  }

  /** `padded` is `size`, made a multiple of 8 with as little as possible. */
  predicate RoundedUp(size: nat, padded: nat) {
    size <= padded < size + 8 && padded % 8 == 0
  }

  /* ---------- headers ---------- */

  /** The sixteen bytes of a region's header: the number 0xBA55ED50, 1, 16, and the size. */
  lemma RegionHeaderInNumbers(data: seq<Byte>, pos: nat)
    requires pos <= |data|
    ensures var r := ElfHeaderAt(data, pos);
            if pos + 16 <= |data| && data[pos..pos + 8] == [0x50, 0xED, 0x55, 0xBA, 1, 0, 16, 0]
            then r == Ok(Field(data, pos + 8, 8)) else r == Failed
  {
    if pos + 16 <= |data| {
      hide Field;
      var h := data[pos..pos + 8];
      FourBytes(data, pos);
      TwoBytes(data, pos + 4);
      TwoBytes(data, pos + 6);
      assert forall i :: 0 <= i < 8 ==> h[i] == data[pos + i];
    }
  }

  lemma FieldBehind(data: seq<Byte>, pos: nat, at: nat, width: nat)
    requires pos + at + width <= |data|
    ensures Field(data[pos..], at, width) == Field(data, pos + at, width)
  {
    hide FromLE;
    assert data[pos..][at..at + width] == data[pos + at..pos + at + width];
  }

  /** The members of a section's header, wherever it lies. */
  lemma SectionHeaderInNumbers(data: seq<Byte>, pos: nat, available: nat)
    requires TextHeaderAt(data, pos, available).Ok?
    ensures available >= 64 && pos + 64 <= |data|
    ensures TextHeaderAt(data, pos, available).value ==
            TextHeader(Field(data, pos, 2), Field(data, pos + 4, 4), Field(data, pos + 8, 8),
                       Field(data, pos + 16, 4), Field(data, pos + 40, 8), Field(data, pos + 56, 8))
  {
    hide NameEnd, Field;
    FieldBehind(data, pos, 0, 2);
    FieldBehind(data, pos, 4, 4);
    FieldBehind(data, pos, 8, 8);
    FieldBehind(data, pos, 16, 4);
    FieldBehind(data, pos, 40, 8);
    FieldBehind(data, pos, 56, 8);
  }

  /** When the check of a section's header passes: it looks at one byte beyond the object name. */
  lemma SectionHeaderChecked(data: seq<Byte>, pos: nat, available: nat)
    ensures var r := TextHeaderAt(data, pos, available);
            if available < 64 then r == Failed
            else if pos + 64 > |data| then r == Undefined
            else
              var offset, length := Field(data, pos + 32, 4), Field(data, pos + 36, 4);
              if offset != 0 && pos + (offset + length) % 0x1_0000_0000 >= |data| then r == Undefined else r.Ok?
  {
    hide Field;
    if pos + 64 <= |data| {
      FieldBehind(data, pos, 32, 4);
      FieldBehind(data, pos, 36, 4);
    }
  }

  /** What makes the section of a compressed fatbin well-formed, member by member. */
  lemma SectionInNumbers(s: Section)
    ensures ValidSection(s) <==>
            ValidBlock(s.block) && 64 <= |s.header| &&
            (Field(s.header, 32, 4) != 0 ==>
               (Field(s.header, 32, 4) + Field(s.header, 36, 4)) % 0x1_0000_0000 < |s.header|) &&
            Field(s.header, 4, 4) == |s.header| && Field(s.header, 16, 4) == |EncodeBlock(s.block)| &&
            Field(s.header, 56, 8) == |Expand(s.block)|
  {
    hide Field, RepresentableBlock, Grounded, EncodeBlock, Expand;
  }

  /** And a region: the size in its header is that of its sections, one behind the other. */
  lemma RegionInNumbers(address: nat, at: nat, r: Region)
    ensures ValidRegion(address, at, r) <==>
            |r.header| == 16 && r.header[..8] == [0x50, 0xED, 0x55, 0xBA, 1, 0, 16, 0] && r.sections != [] &&
            ValidSections(r.sections) && Field(r.header, 8, 8) == |SectionsBytes(address, at + 16, r.sections)|
  {
    hide ValidSection, SectionsBytes, ElfHeaderAt, Field;
    if |r.header| == 16 {
      RegionHeaderInNumbers(r.header, 0);
    }
  }

  /** A block can be encoded if its offsets have sixteen bits and its matches at least four bytes. */
  lemma BlockInNumbers(b: Block)
    ensures RepresentableBlock(b) <==>
            (forall s :: s in b.sequences ==> s.offset < 0x1_0000 && s.matchLength >= 4) &&
            (b.tail.Tail? ==> b.tail.unusedNibble < 16)
  {
  }

  /* ---------- rewriting ---------- */

  lemma PutKeeps(h: seq<Byte>, at: nat, width: nat, value: nat)
    requires at + width <= |h|
    ensures forall j :: 0 <= j < |h| && !(at <= j < at + width) ==> Put(h, at, width, value)[j] == h[j]
  {
    hide ToLE;
  }

  /** Every byte of a rewritten section's header. */
  lemma NewHeaderInNumbers(s: Section)
    requires ValidSection(s) && |PaddedData(s)| < U64
    ensures var was, now := s.header, NewHeader(s);
            64 <= |was| == |now| && Field(now, 8, 8) == |PaddedData(s)| && Field(now, 16, 4) == 0 &&
            Field(now, 56, 8) == 0 && OnlyBit13Cleared(Field(was, 40, 8), Field(now, 40, 8)) &&
            forall j :: 0 <= j < |was| && !(8 <= j < 20) && !(40 <= j < 48) && !(56 <= j < 64) ==> now[j] == was[j]
  {
    NewHeaderFields(s);
    hide RepresentableBlock, Grounded, EncodeBlock, Expand, Put, Field, ClearCompress;
    var h, flags := s.header, ClearCompress(Field(s.header, FLAGS_AT, 8));
    var h1 := Put(h, FLAGS_AT, 8, flags);
    var h2 := Put(h1, COMPRESSED_SIZE_AT, 4, 0);
    var h3 := Put(h2, DECOMPRESSED_SIZE_AT, 8, 0);
    var h4 := Put(h3, SIZE_AT, 8, TextHeaderOf(h).decompressedSize);
    PutKeeps(h, FLAGS_AT, 8, flags);
    PutKeeps(h1, COMPRESSED_SIZE_AT, 4, 0);
    PutKeeps(h2, DECOMPRESSED_SIZE_AT, 8, 0);
    PutKeeps(h3, SIZE_AT, 8, TextHeaderOf(h).decompressedSize);
    PutKeeps(h4, SIZE_AT, 8, |PaddedData(s)|);
  }

  /** The data of a rewritten section. */
  lemma PaddedInNumbers(s: Section)
    requires ValidSection(s)
    ensures var data, padded := Expand(s.block), PaddedData(s);
            data <= padded && RoundedUp(|data|, |padded|) && ZerosBetween(padded, |data|, |padded|)
    ensures NewSection(s)[..|s.header|] == NewHeader(s) && NewSection(s)[|s.header|..] == PaddedData(s)
  {
    hide RepresentableBlock, Grounded, EncodeBlock, Expand, PlainHeader;
  }

  /** A rewritten region: the first half of its header as it was, the size of its sections, and these. */
  lemma NewRegionInNumbers(r: Region)
    requires |r.header| == 16 && ValidSections(r.sections) && |NewSections(r.sections)| < U64
    ensures var now := NewRegion(r);
            |now| == 16 + |NewSections(r.sections)| && now[..8] == r.header[..8] && Field(now, 8, 8) == |now| - 16 &&
            now[16..] == NewSections(r.sections)
  {
    hide NewSections, ToLE, FromLE, ValidSections;
    PutGetSize(r.header, 8, |NewSections(r.sections)|);
    var h := Put(r.header, 8, 8, |NewSections(r.sections)|);
    assert NewRegion(r)[8..16] == h[8..16];
  }

  /** The compressed section: header, block, and between one and eight zeros, up to a multiple of 8. */
  lemma SectionLaidOut(address: nat, at: nat, s: Section)
    requires ValidSection(s)
    ensures var bytes, end := SectionBytes(address, at, s), |s.header| + |EncodeBlock(s.block)|;
            s.header + EncodeBlock(s.block) <= bytes && end + 1 <= |bytes| <= end + 8 &&
            (address + at + |bytes|) % 8 == 0 && ZerosBetween(bytes, end, |bytes|)
  {
    hide RepresentableBlock, Grounded, EncodeBlock, Expand;
  }

  /**
   A section is rewritten exactly if its header lies 80 bytes before the end, at most six bytes bring the
   end of its block to the next multiple of 8, and, if it is its region's first, its data needs no padding.
   */
  lemma FitsInNumbers(total: nat, address: nat, at: nat, s: Section, first: bool)
    requires ValidSection(s)
    ensures SectionFits(total, address, at, s, first) <==>
            at + 80 <= total && (address + at + |s.header| + |EncodeBlock(s.block)|) % 8 >= 2 &&
            (first ==> |Expand(s.block)| % 8 == 0)
  {
    hide RepresentableBlock, Grounded, EncodeBlock, Expand;
  }

  /** One section in the rewriter: how much the output grows, and where the input goes on. */
  lemma RewriteNextInNumbers(data: seq<Byte>, address: nat, elf: nat, text: nat, uninitialised: nat -> Byte, o: Output)
    requires elf + 16 <= |data| < U64 && text + 16 <= |data|
    requires RewriteNext(data, address, elf, text, uninitialised, o).Ok?
    ensures text + 80 <= |data|
    ensures var (o', next) := RewriteNext(data, address, elf, text, uninitialised, o).value;
            var end := text + Field(data, text + 4, 4) + Field(data, text + 16, 4);
            var start := o.size + (if text == elf + 16 then 16 else 0) + Field(data, text + 4, 4);
            start <= o'.size && RoundedUp(Field(data, text + 56, 8), o'.size - start) &&
            o'.elfAt == (if text == elf + 16 then o.size else o.elfAt) &&
            end + 1 <= next <= end + 6 && (address + next) % 8 == 0 && ZerosBetween(data, end, next)
  {
    hide NameEnd, Run, Put, Splice, PlainHeader, RegionHeader, AddTo, TextHeaderAt, Field, Realloc;
    assert SizeT(|data| - text - ELF_HEADER_SIZE) == |data| - text - 16;
    SectionHeaderInNumbers(data, text, |data| - text - 16);
    var h := TextHeaderAt(data, text, |data| - text - 16).value;
    var r := RewriteSection(data, address, elf, text, h, uninitialised, o);
    RewriteSectionInNumbers(data, address, elf, text, h, uninitialised, o);
  }

  lemma RewriteSectionInNumbers(data: seq<Byte>, address: nat, elf: nat, text: nat, h: TextHeader,
                                uninitialised: nat -> Byte, o: Output)
    requires elf + 16 <= |data| && RewriteSection(data, address, elf, text, h, uninitialised, o).Ok?
    ensures var (o', read) := RewriteSection(data, address, elf, text, h, uninitialised, o).value;
            var end := text + h.headerSize + h.compressedSize;
            var next := text + h.headerSize + read;
            var start := o.size + (if text == elf + 16 then 16 else 0) + h.headerSize;
            start <= o'.size && RoundedUp(h.decompressedSize, o'.size - start) &&
            o'.elfAt == (if text == elf + 16 then o.size else o.elfAt) &&
            end + 1 <= next <= end + 6 && (address + next) % 8 == 0 && ZerosBetween(data, end, next)
  {
    hide Run, Put, Splice, PlainHeader, RegionHeader, AddTo, Realloc;
    var end := text + h.headerSize + h.compressedSize;
    var n := InputPadding(address + end);
    assert data[end..end + n] == Zeros(n);
    assert forall i :: end <= i < end + n ==> data[i] == data[end..end + n][i - end];
  }

  /* ---------- walking ---------- */

  /**
   One section in the walk. Only the kind 2 is handed on; data that is not compressed is handed on as it is;
   compressed data is followed by zeros up to the next address that is a multiple of 8, and takes as much
   room as that.
   */
  lemma VisitInNumbers(data: seq<Byte>, address: nat, elf: nat, text: nat, claimedSize: nat,
                       accepts: seq<Byte> -> bool, uninitialised: nat -> Byte)
    requires Visit(data, address, elf, text, claimedSize, accepts, uninitialised).Ok?
    ensures text + 64 <= |data|
    ensures var (handed, next) := Visit(data, address, elf, text, claimedSize, accepts, uninitialised).value;
            var kind, at, size := Field(data, text, 2), text + Field(data, text + 4, 4), Field(data, text + 8, 8);
            var end := at + Field(data, text + 16, 4);
            if kind != 2 then handed == [] && next == at + size <= |data|
            else if Field(data, text + 40, 8) / 0x2000 % 2 == 0 then
              next == at + size <= |data| && handed == [data[at..next]]
            else
              |handed| == 1 && RoundedUp(Field(data, text + 56, 8), |handed[0]|) &&
              end <= next < end + 8 && (address + next) % 8 == 0 && ZerosBetween(data, end, next)
  {
    hide TextHeaderAt, Field, SingleSection;
    var available := SizeT(claimedSize - (text - elf) - ELF_HEADER_SIZE);
    SectionHeaderInNumbers(data, text, available);
    var h := TextHeaderAt(data, text, available).value;
    var at := text + h.headerSize;
    if h.kind == 2 && CompressFlag(h.flags) {
      SingleSectionInNumbers(data, address, at, h, uninitialised);
    }
  }

  lemma SingleSectionInNumbers(data: seq<Byte>, address: nat, at: nat, h: TextHeader, uninitialised: nat -> Byte)
    requires at <= |data| && SingleSection(data, address, at, h, uninitialised).Ok?
    ensures var (handed, read) := SingleSection(data, address, at, h, uninitialised).value;
            var end, next := at + h.compressedSize, at + read;
            RoundedUp(h.decompressedSize, |handed|) && end <= next < end + 8 && (address + next) % 8 == 0 &&
            ZerosBetween(data, end, next)
  {
    hide Run, Splice;
    var end := at + h.compressedSize;
    var n := AlignmentPadding(address + end);
    assert data[end..end + n] == Zeros(n);
    assert forall i :: end <= i < end + n ==> data[i] == data[end..end + n][i - end];
  }

  /** The header check in the walk: it is told what `*fatbin_size` says is left, and wraps around below zero. */
  lemma WalkChecks(data: seq<Byte>, address: nat, elf: nat, text: nat, claimedSize: nat,
                   accepts: seq<Byte> -> bool, uninitialised: nat -> Byte)
    requires elf + 16 <= text && claimedSize < 0x1_0000_0000_0000_0000
    ensures var r := Visit(data, address, elf, text, claimedSize, accepts, uninitialised);
            var before := text - elf + 16;
            before <= claimedSize < before + 64 ==> r == Failed
    ensures var r := Visit(data, address, elf, text, claimedSize, accepts, uninitialised);
            claimedSize >= text - elf + 80 && text + 64 > |data| ==> r == Undefined
  {
    SectionHeaderChecked(data, text, SizeT(claimedSize - (text - elf) - ELF_HEADER_SIZE));
    hide TextHeaderAt, SingleSection, Field;
  }

  /** The walk over a region: it begins behind the header, stops behind its sections, and tells the region's size. */
  lemma WalkInNumbers(data: seq<Byte>, address: nat, elf: nat, claimedSize: nat, accepts: seq<Byte> -> bool,
                      uninitialised: nat -> Byte)
    requires elf <= |data| && VisitRegion(data, address, elf, claimedSize, accepts, uninitialised).Ok?
    ensures elf + 16 <= |data|
    ensures var size := Field(data, elf + 8, 8);
            var (handed, total) := VisitRegion(data, address, elf, claimedSize, accepts, uninitialised).value;
            var walk := VisitSections(data, address, elf, elf + 16, elf + 16 + size, claimedSize, accepts,
                                      uninitialised);
            total == 16 + size && elf + total <= |data| && walk.Ok? && walk.value.0 == handed &&
            walk.value.1 >= elf + total
  {
    hide Field, Visit;
    var end := elf + 16 + Field(data, elf + 8, 8);
    WalkEnds(data, address, elf, elf + 16, end, claimedSize, accepts, uninitialised);
  }

  lemma {:induction false} WalkEnds(data: seq<Byte>, address: nat, elf: nat, text: nat, end: nat, claimedSize: nat,
                                    accepts: seq<Byte> -> bool, uninitialised: nat -> Byte)
    requires VisitSections(data, address, elf, text, end, claimedSize, accepts, uninitialised).Ok?
    ensures end <= |data| &&
            VisitSections(data, address, elf, text, end, claimedSize, accepts, uninitialised).value.1 >= end
    decreases |data| - text
  {
    hide Visit;
    var next := Visit(data, address, elf, text, claimedSize, accepts, uninitialised).value.1;
    if next < end {
      WalkEnds(data, address, elf, next, end, claimedSize, accepts, uninitialised);
    }
  }
}
