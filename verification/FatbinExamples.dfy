/** Small fatbins: one that is rewritten, ones that are well-formed but are not, or are handed on damaged. */
module FatbinExamples {
  import opened Attempts
  import opened Bytes
  import opened FatbinLayout
  import opened FatbinMeaning
  import opened FatbinWalk
  import opened FatbinWalkLaws
  import opened Lz4Block

  function TextHeaderBytes(kind: nat, size: nat, compressed: nat, flags: nat, decompressed: nat): (h: seq<Byte>)
    ensures |h| == TEXT_HEADER_SIZE
  {
    ToLE(kind, 2) + Zeros(2) + ToLE(TEXT_HEADER_SIZE, 4) + ToLE(size, 8) + ToLE(compressed, 4) +
    Zeros(20) + ToLE(flags, 8) + Zeros(8) + ToLE(decompressed, 8)
  }

  lemma TextHeaderBytesFields(kind: nat, size: nat, compressed: nat, flags: nat, decompressed: nat)
    requires kind < U16 && size < U64 && compressed < U32 && flags < U64 && decompressed < U64
    ensures var h := TextHeaderBytes(kind, size, compressed, flags, decompressed);
            TextHeaderOf(h) == TextHeader(kind, TEXT_HEADER_SIZE, size, compressed, flags, decompressed) &&
              NameEnd(h) == 0
  {
    var h := TextHeaderBytes(kind, size, compressed, flags, decompressed);
    Pow256Values();
    assert h[0..2] == ToLE(kind, 2) && h[4..8] == ToLE(TEXT_HEADER_SIZE, 4);
    assert h[8..16] == ToLE(size, 8) && h[16..20] == ToLE(compressed, 4);
    assert h[40..48] == ToLE(flags, 8) && h[56..64] == ToLE(decompressed, 8);
    assert h[32..36] == ToLE(0, 4) by {
      assert h[32..36] == [0, 0, 0, 0];
    }
    FitsRoundTrip(kind, 2);
    FitsRoundTrip(TEXT_HEADER_SIZE, 4);
    FitsRoundTrip(size, 8);
    FitsRoundTrip(compressed, 4);
    FitsRoundTrip(flags, 8);
    FitsRoundTrip(decompressed, 8);
    FitsRoundTrip(0, 4);
  }

  function RegionHeaderBytes(size: nat): (h: seq<Byte>)
    ensures |h| == ELF_HEADER_SIZE
  {
    ToLE(FATBIN_TEXT_MAGIC, 4) + ToLE(1, 2) + ToLE(ELF_HEADER_SIZE, 2) + ToLE(size, 8)
  }

  lemma RegionHeaderBytesChecked(size: nat)
    requires size < U64
    ensures ElfHeaderAt(RegionHeaderBytes(size), 0) == Ok(size)
  {
    var h := RegionHeaderBytes(size);
    Pow256Values();
    var front := ToLE(FATBIN_TEXT_MAGIC, 4) + ToLE(1, 2) + ToLE(ELF_HEADER_SIZE, 2);
    assert |front| == 8 && h == front + ToLE(size, 8) && h[8..16] == ToLE(size, 8);
    assert h[0..4] == ToLE(FATBIN_TEXT_MAGIC, 4) && h[4..6] == ToLE(1, 2) && h[6..8] == ToLE(ELF_HEADER_SIZE, 2);
    FitsRoundTrip(FATBIN_TEXT_MAGIC, 4);
    FitsRoundTrip(1, 2);
    FitsRoundTrip(ELF_HEADER_SIZE, 2);
    FitsRoundTrip(size, 8);
  }

  /** A section of device code whose block is literals only. */
  function LiteralSection(literals: seq<Byte>): Section {
    Section(TextHeaderBytes(KIND_DEVICE_CODE, 0, |EncodeLiterals(literals, 0)|, FLAG_COMPRESS, |literals|),
            Block([], Tail(literals, 0)))
  }

  lemma LiteralSectionValid(literals: seq<Byte>)
    requires |EncodeLiterals(literals, 0)| < U32
    ensures ValidSection(LiteralSection(literals))
    ensures Expand(LiteralSection(literals).block) == literals
    ensures EncodeBlock(LiteralSection(literals).block) == EncodeLiterals(literals, 0)
  {
    TextHeaderBytesFields(KIND_DEVICE_CODE, 0, |EncodeLiterals(literals, 0)|, FLAG_COMPRESS, |literals|);
  }

  /** A fatbin at address 0 with that section alone. */
  function LiteralFatbin(literals: seq<Byte>): seq<Region>
    requires ValidSection(LiteralSection(literals))
  {
    [Region(RegionHeaderBytes(|SectionBytes(0, ELF_HEADER_SIZE, LiteralSection(literals))|),
      [LiteralSection(literals)])]
  }

  /** It is well-formed, and rewritten only if the padding and the position of its section allow it. */
  lemma LiteralFatbinFits(literals: seq<Byte>)
    requires |EncodeLiterals(literals, 0)| < U32
    ensures ValidSection(LiteralSection(literals)) && ValidFatbin(0, 0, LiteralFatbin(literals))
    ensures var size := |EncodeLiterals(literals, 0)|;
            var total := ELF_HEADER_SIZE + TEXT_HEADER_SIZE + size + 8 - size % 8;
            |FatbinBytes(0, 0, LiteralFatbin(literals))| == total &&
            (FatbinFits(total, 0, 0, LiteralFatbin(literals)) <==>
             total >= 96 && size % 8 >= 2 && |literals| % 8 == 0)
  {
    hide TextHeaderBytes, RegionHeaderBytes, EncodeLiterals, EncodeBlock, Expand, ElfHeaderAt, RepresentableBlock,
         Grounded;
    LiteralSectionValid(literals);
    var s := LiteralSection(literals);
    assert |s.header| == TEXT_HEADER_SIZE && |EncodeBlock(s.block)| == |EncodeLiterals(literals, 0)|;
    var first := SectionBytes(0, ELF_HEADER_SIZE, s);
    assert SectionsBytes(0, ELF_HEADER_SIZE, [s]) == first;
    RegionHeaderBytesChecked(|first|);
    var r := LiteralFatbin(literals)[0];
    assert RegionBytes(0, 0, r) == r.header + first;
    assert FatbinBytes(0, 0, [r]) == RegionBytes(0, 0, r);
    assert SectionsFit(|FatbinBytes(0, 0, [r])|, 0, ELF_HEADER_SIZE, [s], true) <==>
           SectionFits(|FatbinBytes(0, 0, [r])|, 0, ELF_HEADER_SIZE, s, true);
  }

  /** Nine bytes, well-formed: their padding does not fit. Sixteen bytes are rewritten. */
  lemma FitsOrNot()
    ensures ValidSection(LiteralSection(Zeros(9))) && ValidFatbin(0, 0, LiteralFatbin(Zeros(9)))
    ensures !FatbinFits(|FatbinBytes(0, 0, LiteralFatbin(Zeros(9)))|, 0, 0, LiteralFatbin(Zeros(9)))
    ensures ValidSection(LiteralSection(Zeros(16))) && ValidFatbin(0, 0, LiteralFatbin(Zeros(16)))
    ensures FatbinFits(|FatbinBytes(0, 0, LiteralFatbin(Zeros(16)))|, 0, 0, LiteralFatbin(Zeros(16)))
  {
    hide LiteralFatbin, LiteralSection, ValidSection, FatbinFits, FatbinBytes, ValidFatbin;
    EncodedLengths();
    LiteralFatbinFits(Zeros(9));
    LiteralFatbinFits(Zeros(16));
  }

  lemma EncodedLengths()
    ensures |EncodeLiterals(Zeros(9), 0)| == 10 && |EncodeLiterals(Zeros(16), 0)| == 18
  {
    assert EncodeExtension(16) == [1];
  }

  /** The same section, as the walk sees it. */
  function LiteralItem(literals: seq<Byte>): Item {
    Packed(LiteralSection(literals).header, LiteralSection(literals).block)
  }

  lemma LiteralItemValid(literals: seq<Byte>)
    requires |EncodeLiterals(literals, 0)| < U32
    ensures ValidItem(LiteralItem(literals))
  {
    hide TextHeaderBytes, TextHeaderOf, NameEnd, EncodeLiterals, EncodeBlock, Expand, RepresentableBlock, Grounded;
    LiteralSectionValid(literals);
    TextHeaderBytesFields(KIND_DEVICE_CODE, 0, |EncodeLiterals(literals, 0)|, FLAG_COMPRESS, |literals|);
  }

  function LiteralSectionBytes(literals: seq<Byte>): seq<Byte>
    requires ValidItem(LiteralItem(literals))
  {
    ItemBytes(0, ELF_HEADER_SIZE, LiteralItem(literals))
  }

  /** A region of that section alone, as a compiler would align it. */
  function LiteralRegion(literals: seq<Byte>): seq<Byte>
    requires ValidItem(LiteralItem(literals))
  {
    RegionHeaderBytes(|LiteralSectionBytes(literals)|) + LiteralSectionBytes(literals)
  }

  lemma OneItem(literals: seq<Byte>, claimedSize: nat, accepts: seq<Byte> -> bool, uninitialised: nat -> Byte)
    requires ValidItem(LiteralItem(literals)) && Expand(LiteralItem(literals).block) == literals
    requires 96 <= claimedSize < U64 && literals != [] && accepts(HandedOn(literals, uninitialised))
    ensures var items := [LiteralItem(literals)];
            ValidItems(items) && ItemsBytes(0, ELF_HEADER_SIZE, items) == LiteralSectionBytes(literals) &&
            ItemsPass(claimedSize, 0, 0, ELF_HEADER_SIZE, items, accepts, uninitialised) &&
            Handed(items, uninitialised) == [HandedOn(literals, uninitialised)]
  {
    hide ValidItem, ItemBytes, HandedOn, Expand;
    var items := [LiteralItem(literals)];
    assert items[1..] == [];
    assert ItemHanded(items[0], uninitialised) == [HandedOn(literals, uninitialised)];
  }

  lemma LiteralSectionSize(literals: seq<Byte>)
    requires |EncodeLiterals(literals, 0)| < U32 && ValidItem(LiteralItem(literals))
    ensures |LiteralSectionBytes(literals)| < U64
  {
    LiteralSectionValid(literals);
    hide TextHeaderBytes, EncodeLiterals, EncodeBlock, Expand, RepresentableBlock, Grounded, ValidItem;
  }

  /**
   An image of any size that is no multiple of 8, and starts with a non-zero byte, is handed on damaged:
   the walk over its well-formed region reports no error.
   */
  lemma DamagedImage(literals: seq<Byte>, claimedSize: nat, accepts: seq<Byte> -> bool, uninitialised: nat -> Byte)
    requires |EncodeLiterals(literals, 0)| < U32 && literals != [] && literals[0] != 0 && |literals| % 8 != 0
    requires 96 <= claimedSize < U64 && accepts(HandedOn(literals, uninitialised))
    ensures ValidItem(LiteralItem(literals))
    ensures var data := LiteralRegion(literals);
            VisitRegion(data, 0, 0, claimedSize, accepts, uninitialised) ==
            Ok(([HandedOn(literals, uninitialised)], |data|)) && !(literals <= HandedOn(literals, uninitialised))
  {
    hide RegionHeaderBytes, EncodeLiterals, Expand, VisitRegion, HandedOn, ValidItem, LiteralItem,
         LiteralSectionBytes, ItemsBytes, ItemsPass, Handed, ValidItems, ElfHeaderAt;
    LiteralItemValid(literals);
    LiteralBlockExpands(literals);
    HandedOnImage(literals, uninitialised);
    OneItem(literals, claimedSize, accepts, uninitialised);
    LiteralSectionSize(literals);
    RegionHeaderBytesChecked(|LiteralSectionBytes(literals)|);
    RegionVisited(LiteralRegion(literals), 0, 0, RegionHeaderBytes(|LiteralSectionBytes(literals)|),
                  [LiteralItem(literals)], claimedSize, accepts, uninitialised);
  }

  lemma LiteralBlockExpands(literals: seq<Byte>)
    requires |EncodeLiterals(literals, 0)| < U32 && ValidItem(LiteralItem(literals))
    ensures Expand(LiteralItem(literals).block) == literals
  {
    LiteralSectionValid(literals);
    hide EncodeLiterals, Expand, ValidItem, TextHeaderBytes;
  }
}
