/** What the walk hands on: for well-formed regions, and for the regions a rewritten fatbin is made of. */
module FatbinWalkLaws {
  import opened Attempts
  import opened Bytes
  import opened FatbinLayout
  import opened FatbinRewriter
  import opened FatbinWalk
  import opened FatbinMeaning
  import opened Lz4Block
  import opened Lz4Laws

  /* ---------- the data of one packed section ---------- */

  /** The first bytes handed on are the decompressed data just when the overwritten ones were zero. */
  lemma HandedOnData(payload: seq<Byte>, uninitialised: nat -> Byte)
    ensures var pad := OutputPadding(|payload|);
            payload <= HandedOn(payload, uninitialised) <==>
            forall i :: 0 <= i < pad && i < |payload| ==> payload[i] == 0
  {
    var pad, h := OutputPadding(|payload|), HandedOn(payload, uninitialised);
    assert forall i :: 0 <= i < |payload| ==> h[i] == if i < pad then 0 else payload[i];
    if payload <= h {
      assert forall i :: 0 <= i < |payload| ==> h[i] == h[..|payload|][i];
    }
  }

  /** An image that starts with a non-zero byte, as ELF does, survives exactly when its size is a multiple of 8. */
  lemma HandedOnImage(payload: seq<Byte>, uninitialised: nat -> Byte)
    requires payload != [] && payload[0] != 0
    ensures HandedOn(payload, uninitialised) == payload <==> |payload| % 8 == 0
    ensures payload <= HandedOn(payload, uninitialised) <==> |payload| % 8 == 0
  {
    HandedOnData(payload, uninitialised);
  }

  /* ---------- well-formed regions ---------- */

  /** No device code; device code as it is; device code that is compressed. */
  datatype Item =
    | Skipped(header: seq<Byte>, body: seq<Byte>)
    | Plain(header: seq<Byte>, body: seq<Byte>)
    | Packed(header: seq<Byte>, block: Block)

  predicate ValidItem(i: Item) {
    TEXT_HEADER_SIZE <= |i.header| && NameEnd(i.header) < |i.header| &&
    var h := TextHeaderOf(i.header);
    h.headerSize == |i.header| &&
    match i
    case Skipped(_, body) => h.kind != KIND_DEVICE_CODE && h.size == |body|
    case Plain(_, body) => h.kind == KIND_DEVICE_CODE && !CompressFlag(h.flags) && h.size == |body|
    case Packed(_, block) =>
      h.kind == KIND_DEVICE_CODE && CompressFlag(h.flags) && ValidBlock(block) &&
      h.compressedSize == |EncodeBlock(block)| && h.decompressedSize == |Expand(block)|
  }

  function ItemData(address: nat, at: nat, i: Item): seq<Byte>
    requires ValidItem(i)
  {
    match i
    case Skipped(_, body) => body
    case Plain(_, body) => body
    case Packed(_, block) =>
      var code := EncodeBlock(block);
      code + Zeros(AlignmentPadding(address + at + |i.header| + |code|))
  }

  function ItemBytes(address: nat, at: nat, i: Item): (r: seq<Byte>)
    requires ValidItem(i)
    ensures |r| >= TEXT_HEADER_SIZE
  {
    i.header + ItemData(address, at, i)
  }

  predicate ValidItems(items: seq<Item>) {
    forall i :: i in items ==> ValidItem(i)
  }

  function ItemsBytes(address: nat, at: nat, items: seq<Item>): seq<Byte>
    requires ValidItems(items)
    decreases |items|
  {
    if items == [] then []
    else
      var first := ItemBytes(address, at, items[0]);
      first + ItemsBytes(address, at + |first|, items[1..])
  }

  function ItemHanded(i: Item, uninitialised: nat -> Byte): seq<seq<Byte>>
    requires ValidItem(i)
  {
    match i
    case Skipped(_, _) => []
    case Plain(_, body) => [body]
    case Packed(_, block) => [HandedOn(Expand(block), uninitialised)]
  }

  /** What the walk hands on, section by section. */
  function Handed(items: seq<Item>, uninitialised: nat -> Byte): seq<seq<Byte>>
    requires ValidItems(items)
  {
    if items == [] then [] else ItemHanded(items[0], uninitialised) + Handed(items[1..], uninitialised)
  }

  /** The size check on the header passes, and what is handed on is not empty and taken. */
  predicate ItemPasses(claimedSize: nat, elf: nat, at: nat, i: Item, accepts: seq<Byte> -> bool,
                       uninitialised: nat -> Byte)
    requires ValidItem(i)
  {
    SizeT(claimedSize - (at - elf) - ELF_HEADER_SIZE) >= TEXT_HEADER_SIZE &&
    forall d :: d in ItemHanded(i, uninitialised) ==> d != [] && accepts(d)
  }

  predicate ItemsPass(claimedSize: nat, address: nat, elf: nat, at: nat, items: seq<Item>,
                      accepts: seq<Byte> -> bool, uninitialised: nat -> Byte)
    requires ValidItems(items)
    decreases |items|
  {
    items == [] ||
    (ItemPasses(claimedSize, elf, at, items[0], accepts, uninitialised) &&
     ItemsPass(claimedSize, address, elf, at + |ItemBytes(address, at, items[0])|, items[1..], accepts, uninitialised))
  }

  lemma ItemHeaderRead(data: seq<Byte>, address: nat, elf: nat, at: nat, claimedSize: nat, i: Item)
    requires ValidItem(i) && Holds(data, at, ItemBytes(address, at, i))
    ensures TextHeaderAt(data, at, SizeT(claimedSize - (at - elf) - ELF_HEADER_SIZE)) ==
            if SizeT(claimedSize - (at - elf) - ELF_HEADER_SIZE) >= TEXT_HEADER_SIZE
            then Ok(TextHeaderOf(i.header)) else Failed
    ensures Holds(data, at, i.header) && Holds(data, at + |i.header|, ItemData(address, at, i))
  {
    hide RepresentableBlock, Grounded, EncodeBlock, Expand;
    HoldsAppend(data, at, i.header, ItemData(address, at, i));
    SameFields(data[at..], i.header);
  }

  lemma PackedHanded(data: seq<Byte>, address: nat, at: nat, h: TextHeader, block: Block, uninitialised: nat -> Byte)
    requires ValidBlock(block) && h.compressedSize == |EncodeBlock(block)| && h.decompressedSize == |Expand(block)|
    requires var code := EncodeBlock(block);
             Holds(data, at, code + Zeros(AlignmentPadding(address + at + |code|)))
    ensures var code := EncodeBlock(block);
            SingleSection(data, address, at, h, uninitialised) ==
            Ok((HandedOn(Expand(block), uninitialised), |code| + AlignmentPadding(address + at + |code|)))
  {
    hide RepresentableBlock, Grounded, EncodeBlock, Expand, Run;
    var code, payload := EncodeBlock(block), Expand(block);
    var zeros := Zeros(AlignmentPadding(address + at + |code|));
    HoldsAppend(data, at, code, zeros);
    var mem := Uninitialised(0, |payload| + 7, uninitialised);
    assert code <= data[at..] by {
      assert data[at..][..|code|] == data[at..at + |code|];
    }
    BlockDecodes(data[at..], 0, |payload|, mem, block);
    HandedOnIsCut(payload, uninitialised);
  }

  lemma HandedOnIsCut(payload: seq<Byte>, uninitialised: nat -> Byte)
    ensures var mem := Uninitialised(0, |payload| + 7, uninitialised); var pad := OutputPadding(|payload|);
            Splice(Splice(mem, 0, payload), 0, Zeros(pad))[..|payload| + pad] == HandedOn(payload, uninitialised)
  {
    var mem, pad := Uninitialised(0, |payload| + 7, uninitialised), OutputPadding(|payload|);
    var a := Splice(mem, 0, payload);
    assert a[..|payload| + pad] == payload + Uninitialised(|payload|, pad, uninitialised);
    assert Splice(a, 0, Zeros(pad))[..|payload| + pad] == Splice(a[..|payload| + pad], 0, Zeros(pad));
  }

  /** One section of a well-formed region. */
  lemma ItemVisited(data: seq<Byte>, address: nat, elf: nat, at: nat, claimedSize: nat, i: Item,
                    accepts: seq<Byte> -> bool, uninitialised: nat -> Byte)
    requires ValidItem(i) && Holds(data, at, ItemBytes(address, at, i))
    ensures Visit(data, address, elf, at, claimedSize, accepts, uninitialised) ==
            if ItemPasses(claimedSize, elf, at, i, accepts, uninitialised)
            then Ok((ItemHanded(i, uninitialised), at + |ItemBytes(address, at, i)|))
            else Failed
  {
    hide RepresentableBlock, Grounded, EncodeBlock, Expand, SingleSection, TextHeaderAt, TextHeaderOf, HandedOn,
         NameEnd;
    ItemHeaderRead(data, address, elf, at, claimedSize, i);
    if i.Packed? {
      PackedHanded(data, address, at + |i.header|, TextHeaderOf(i.header), i.block, uninitialised);
    }
  }

  lemma FirstItem(data: seq<Byte>, address: nat, at: nat, items: seq<Item>)
    requires items != [] && ValidItems(items) && Holds(data, at, ItemsBytes(address, at, items))
    ensures ValidItem(items[0]) && ValidItems(items[1..])
    ensures var first := ItemBytes(address, at, items[0]);
            Holds(data, at, first) && Holds(data, at + |first|, ItemsBytes(address, at + |first|, items[1..])) &&
            |ItemsBytes(address, at, items)| == |first| + |ItemsBytes(address, at + |first|, items[1..])|
    ensures items[1..] != [] <==> |ItemsBytes(address, at + |ItemBytes(address, at, items[0])|, items[1..])| > 0
  {
    hide ValidItem, ItemBytes;
    var first := ItemBytes(address, at, items[0]);
    HoldsAppend(data, at, first, ItemsBytes(address, at + |first|, items[1..]));
  }

  /**
   The walk visits every section of a well-formed region once, in order, hands on the device code,
   and stops exactly at the region's end; otherwise the check of a header or the reader of the
   device code has reported an error.
   */
  lemma {:induction false} ItemsVisited(data: seq<Byte>, address: nat, elf: nat, at: nat, claimedSize: nat,
                                        items: seq<Item>,
                                        accepts: seq<Byte> -> bool, uninitialised: nat -> Byte)
    requires items != [] && ValidItems(items) && Holds(data, at, ItemsBytes(address, at, items))
    ensures var end := at + |ItemsBytes(address, at, items)|;
            VisitSections(data, address, elf, at, end, claimedSize, accepts, uninitialised) ==
            if ItemsPass(claimedSize, address, elf, at, items, accepts, uninitialised)
            then Ok((Handed(items, uninitialised), end)) else Failed
    decreases |items|
  {
    hide ValidItem, ItemBytes, ItemHanded, Visit, ItemPasses;
    FirstItem(data, address, at, items);
    ItemVisited(data, address, elf, at, claimedSize, items[0], accepts, uninitialised);
    if items[1..] == [] {
      assert ItemHanded(items[0], uninitialised) + [] == ItemHanded(items[0], uninitialised);
    } else {
      var next := at + |ItemBytes(address, at, items[0])|;
      ItemsVisited(data, address, elf, next, claimedSize, items[1..], accepts, uninitialised);
    }
  }

  /** The walk over a whole region, whose header tells the size of its sections. */
  lemma RegionVisited(data: seq<Byte>, address: nat, elf: nat, header: seq<Byte>, items: seq<Item>, claimedSize: nat,
                      accepts: seq<Byte> -> bool, uninitialised: nat -> Byte)
    requires items != [] && ValidItems(items) && |header| == ELF_HEADER_SIZE
    requires ElfHeaderAt(header, 0) == Ok(|ItemsBytes(address, elf + ELF_HEADER_SIZE, items)|)
    requires Holds(data, elf, header + ItemsBytes(address, elf + ELF_HEADER_SIZE, items))
    ensures VisitRegion(data, address, elf, claimedSize, accepts, uninitialised) ==
            if ItemsPass(claimedSize, address, elf, elf + ELF_HEADER_SIZE, items, accepts, uninitialised)
            then Ok((Handed(items, uninitialised), |header + ItemsBytes(address, elf + ELF_HEADER_SIZE, items)|))
            else Failed
  {
    hide ValidItems, ItemsBytes, Handed, ItemsPass, VisitSections;
    HoldsAppend(data, elf, header, ItemsBytes(address, elf + ELF_HEADER_SIZE, items));
    RegionHeaderRead(data, elf, header);
    ItemsVisited(data, address, elf, elf + ELF_HEADER_SIZE, claimedSize, items, accepts, uninitialised);
  }

  /* ---------- walking a rewritten fatbin ---------- */

  lemma CompressCleared(flags: nat)
    ensures !CompressFlag(ClearCompress(flags))
    ensures ClearCompress(flags) <= flags
    ensures OnlyBit13Cleared(flags, ClearCompress(flags))
  {
    var q, r := flags / FLAG_COMPRESS, flags % FLAG_COMPRESS;
    if CompressFlag(flags) {
      ModUnique(flags - FLAG_COMPRESS, FLAG_COMPRESS, q - 1, r);
    }
  }

  /** The bits of weight 0x2000 are not set any more, all others are as they were. */
  predicate OnlyBit13Cleared(was: nat, now: nat) {
    now % 0x2000 == was % 0x2000 && now / 0x4000 == was / 0x4000 && now / 0x2000 % 2 == 0
  }

  /** The members of a plain header: flag cleared, new size, the others those of the original. */
  lemma NewHeaderFields(s: Section)
    requires ValidSection(s) && |PaddedData(s)| < U64
    ensures var was, now := TextHeaderOf(s.header), TextHeaderOf(NewHeader(s));
            now == was.(size := |PaddedData(s)|, compressedSize := 0, decompressedSize := 0,
                        flags := ClearCompress(was.flags)) &&
            now.flags % 0x2000 == was.flags % 0x2000 && now.flags / 0x4000 == was.flags / 0x4000 &&
            (now.flags / 0x2000) % 2 == 0
    ensures NameEnd(NewHeader(s)) == NameEnd(s.header)
  {
    hide RepresentableBlock, Grounded, EncodeBlock, Expand, Put, Field, ClearCompress;
    var h, flags := s.header, ClearCompress(Field(s.header, FLAGS_AT, 8));
    FlagsFit(h);
    CompressCleared(Field(h, FLAGS_AT, 8));
    var h1 := Put(h, FLAGS_AT, 8, flags);
    var h2 := Put(h1, COMPRESSED_SIZE_AT, 4, 0);
    var h3 := Put(h2, DECOMPRESSED_SIZE_AT, 8, 0);
    var h4 := Put(h3, SIZE_AT, 8, TextHeaderOf(h).decompressedSize);
    var size := |PaddedData(s)|;
    KeepsOthers(h, FLAGS_AT, 8, flags);
    KeepsOthers(h1, COMPRESSED_SIZE_AT, 4, 0);
    KeepsOthers(h2, DECOMPRESSED_SIZE_AT, 8, 0);
    KeepsOthers(h3, SIZE_AT, 8, TextHeaderOf(h).decompressedSize);
    KeepsOthers(h4, SIZE_AT, 8, size);
    PutGetSize(h, FLAGS_AT, flags);
    PutGetZero(h1, COMPRESSED_SIZE_AT, 4);
    PutGetZero(h2, DECOMPRESSED_SIZE_AT, 8);
    PutGetSize(h4, SIZE_AT, size);
  }

  lemma FlagsFit(h: seq<Byte>)
    requires |h| >= TEXT_HEADER_SIZE
    ensures ClearCompress(Field(h, FLAGS_AT, 8)) < U64
  {
    Pow256Values();
    ToLEFromLE(h[FLAGS_AT..FLAGS_AT + 8]);
    CompressCleared(Field(h, FLAGS_AT, 8));
  }

  lemma PutGetZero(mem: seq<Byte>, at: nat, width: nat)
    requires at + width <= |mem|
    ensures Field(Put(mem, at, width, 0), at, width) == 0
  {
    assert Put(mem, at, width, 0)[at..at + width] == ToLE(0, width);
    FitsRoundTrip(0, width);
  }

  /** Assigning one member changes no other. */
  lemma KeepsOthers(h: seq<Byte>, at: nat, width: nat, value: nat)
    requires at + width <= |h|
    ensures forall k: nat, w: nat :: k + w <= |h| && (k + w <= at || at + width <= k) ==>
              Field(Put(h, at, width, value), k, w) == Field(h, k, w)
  {
    forall k: nat, w: nat | k + w <= |h| && (k + w <= at || at + width <= k)
      ensures Field(Put(h, at, width, value), k, w) == Field(h, k, w)
    {
      PutGetOther(h, at, width, value, k, w);
    }
  }

  /** A rewritten section, as the walk sees it. */
  function PlainItem(s: Section): Item
    requires ValidSection(s)
  {
    if TextHeaderOf(s.header).kind == KIND_DEVICE_CODE
    then Plain(NewHeader(s), PaddedData(s)) else Skipped(NewHeader(s), PaddedData(s))
  }

  lemma NewSectionIsItem(address: nat, at: nat, s: Section)
    requires ValidSection(s) && |PaddedData(s)| < U64
    ensures ValidItem(PlainItem(s)) && ItemBytes(address, at, PlainItem(s)) == NewSection(s)
  {
    hide RepresentableBlock, Grounded, EncodeBlock, Expand, NewHeader, PaddedData, TextHeaderOf, NameEnd;
    NewHeaderFields(s);
    CompressCleared(TextHeaderOf(s.header).flags);
  }

  function PlainItems(ss: seq<Section>): (items: seq<Item>)
    requires ValidSections(ss)
    ensures |items| == |ss|
  {
    if ss == [] then [] else [PlainItem(ss[0])] + PlainItems(ss[1..])
  }

  lemma {:induction false} NewSectionsAreItems(address: nat, at: nat, ss: seq<Section>)
    requires ValidSections(ss) && |NewSections(ss)| < U64
    ensures ValidItems(PlainItems(ss)) && ItemsBytes(address, at, PlainItems(ss)) == NewSections(ss)
    decreases |ss|
  {
    hide ValidSection, ValidItem, NewSection, NewSections, ItemsBytes, PlainItems, PlainItem, PaddedData;
    if ss == [] {
      NoSectionsNoItems(address, at);
    } else {
      PlainItemsCons(ss);
      NewSectionsAreItems(address, at + |NewSection(ss[0])|, ss[1..]);
      FirstNewSectionIsItem(address, at, ss);
    }
  }

  lemma NoSectionsNoItems(address: nat, at: nat)
    ensures PlainItems([]) == [] && ItemsBytes(address, at, []) == [] && NewSections([]) == []
  {
  }

  lemma FirstNewSectionIsItem(address: nat, at: nat, ss: seq<Section>)
    requires ss != [] && ValidSections(ss) && |NewSections(ss)| < U64
    requires ValidSections(ss[1..]) && ValidItems(PlainItems(ss[1..]))
    requires ItemsBytes(address, at + |NewSection(ss[0])|, PlainItems(ss[1..])) == NewSections(ss[1..])
    ensures ValidItems(PlainItems(ss)) && ItemsBytes(address, at, PlainItems(ss)) == NewSections(ss)
  {
    hide ValidSection, ValidItem, NewSection, ItemBytes, PlainItem, PaddedData, PlainItems, ItemsBytes, ValidItems;
    PlainItemsCons(ss);
    NewSectionIsItem(address, at, ss[0]);
    ItemsCons(address, at, PlainItems(ss));
  }

  lemma ItemsCons(address: nat, at: nat, items: seq<Item>)
    requires items != [] && ValidItem(items[0]) && ValidItems(items[1..])
    ensures ValidItems(items)
    ensures ItemsBytes(address, at, items) ==
            ItemBytes(address, at, items[0]) + ItemsBytes(address, at + |ItemBytes(address, at, items[0])|, items[1..])
  {
    hide ValidItem, ItemBytes;
    assert items == [items[0]] + items[1..];
  }

  lemma PlainItemsCons(ss: seq<Section>)
    requires ss != [] && ValidSections(ss) && |NewSections(ss)| < U64
    ensures ValidSection(ss[0]) && ValidSections(ss[1..])
    ensures PlainItems(ss)[0] == PlainItem(ss[0]) && PlainItems(ss)[1..] == PlainItems(ss[1..])
    ensures |PaddedData(ss[0])| < U64 && |NewSections(ss[1..])| < U64
  {
    hide ValidSection, PlainItem, NewHeader, PaddedData;
  }

  function DeviceData(s: Section): seq<seq<Byte>>
    requires ValidSection(s)
  {
    if TextHeaderOf(s.header).kind == KIND_DEVICE_CODE then [PaddedData(s)] else []
  }

  /** The device code among the sections of a region, decompressed and padded. */
  function DeviceCode(ss: seq<Section>): seq<seq<Byte>>
    requires ValidSections(ss)
  {
    if ss == [] then [] else DeviceData(ss[0]) + DeviceCode(ss[1..])
  }

  lemma {:induction false} HandedIsDeviceCode(ss: seq<Section>, uninitialised: nat -> Byte)
    requires ValidSections(ss) && ValidItems(PlainItems(ss))
    ensures Handed(PlainItems(ss), uninitialised) == DeviceCode(ss)
    decreases |ss|
  {
    if ss != [] {
      hide ValidSection, ValidItem, NewHeader, PaddedData;
      assert PlainItems(ss)[1..] == PlainItems(ss[1..]);
      HandedIsDeviceCode(ss[1..], uninitialised);
    }
  }

  /** A region, wherever it lies: the padding, which depends on its place, is not looked at. */
  predicate WellFormed(r: Region) {
    |r.header| == ELF_HEADER_SIZE && ElfHeaderAt(r.header, 0).Ok? && r.sections != [] && ValidSections(r.sections)
  }

  /**
   Walking a rewritten region, wherever it lies now, hands on, in order, exactly the data that the
   blocks of the compressed region's device code stand for, padded with zeros to a multiple of 8 and not
   damaged; the region is as large as its header says. What fresh memory holds does not matter.
   */
  lemma RewrittenRegionVisited(data: seq<Byte>, address: nat, elf: nat, r: Region, claimedSize: nat,
                               accepts: seq<Byte> -> bool, uninitialised: nat -> Byte)
    requires WellFormed(r) && Holds(data, elf, NewRegion(r)) && |NewRegion(r)| < U64
    ensures ValidItems(PlainItems(r.sections))
    ensures VisitRegion(data, address, elf, claimedSize, accepts, uninitialised) ==
            if ItemsPass(claimedSize, address, elf, elf + ELF_HEADER_SIZE, PlainItems(r.sections), accepts,
                         uninitialised)
            then Ok((DeviceCode(r.sections), |NewRegion(r)|)) else Failed
  {
    hide ValidSection, ValidSections, SectionsBytes, NewSections, ItemsBytes, Handed, DeviceCode, ItemsPass,
         VisitSections, Put, Field, ValidItems, PlainItems;
    var size := |NewSections(r.sections)|;
    var header := Put(r.header, ELF_SIZE_AT, 8, size);
    HoldsAppend(data, elf, header, NewSections(r.sections));
    RegionHeaderRead(data, elf, header);
    NewRegionHeader(r.header, size);
    NewSectionsAreItems(address, elf + ELF_HEADER_SIZE, r.sections);
    ItemsVisited(data, address, elf, elf + ELF_HEADER_SIZE, claimedSize, PlainItems(r.sections), accepts,
                 uninitialised);
    HandedIsDeviceCode(r.sections, uninitialised);
  }

  lemma NewRegionHeader(header: seq<Byte>, size: nat)
    requires |header| == ELF_HEADER_SIZE && ElfHeaderAt(header, 0).Ok? && size < U64
    ensures var h := Put(header, ELF_SIZE_AT, 8, size);
            Field(h, ELF_SIZE_AT, 8) == size && ElfHeaderAt(h, 0) == Ok(size)
  {
    hide Put, Field;
    KeepsOthers(header, ELF_SIZE_AT, 8, size);
    PutGetSize(header, ELF_SIZE_AT, size);
  }

  /* ---------- rewriting, then walking ---------- */

  predicate AllWellFormed(rs: seq<Region>) {
    forall i :: 0 <= i < |rs| ==> WellFormed(rs[i])
  }

  lemma {:induction false} ValidIsWellFormed(address: nat, at: nat, rs: seq<Region>)
    requires ValidFatbin(address, at, rs)
    ensures AllWellFormed(rs)
    decreases |rs|
  {
    hide ValidSections, SectionsBytes, ElfHeaderAt;
    if rs != [] {
      ValidIsWellFormed(address, at + |RegionBytes(address, at, rs[0])|, rs[1..]);
    }
  }

  function NewSize(r: Region): nat
    requires WellFormed(r)
  {
    |NewRegion(r)|
  }

  /** Where the k-th region lies in the rewritten fatbin. */
  function NewStart(rs: seq<Region>, k: nat): nat
    requires AllWellFormed(rs) && k <= |rs|
  {
    if k == 0 then 0 else NewSize(rs[0]) + NewStart(rs[1..], k - 1)
  }

  /** Walking the data at `elf` hands on the device code of a region, which a rewritten fatbin has there. */
  predicate HandsOn(data: seq<Byte>, address: nat, elf: nat, r: Region, claimedSize: nat,
                    accepts: seq<Byte> -> bool, uninitialised: nat -> Byte)
    requires WellFormed(r)
  {
    ValidItems(PlainItems(r.sections)) && elf <= |data| &&
    VisitRegion(data, address, elf, claimedSize, accepts, uninitialised) ==
    if ItemsPass(claimedSize, address, elf, elf + ELF_HEADER_SIZE, PlainItems(r.sections), accepts, uninitialised)
    then Ok((DeviceCode(r.sections), NewSize(r))) else Failed
  }

  predicate LiesAt(data: seq<Byte>, at: nat, r: Region)
    requires WellFormed(r)
  {
    Holds(data, at, NewRegion(r))
  }

  lemma FirstNewRegion(data: seq<Byte>, from: nat, address: nat, at: nat, rs: seq<Region>) returns (next: nat)
    requires rs != [] && ValidFatbin(address, at, rs) && WellFormed(rs[0]) &&
             Holds(data, from, NewFatbin(address, at, rs))
    ensures LiesAt(data, from, rs[0]) && ValidFatbin(address, next, rs[1..])
    ensures Holds(data, from + NewSize(rs[0]), NewFatbin(address, next, rs[1..]))
    ensures |NewFatbin(address, at, rs)| == NewSize(rs[0]) + |NewFatbin(address, next, rs[1..])|
  {
    hide ValidRegion, NewRegion, RegionBytes, Holds;
    next := at + |RegionBytes(address, at, rs[0])|;
    HoldsAppend(data, from, NewRegion(rs[0]), NewFatbin(address, next, rs[1..]));
  }

  lemma NothingNew(address: nat, at: nat)
    ensures ValidFatbin(address, at, []) && NewFatbin(address, at, []) == []
  {
  }

  lemma {:induction false} NewRegionLocated(data: seq<Byte>, from: nat, address: nat, at: nat, rs: seq<Region>, k: nat)
    requires ValidFatbin(address, at, rs) && AllWellFormed(rs) && k <= |rs| &&
             Holds(data, from, NewFatbin(address, at, rs))
    ensures k < |rs| ==> LiesAt(data, from + NewStart(rs, k), rs[k])
    ensures k == |rs| ==> NewStart(rs, k) == |NewFatbin(address, at, rs)|
    decreases |rs|
  {
    hide ValidRegion, WellFormed, NewSize, RegionBytes, Holds, LiesAt, ValidFatbin, NewFatbin;
    if rs == [] {
      NothingNew(address, at);
    } else {
      var next := FirstNewRegion(data, from, address, at, rs);
      if k > 0 {
        NewRegionLocated(data, from + NewSize(rs[0]), address, next, rs[1..], k - 1);
      }
    }
  }

  lemma LyingRegionVisited(data: seq<Byte>, address: nat, elf: nat, r: Region, claimedSize: nat,
                           accepts: seq<Byte> -> bool, uninitialised: nat -> Byte)
    requires WellFormed(r) && LiesAt(data, elf, r) && |data| < U64
    ensures HandsOn(data, address, elf, r, claimedSize, accepts, uninitialised)
  {
    hide NewRegion, VisitRegion, ItemsPass, PlainItems, ValidItems, DeviceCode;
    RewrittenRegionVisited(data, address, elf, r, claimedSize, accepts, uninitialised);
  }

  /**
   A compressed fatbin that fits is rewritten to regions that follow each other without gaps; and walking
   the rewritten bytes from any of them, at whatever address they now lie, hands on the data its blocks
   stand for and tells its size, unless the check of a header or the reader of the device code fails.
   */
  lemma RewrittenFatbinVisited(address: nat, rs: seq<Region>, k: nat, uninitialised: nat -> Byte,
                               newAddress: nat, claimedSize: nat, accepts: seq<Byte> -> bool, unset: nat -> Byte)
    requires ValidFatbin(address, 0, rs) && |FatbinBytes(address, 0, rs)| < U64 && |NewFatbin(address, 0, rs)| < U64
    requires FatbinFits(|FatbinBytes(address, 0, rs)|, address, 0, rs) && k < |rs|
    ensures AllWellFormed(rs) && WellFormed(rs[k])
    ensures var o := RewriteRegions(FatbinBytes(address, 0, rs), address, 0, uninitialised, Output([], 0, 0));
            o.Ok? && o.value.size == NewStart(rs, |rs|) <= |o.value.mem| &&
            HandsOn(o.value.mem[..o.value.size], newAddress, NewStart(rs, k), rs[k], claimedSize, accepts, unset)
  {
    hide ValidFatbin, FatbinBytes, FatbinFits, NewFatbin, RewriteRegions, WellFormed, NewStart, HandsOn, LiesAt;
    FatbinRewritten(address, rs, uninitialised);
    ValidIsWellFormed(address, 0, rs);
    var data := NewFatbin(address, 0, rs);
    assert Holds(data, 0, data);
    NewRegionLocated(data, 0, address, 0, rs, k);
    NewRegionLocated(data, 0, address, 0, rs, |rs|);
    LyingRegionVisited(data, newAddress, NewStart(rs, k), rs[k], claimedSize, accepts, unset);
  }
}
