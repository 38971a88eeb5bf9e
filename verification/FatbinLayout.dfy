/** The two packed headers of a fatbin, read from the bytes they lie over. */
module FatbinLayout {
  import opened Attempts
  import opened Bytes

  const ELF_HEADER_SIZE: nat := 16
  const TEXT_HEADER_SIZE: nat := 64
  const FATBIN_TEXT_MAGIC: nat := 0xBA55ED50
  const FLAG_COMPRESS: nat := 0x2000

  // Where the members of fat_elf_header and fat_text_header lie.
  const ELF_SIZE_AT: nat := 8
  const SIZE_AT: nat := 8
  const COMPRESSED_SIZE_AT: nat := 16
  const FLAGS_AT: nat := 40
  const DECOMPRESSED_SIZE_AT: nat := 56

  /** The members of fat_text_header that the code reads. */
  datatype TextHeader = TextHeader(
    kind: nat, headerSize: nat, size: nat, compressedSize: nat, flags: nat, decompressedSize: nat)

  function TextHeaderOf(bytes: seq<Byte>): TextHeader
    requires |bytes| >= TEXT_HEADER_SIZE
  {
    TextHeader(Field(bytes, 0, 2), Field(bytes, 4, 4), Field(bytes, SIZE_AT, 8),
               Field(bytes, COMPRESSED_SIZE_AT, 4), Field(bytes, FLAGS_AT, 8),
               Field(bytes, DECOMPRESSED_SIZE_AT, 8))
  }

  predicate CompressFlag(flags: nat) {
    (flags / FLAG_COMPRESS) % 2 == 1
  }

  function ClearCompress(flags: nat): nat {
    if CompressFlag(flags) then flags - FLAG_COMPRESS else flags
  }

  /** Arithmetic on size_t. */
  function SizeT(n: int): nat {
    n % U64
  }

  /** `get_elf_header`: the size member of the header at `pos`, once its other members are checked. */
  function ElfHeaderAt(data: seq<Byte>, pos: nat): Attempt<nat>
    requires pos <= |data|
  {
    if pos + ELF_HEADER_SIZE > |data| then Failed
    else if Field(data, pos, 4) != FATBIN_TEXT_MAGIC then Failed
    else if Field(data, pos + 4, 2) != 1 || Field(data, pos + 6, 2) != ELF_HEADER_SIZE then Failed
    else Ok(Field(data, pos + ELF_SIZE_AT, 8))
  }

  /** Where the check of the object name looks for the terminating zero; 0 when there is no name. */
  function NameEnd(bytes: seq<Byte>): nat
    requires |bytes| >= TEXT_HEADER_SIZE
  {
    if Field(bytes, 32, 4) == 0 then 0 else (Field(bytes, 32, 4) + Field(bytes, 36, 4)) % U32
  }

  /** `get_text_header` on the header at `pos`, told that `available` bytes are left. */
  function TextHeaderAt(data: seq<Byte>, pos: nat, available: nat): Attempt<TextHeader> {
    if available < TEXT_HEADER_SIZE then Failed
    else if pos + TEXT_HEADER_SIZE > |data| then Undefined
    else if pos + NameEnd(data[pos..]) >= |data| then Undefined
    else Ok(TextHeaderOf(data[pos..]))
  }
}
