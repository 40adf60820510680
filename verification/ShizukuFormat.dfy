/**
 The fixed-layout records of a ShizukuFS v0 image: superblock, inode and data block.
 Each decoder is proved to accept exactly the byte strings its encoder produces.
 */
module ShizukuFormat {
  import opened ByteStrings

  const BLOCK_SIZE := 4096
  const DATA_PAYLOAD_SIZE := 4080
  const INODE_SIZE := 128
  const INODE_COUNT := 256
  const INODE_BLOCKS := 8
  const SUPER_HEADER_SIZE := 128
  const MIN_BLOCKS := 32
  const MAX_TOOL_BLOCKS := 0x40_0000
  const MAX_CHAIN_BLOCKS := 0x1_0000
  const MAX_INLINE_READ_BYTES := 0x400_0000
  const ROOT_INODE := 1
  const KIND_FILE := 1
  const KIND_DIRECTORY := 2

  // Magic strings, read as little-endian integers: "SHIZFS00", "SZIN", "SZDB", "SZDR".
  const MAGIC_SUPER := 0x3030_5346_5A49_4853
  const MAGIC_INODE := 0x4E49_5A53
  const MAGIC_DATA := 0x4244_5A53
  const MAGIC_DIRECTORY := 0x5244_5A53

  // Field widths; the superblock's trailing CRC field is kept apart.
  const SUPER_FIELDS: seq<nat> := [8, 2, 2, 4, 4, 8, 4, 4, 4, 4, 4, 8, 8, 4, 4, 4]
  const INODE_FIELDS: seq<nat> := [4, 4, 1, 1, 2, 4, 8, 4, 4, 4, 8]
  const DATA_FIELDS: seq<nat> := [4, 4, 4, 4]

  type Block = b: seq<Byte> | |b| == 4096 witness Zeros(4096)

  // ---- Superblock ----

  datatype Super = Super(total: nat, bitmapBlocks: nat, dataStart: nat, slot: nat,
                         generation: nat, freeBlocks: nat, freeInodes: nat, metadataCrc: nat)
  {
    function MetadataBlocks(): nat { bitmapBlocks + INODE_BLOCKS }
    function MetadataStart(s: nat): nat { 2 + s * MetadataBlocks() }
  }

  datatype SuperResult = Good(super: Super) | Corrupt | UnsupportedVersion

  function BitmapBlocksFor(total: nat): nat { (total + 32767) / 32768 }

  /** The dimension, slot and counter checks of the superblock reader. */
  ghost predicate SuperValid(s: Super, slot: nat, size: nat) {
    && MIN_BLOCKS <= s.total <= MAX_TOOL_BLOCKS
    && s.bitmapBlocks == BitmapBlocksFor(s.total)
    && s.dataStart == 2 + 2 * s.MetadataBlocks()
    && s.dataStart < s.total
    && s.slot == slot && s.generation != 0
    && size == s.total * BLOCK_SIZE
    && s.freeBlocks <= s.total - s.dataStart
    && s.freeInodes <= INODE_COUNT - 2
  }

  function SuperValues(s: Super): (v: seq<nat>)
    ensures |v| == |SUPER_FIELDS|
  {
    [MAGIC_SUPER, 0, 0, SUPER_HEADER_SIZE, BLOCK_SIZE, s.total, s.bitmapBlocks, INODE_BLOCKS,
     INODE_COUNT, s.dataStart, s.slot, s.generation, s.freeBlocks, s.freeInodes, s.metadataCrc, ROOT_INODE]
  }

  lemma SuperWidth()
    ensures Width(SUPER_FIELDS) == 76
  {
    var head: seq<nat>, tail: seq<nat> := [8, 2, 2, 4, 4, 8, 4, 4], [4, 4, 4, 8, 8, 4, 4, 4];
    assert SUPER_FIELDS == head + tail;
    WidthConcat(head, tail);
  }

  function SuperBody(s: Super): (r: seq<Byte>)
    ensures |r| == 76
  {
    SuperWidth();
    Pack(SUPER_FIELDS, SuperValues(s))
  }

  /** The checksum input: the header with its CRC field zero. */
  function SuperChecksum(body: seq<Byte>, reserved: seq<Byte>): (r: nat)
    ensures r < Pow256(4)
  {
    Crc(body + Zeros(4) + reserved)
  }

  function ToBlock(s: Super): (r: seq<Byte>)
    ensures |r| == BLOCK_SIZE
  {
    SuperBody(s) + LE(SuperChecksum(SuperBody(s), Zeros(48)), 4) + Zeros(4016)
  }

  /** The checks that follow the magic and checksum tests, on the unpacked fields. */
  function SuperOfValues(v: seq<nat>, reservedZero: bool, slot: nat, size: nat): SuperResult
    requires |v| == |SUPER_FIELDS|
  {
    if v[1] != 0 || v[2] != 0 then UnsupportedVersion
    else if v[3] != SUPER_HEADER_SIZE || v[4] != BLOCK_SIZE then Corrupt
    else if !reservedZero then Corrupt
    else if v[5] < MIN_BLOCKS || v[5] > MAX_TOOL_BLOCKS then Corrupt
    else if v[6] != BitmapBlocksFor(v[5]) || v[7] != INODE_BLOCKS then Corrupt
    else if v[8] != INODE_COUNT || v[15] != ROOT_INODE then Corrupt
    else if v[9] != 2 + 2 * (v[6] + INODE_BLOCKS) then Corrupt
    else if v[9] >= v[5] || v[10] != slot || v[11] == 0 then Corrupt
    else if size != v[5] * BLOCK_SIZE then Corrupt
    else if v[12] > v[5] - v[9] || v[13] > INODE_COUNT - 2 then Corrupt
    else Good(Super(v[5], v[6], v[9], v[10], v[11], v[12], v[13], v[14]))
  }

  lemma SuperOfValuesGood(v: seq<nat>, reservedZero: bool, slot: nat, size: nat)
    requires |v| == |SUPER_FIELDS| && v[0] == MAGIC_SUPER
    requires SuperOfValues(v, reservedZero, slot, size).Good?
    ensures var s := SuperOfValues(v, reservedZero, slot, size).super;
      reservedZero && SuperValid(s, slot, size) && v == SuperValues(s)
  {
  }

  /** The superblock reader, for a header of sixteen fields and 76 bytes. */
  function ParseSuper(fmt: seq<nat>, b: seq<Byte>, slot: nat, size: nat): SuperResult
    requires |fmt| == 16 && Width(fmt) == 76
  {
    if |b| != BLOCK_SIZE then Corrupt
    else
      var v := Unpack(fmt, b[..76]);
      if v[0] != MAGIC_SUPER then Corrupt
      else if UnLE(b[76..80]) != SuperChecksum(b[..76], b[80..128]) then Corrupt
      else SuperOfValues(v, AllZero(b[80..]), slot, size)
  }

  lemma SuperOfOwnValues(s: Super, slot: nat, size: nat)
    requires SuperValid(s, slot, size)
    ensures SuperOfValues(SuperValues(s), true, slot, size) == Good(s)
  {
  }

  function FromBlock(b: seq<Byte>, slot: nat, size: nat): SuperResult {
    SuperWidth();
    ParseSuper(SUPER_FIELDS, b, slot, size)
  }

  /** What the field widths demand of a record that passes `SuperValid`. */
  ghost predicate SuperFits(s: Super) {
    s.slot < 2 && s.generation < Pow256(8) && s.metadataCrc < Pow256(4)
  }

  lemma SuperValuesFit(s: Super, slot: nat, size: nat)
    requires SuperValid(s, slot, size) && SuperFits(s)
    ensures Fits(SUPER_FIELDS, SuperValues(s))
  {
    PowValues();
  }

  lemma HeaderParts(body: seq<Byte>, c: nat)
    requires |body| == 76
    ensures var b := body + LE(c, 4) + Zeros(4016);
      && b[..76] == body && b[76..80] == LE(c, 4)
      && b[80..] == Zeros(4016) && b[80..128] == Zeros(48)
  {
  }

  lemma ParseOfPacked(fmt: seq<nat>, vals: seq<nat>, slot: nat, size: nat)
    requires |fmt| == 16 && Width(fmt) == 76 && Fits(fmt, vals) && vals[0] == MAGIC_SUPER
    ensures var body := Pack(fmt, vals);
      ParseSuper(fmt, body + LE(SuperChecksum(body, Zeros(48)), 4) + Zeros(4016), slot, size)
      == SuperOfValues(vals, true, slot, size)
  {
    var body := Pack(fmt, vals);
    var c := SuperChecksum(body, Zeros(48));
    HeaderParts(body, c);
    UnpackOfPack(fmt, vals);
    UnLEOfLE(c, 4);
  }

  lemma PackedOfParts(fmt: seq<nat>, b: seq<Byte>)
    requires |fmt| == 16 && Width(fmt) == 76 && |b| == BLOCK_SIZE
    requires UnLE(b[76..80]) == SuperChecksum(b[..76], b[80..128]) && AllZero(b[80..])
    ensures var body := Pack(fmt, Unpack(fmt, b[..76]));
      b == body + LE(SuperChecksum(body, Zeros(48)), 4) + Zeros(4016)
  {
    PackOfUnpack(fmt, b[..76]);
    AllZeroIsZeros(b[80..]);
    assert b[80..128] == Zeros(48);
    LEOfUnLE(b[76..80]);
    assert b == b[..76] + b[76..80] + b[80..];
  }

  lemma PackedOfParse(fmt: seq<nat>, b: seq<Byte>, slot: nat, size: nat)
    requires |fmt| == 16 && Width(fmt) == 76
    requires ParseSuper(fmt, b, slot, size).Good?
    ensures var s := ParseSuper(fmt, b, slot, size).super;
      var body := Pack(fmt, SuperValues(s));
      && SuperValid(s, slot, size) && Fits(fmt, SuperValues(s))
      && b == body + LE(SuperChecksum(body, Zeros(48)), 4) + Zeros(4016)
  {
    SuperOfValuesGood(Unpack(fmt, b[..76]), AllZero(b[80..]), slot, size);
    PackedOfParts(fmt, b);
  }

  /** Reading back a written superblock yields the record that was written. */
  lemma SuperRoundTrip(s: Super, slot: nat, size: nat)
    requires SuperValid(s, slot, size) && SuperFits(s)
    ensures FromBlock(ToBlock(s), slot, size) == Good(s)
  {
    SuperWidth();
    SuperValuesFit(s, slot, size);
    SuperOfOwnValues(s, slot, size);
    ParseOfPacked(SUPER_FIELDS, SuperValues(s), slot, size);
  }

  /** Every block the reader accepts is byte for byte the one the writer produces. */
  lemma SuperAcceptsOnlyWritten(b: seq<Byte>, slot: nat, size: nat)
    requires slot < 2 && FromBlock(b, slot, size).Good?
    ensures var s := FromBlock(b, slot, size).super;
      SuperValid(s, slot, size) && SuperFits(s) && b == ToBlock(s)
  {
    hide ParseSuper, SuperChecksum, Pack, LE, Zeros, Fits, SuperValid, SuperValues;
    SuperWidth();
    PackedOfParse(SUPER_FIELDS, b, slot, size);
    ValidFits(FromBlock(b, slot, size).super, slot, size);
  }

  lemma ValidFits(s: Super, slot: nat, size: nat)
    requires slot < 2 && SuperValid(s, slot, size) && Fits(SUPER_FIELDS, SuperValues(s))
    ensures SuperFits(s)
  {
    var v := SuperValues(s);
    assert v[11] < Pow256(SUPER_FIELDS[11]) && v[14] < Pow256(SUPER_FIELDS[14]);
  }

  // ---- Inode ----

  datatype Inode = Inode(number: nat, kind: nat, parent: nat, size: nat, firstBlock: nat,
                         blockCount: nat, contentCrc: nat, generation: nat)

  datatype InodeSlot = Free | Used(inode: Inode) | Bad

  function InodeValues(i: Inode): (v: seq<nat>)
    ensures |v| == |INODE_FIELDS|
  {
    [MAGIC_INODE, i.number, i.kind, 0, 0, i.parent, i.size, i.firstBlock, i.blockCount, i.contentCrc, i.generation]
  }

  lemma InodeWidth()
    ensures Width(INODE_FIELDS) == 44
  {
  }

  function InodeBytes(i: Inode): (r: seq<Byte>)
    ensures |r| == INODE_SIZE
  {
    InodeWidth();
    Pack(INODE_FIELDS, InodeValues(i)) + Zeros(84)
  }

  function InodeFromBytes(raw: seq<Byte>, number: nat): InodeSlot {
    InodeWidth();
    if |raw| != INODE_SIZE then Bad
    else if AllZero(raw) then Free
    else
      var v := Unpack(INODE_FIELDS, raw[..44]);
      if v[0] != MAGIC_INODE || v[1] != number then Bad
      else if v[3] != 0 || v[4] != 0 || !AllZero(raw[44..]) then Bad
      else if v[2] != KIND_FILE && v[2] != KIND_DIRECTORY then Bad
      else if v[10] == 0 then Bad
      else Used(Inode(number, v[2], v[5], v[6], v[7], v[8], v[9], v[10]))
  }

  ghost predicate InodeFits(i: Inode) {
    && Fits(INODE_FIELDS, InodeValues(i))
    && (i.kind == KIND_FILE || i.kind == KIND_DIRECTORY)
    && i.generation != 0
  }

  lemma InodeBytesParts(i: Inode)
    ensures var raw := InodeBytes(i);
      && raw[..44] == Pack(INODE_FIELDS, InodeValues(i))
      && raw[44..] == Zeros(84)
      && !AllZero(raw)
  {
    var raw := InodeBytes(i);
    assert raw[0] == LE(MAGIC_INODE, 4)[0] == 0x53;
  }

  lemma InodeRoundTrip(i: Inode)
    requires InodeFits(i)
    ensures InodeFromBytes(InodeBytes(i), i.number) == Used(i)
  {
    InodeBytesParts(i);
    UnpackOfPack(INODE_FIELDS, InodeValues(i));
  }

  lemma InodeAcceptsOnlyWritten(raw: seq<Byte>, number: nat)
    requires InodeFromBytes(raw, number).Used?
    ensures var i := InodeFromBytes(raw, number).inode;
      InodeFits(i) && i.number == number && raw == InodeBytes(i)
  {
    hide Pack, Unpack, Pow256;
    InodeWidth();
    var i := InodeFromBytes(raw, number).inode;
    var v := Unpack(INODE_FIELDS, raw[..44]);
    PackOfUnpack(INODE_FIELDS, raw[..44]);
    ElevenValues(v, i);
    AllZeroIsZeros(raw[44..]);
    assert raw == raw[..44] + raw[44..];
  }

  lemma ElevenValues(v: seq<nat>, i: Inode)
    requires |v| == 11 && v[0] == MAGIC_INODE && v[1] == i.number && v[2] == i.kind && v[3] == 0 && v[4] == 0 && v[5] == i.parent
    requires v[6] == i.size && v[7] == i.firstBlock && v[8] == i.blockCount && v[9] == i.contentCrc && v[10] == i.generation
    ensures v == InodeValues(i)
  {
  }

  // ---- Data block ----

  lemma DataWidth()
    ensures Width(DATA_FIELDS) == 16
  {
  }

  function Padded(chunk: seq<Byte>): (r: seq<Byte>)
    requires |chunk| <= DATA_PAYLOAD_SIZE
    ensures |r| == DATA_PAYLOAD_SIZE
  {
    chunk + Zeros(DATA_PAYLOAD_SIZE - |chunk|)
  }

  function DataBlock(owner: nat, next: nat, chunk: seq<Byte>): (r: Block)
    requires |chunk| <= DATA_PAYLOAD_SIZE
  {
    DataWidth();
    Pack(DATA_FIELDS, [MAGIC_DATA, owner, next, Crc(Padded(chunk))]) + Padded(chunk)
  }

  function DataHeader(b: Block): (v: seq<nat>)
    ensures |v| == 4
    ensures v[1] < Pow256(4) && v[2] < Pow256(4)
  {
    DataWidth();
    assert DATA_FIELDS[1] == 4 && DATA_FIELDS[2] == 4;
    Unpack(DATA_FIELDS, b[..16])
  }

  /** The per-block checks of the chain reader: magic, owner, payload CRC and zero padding. */
  predicate DataAccepted(b: Block, owner: nat, take: nat)
    requires take <= DATA_PAYLOAD_SIZE
  {
    var v := DataHeader(b);
    && v[0] == MAGIC_DATA && v[1] == owner && v[3] == Crc(b[16..])
    && AllZero(b[16 + take..])
  }

  lemma DataRoundTrip(owner: nat, next: nat, chunk: seq<Byte>)
    requires |chunk| <= DATA_PAYLOAD_SIZE && owner < Pow256(4) && next < Pow256(4)
    ensures var b := DataBlock(owner, next, chunk);
      && DataAccepted(b, owner, |chunk|)
      && DataHeader(b)[2] == next
      && b[16..16 + |chunk|] == chunk
  {
    DataWidth();
    PowValues();
    var vals := [MAGIC_DATA, owner, next, Crc(Padded(chunk))];
    var b := DataBlock(owner, next, chunk);
    assert b[..16] == Pack(DATA_FIELDS, vals);
    assert b[16..] == Padded(chunk);
    UnpackOfPack(DATA_FIELDS, vals);
  }

  /** An accepted block is exactly the block the writer makes from its own fields. */
  lemma DataAcceptsOnlyWritten(b: Block, owner: nat, take: nat)
    requires take <= DATA_PAYLOAD_SIZE && DataAccepted(b, owner, take)
    ensures b == DataBlock(owner, DataHeader(b)[2], b[16..16 + take])
  {
    DataWidth();
    var v := DataHeader(b);
    PackOfUnpack(DATA_FIELDS, b[..16]);
    AllZeroIsZeros(b[16 + take..]);
    var chunk := b[16..16 + take];
    assert b[16..] == Padded(chunk);
    assert v == [MAGIC_DATA, owner, v[2], Crc(Padded(chunk))];
    assert b == b[..16] + b[16..];
  }
}
