/**
 The records as they lie on the disk: which letters, numbers and zeros stand at which offset of
 every block, inode and directory record written (and so of every one accepted).
 */
module ShizukuLayout {
  import opened Modular
  import opened Options
  import opened ByteStrings
  import opened ShizukuFormat
  import opened ShizukuDirectory
  import opened ShizukuBitmap
  import opened ShizukuImage
  import opened ShizukuTree

  // ---- Fields ----

  /** The little-endian number in `w` bytes from offset `at` on. */
  function Number(b: seq<Byte>, at: nat, w: nat): nat
    requires at + w <= |b|
    decreases w
  {
    if w == 0 then 0 else b[at] + 256 * Number(b, at + 1, w - 1)
  }

  lemma {:induction false} NumberIs(b: seq<Byte>, at: nat, w: nat)
    requires at + w <= |b|
    ensures Number(b, at, w) == UnLE(b[at..at + w])
    decreases w
  {
    if w > 0 {
      NumberIs(b, at + 1, w - 1);
      assert b[at..at + w][1..] == b[at + 1..at + w] && b[at..at + w][0] == b[at];
    }
  }

  /** The field of one format item starts where the items before it end. */
  lemma {:induction false} FieldAt(fmt: seq<nat>, b: seq<Byte>, at: nat, i: nat)
    requires i < |fmt| && at + Width(fmt) <= |b|
    ensures Width(fmt[..i]) + fmt[i] <= Width(fmt)
    ensures Unpack(fmt, b[at..at + Width(fmt)])[i] == Number(b, at + Width(fmt[..i]), fmt[i])
    decreases |fmt|
  {
    hide UnLE, Number;
    var s, head, tail := b[at..at + Width(fmt)], fmt[0], fmt[1..];
    if i == 0 {
      assert fmt[..0] == [];
      NumberIs(b, at, head);
      assert s[..head] == b[at..at + head];
    } else {
      FieldAt(tail, b, at + head, i - 1);
      assert fmt[..i][1..] == tail[..i - 1];
      assert Width(fmt[..i]) == head + Width(tail[..i - 1]);
      hide Width;
      assert s[head..] == b[at + head..at + head + Width(tail)];
    }
  }

  /** The letters stand at this offset. */
  predicate Letters(b: seq<Byte>, at: nat, text: string) {
    at + |text| <= |b| && forall i :: 0 <= i < |text| ==> b[at + i] == text[i] as int
  }

  predicate ZeroFrom(b: seq<Byte>, from: nat) { forall i :: from <= i < |b| ==> b[i] == 0 }

  lemma FourLetters(b: seq<Byte>, at: nat, text: string)
    requires at + 4 <= |b| && |text| == 4 && forall i :: 0 <= i < 4 ==> text[i] as int < 256
    ensures Letters(b, at, text) <==>
      Number(b, at, 4) == text[0] as int + 256 * (text[1] as int) + 65536 * (text[2] as int) + 16777216 * (text[3] as int)
  {
    var n1, n2, n3 := Number(b, at + 1, 3), Number(b, at + 2, 2), Number(b, at + 3, 1);
    assert n3 == b[at + 3] && n2 == b[at + 2] + 256 * n3 && n1 == b[at + 1] + 256 * n2;
    var t3 := text[3] as int;
    var t2 := text[2] as int + 256 * t3;
    var t1 := text[1] as int + 256 * t2;
    if Number(b, at, 4) == text[0] as int + 256 * t1 {
      SameDigit(b[at], text[0] as int, n1, t1);
      SameDigit(b[at + 1], text[1] as int, n2, t2);
      SameDigit(b[at + 2], text[2] as int, n3, t3);
    }
  }

  lemma SameDigit(a: nat, b: nat, x: nat, y: nat)
    requires a < 256 && b < 256 && a + 256 * x == b + 256 * y
    ensures a == b && x == y
  {
  }

  lemma NumberSplits(b: seq<Byte>, at: nat)
    requires at + 8 <= |b|
    ensures Number(b, at, 8) == Number(b, at, 4) + 0x1_0000_0000 * Number(b, at + 4, 4)
  {
    var n4 := Number(b, at + 4, 4);
    var n5 := Number(b, at + 3, 5);
    assert n5 == b[at + 3] + 256 * n4;
    var n6 := Number(b, at + 2, 6);
    assert n6 == b[at + 2] + 256 * n5;
    var n7 := Number(b, at + 1, 7);
    assert n7 == b[at + 1] + 256 * n6 && Number(b, at, 8) == b[at] + 256 * n7;
    var m3 := Number(b, at + 3, 1);
    var m2 := Number(b, at + 2, 2);
    var m1 := Number(b, at + 1, 3);
    assert m3 == b[at + 3] && m2 == b[at + 2] + 256 * m3 && m1 == b[at + 1] + 256 * m2 && Number(b, at, 4) == b[at] + 256 * m1;
  }

  lemma NumberBound(b: seq<Byte>, at: nat, w: nat)
    requires at + w <= |b|
    ensures Number(b, at, w) < Pow256(w)
  {
    NumberIs(b, at, w);
  }

  // ---- The superblock ----

  lemma FirstOffsets()
    ensures Width(SUPER_FIELDS) == 76 && |SUPER_FIELDS| == 16
    ensures Width(SUPER_FIELDS[..0]) == 0 && Width(SUPER_FIELDS[..1]) == 8 && Width(SUPER_FIELDS[..2]) == 10
    ensures Width(SUPER_FIELDS[..3]) == 12 && Width(SUPER_FIELDS[..4]) == 16
  {
    SuperWidth();
    assert SUPER_FIELDS[..0] == [];
    assert Width(SUPER_FIELDS[..0]) == 0;
    hide Width;
    OffsetStep(SUPER_FIELDS, 0);
    OffsetStep(SUPER_FIELDS, 1);
    OffsetStep(SUPER_FIELDS, 2);
    OffsetStep(SUPER_FIELDS, 3);
  }

  lemma SuperOffsets()
    ensures Width(SUPER_FIELDS) == 76 && |SUPER_FIELDS| == 16
    ensures Width(SUPER_FIELDS[..0]) == 0 && Width(SUPER_FIELDS[..1]) == 8 && Width(SUPER_FIELDS[..2]) == 10
    ensures Width(SUPER_FIELDS[..3]) == 12 && Width(SUPER_FIELDS[..4]) == 16 && Width(SUPER_FIELDS[..5]) == 20
    ensures Width(SUPER_FIELDS[..6]) == 28 && Width(SUPER_FIELDS[..7]) == 32 && Width(SUPER_FIELDS[..8]) == 36
  {
    hide Width;
    FirstOffsets();
    OffsetStep(SUPER_FIELDS, 4);
    OffsetStep(SUPER_FIELDS, 5);
    OffsetStep(SUPER_FIELDS, 6);
    OffsetStep(SUPER_FIELDS, 7);
  }

  lemma MoreOffsets()
    ensures |SUPER_FIELDS| == 16
    ensures Width(SUPER_FIELDS[..8]) == 36 && Width(SUPER_FIELDS[..9]) == 40 && Width(SUPER_FIELDS[..10]) == 44
    ensures Width(SUPER_FIELDS[..11]) == 48 && Width(SUPER_FIELDS[..12]) == 56 && Width(SUPER_FIELDS[..13]) == 64
    ensures Width(SUPER_FIELDS[..14]) == 68 && Width(SUPER_FIELDS[..15]) == 72
  {
    hide Width;
    SuperOffsets();
    OffsetStep(SUPER_FIELDS, 8);
    OffsetStep(SUPER_FIELDS, 9);
    OffsetStep(SUPER_FIELDS, 10);
    OffsetStep(SUPER_FIELDS, 11);
    OffsetStep(SUPER_FIELDS, 12);
    OffsetStep(SUPER_FIELDS, 13);
    OffsetStep(SUPER_FIELDS, 14);
  }

  lemma OffsetStep(fmt: seq<nat>, i: nat)
    requires i < |fmt|
    ensures Width(fmt[..i + 1]) == Width(fmt[..i]) + fmt[i]
  {
    assert fmt[..i + 1] == fmt[..i] + [fmt[i]];
    WidthConcat(fmt[..i], [fmt[i]]);
    assert [fmt[i]][1..] == [];
  }

  /** What packed values read back as, item by item. */
  lemma PackedAt(fmt: seq<nat>, vals: seq<nat>, b: seq<Byte>, at: nat, i: nat)
    requires Fits(fmt, vals) && i < |fmt| && at + Width(fmt) <= |b| && b[at..at + Width(fmt)] == Pack(fmt, vals)
    ensures Width(fmt[..i]) + fmt[i] <= Width(fmt) && Number(b, at + Width(fmt[..i]), fmt[i]) == vals[i]
  {
    hide Unpack, Pack, Number;
    UnpackOfPack(fmt, vals);
    FieldAt(fmt, b, at, i);
  }

  lemma SuperPacked(b: seq<Byte>, s: Super)
    requires b == ToBlock(s)
    ensures |b| == 4096 && b[0..76] == Pack(SUPER_FIELDS, SuperValues(s))
  {
    hide Pack, SuperChecksum, SuperValues;
    HeaderParts(SuperBody(s), SuperChecksum(SuperBody(s), Zeros(48)));
  }

  /** A superblock: letters, version 0.0, header and block size, dimensions, slot, generation, counters, checksums, zeros. */
  lemma SuperLayout(b: seq<Byte>, s: Super, slot: nat, size: nat)
    requires SuperValid(s, slot, size) && SuperFits(s) && b == ToBlock(s)
    ensures |b| == 4096 && Letters(b, 0, "SHIZ") && Letters(b, 4, "FS00")
    ensures Number(b, 8, 2) == 0 && Number(b, 10, 2) == 0 && Number(b, 12, 4) == 128 && Number(b, 16, 4) == 4096
    ensures Number(b, 20, 8) == s.total && Number(b, 28, 4) == s.bitmapBlocks && Number(b, 32, 4) == 8 && Number(b, 36, 4) == 256
    ensures Number(b, 40, 4) == s.dataStart && Number(b, 44, 4) == s.slot && Number(b, 48, 8) == s.generation
    ensures Number(b, 56, 8) == s.freeBlocks && Number(b, 64, 4) == s.freeInodes && Number(b, 68, 4) == s.metadataCrc
    ensures Number(b, 72, 4) == 1 && ZeroFrom(b, 80)
    ensures Number(b, 76, 4) == Crc(b[..76] + [0, 0, 0, 0] + b[80..128])
  {
    hide SuperValid, SuperFits, Number, Letters, ZeroFrom, Crc;
    SuperTail(b, s);
    SuperWidth();
    SuperValuesFit(s, slot, size);
    SuperPacked(b, s);
    hide ToBlock, Fits, Pack, SuperValues, Width;
    SuperFront(b, s);
    SuperBack(b, s);
  }

  lemma SuperFront(b: seq<Byte>, s: Super)
    requires Fits(SUPER_FIELDS, SuperValues(s)) && |b| == 4096 && Width(SUPER_FIELDS) == 76
    requires b[0..76] == Pack(SUPER_FIELDS, SuperValues(s))
    ensures Letters(b, 0, "SHIZ") && Letters(b, 4, "FS00")
    ensures Number(b, 8, 2) == 0 && Number(b, 10, 2) == 0 && Number(b, 12, 4) == 128 && Number(b, 16, 4) == 4096
    ensures Number(b, 20, 8) == s.total && Number(b, 28, 4) == s.bitmapBlocks && Number(b, 32, 4) == 8
  {
    hide Pack, Fits, Width, Number, Letters;
    SuperOffsets();
    PackedAt(SUPER_FIELDS, SuperValues(s), b, 0, 0);
    PackedAt(SUPER_FIELDS, SuperValues(s), b, 0, 1);
    PackedAt(SUPER_FIELDS, SuperValues(s), b, 0, 2);
    PackedAt(SUPER_FIELDS, SuperValues(s), b, 0, 3);
    PackedAt(SUPER_FIELDS, SuperValues(s), b, 0, 4);
    PackedAt(SUPER_FIELDS, SuperValues(s), b, 0, 5);
    PackedAt(SUPER_FIELDS, SuperValues(s), b, 0, 6);
    PackedAt(SUPER_FIELDS, SuperValues(s), b, 0, 7);
    EightLetters(b, 0, "SHIZ", "FS00", MAGIC_SUPER);
  }

  lemma SuperBack(b: seq<Byte>, s: Super)
    requires Fits(SUPER_FIELDS, SuperValues(s)) && |b| == 4096 && Width(SUPER_FIELDS) == 76
    requires b[0..76] == Pack(SUPER_FIELDS, SuperValues(s))
    ensures Number(b, 36, 4) == 256 && Number(b, 40, 4) == s.dataStart && Number(b, 44, 4) == s.slot && Number(b, 48, 8) == s.generation
    ensures Number(b, 56, 8) == s.freeBlocks && Number(b, 64, 4) == s.freeInodes && Number(b, 68, 4) == s.metadataCrc
    ensures Number(b, 72, 4) == 1
  {
    hide Pack, Fits, Width, Number;
    MoreOffsets();
    PackedAt(SUPER_FIELDS, SuperValues(s), b, 0, 8);
    PackedAt(SUPER_FIELDS, SuperValues(s), b, 0, 9);
    PackedAt(SUPER_FIELDS, SuperValues(s), b, 0, 10);
    PackedAt(SUPER_FIELDS, SuperValues(s), b, 0, 11);
    PackedAt(SUPER_FIELDS, SuperValues(s), b, 0, 12);
    PackedAt(SUPER_FIELDS, SuperValues(s), b, 0, 13);
    PackedAt(SUPER_FIELDS, SuperValues(s), b, 0, 14);
    PackedAt(SUPER_FIELDS, SuperValues(s), b, 0, 15);
  }

  lemma EightLetters(b: seq<Byte>, at: nat, front: string, back: string, n: nat)
    requires at + 8 <= |b| && |front| == |back| == 4 && Number(b, at, 8) == n
    requires forall i :: 0 <= i < 4 ==> front[i] as int < 256 && back[i] as int < 256
    requires n == Spelled(front) + 0x1_0000_0000 * Spelled(back)
    ensures Letters(b, at, front) && Letters(b, at + 4, back)
  {
    hide Number, Letters;
    NumberSplits(b, at);
    NumberBound(b, at, 4);
    PowValues();
    FourLetters(b, at, front);
    FourLetters(b, at + 4, back);
    var x, y := Number(b, at, 4), Number(b, at + 4, 4);
    assert Spelled(front) < 0x1_0000_0000;
  }

  function Spelled(text: string): nat
    requires |text| == 4
  {
    text[0] as int + 256 * (text[1] as int) + 65536 * (text[2] as int) + 16777216 * (text[3] as int)
  }

  lemma SuperTail(b: seq<Byte>, s: Super)
    requires b == ToBlock(s)
    ensures |b| == 4096 && ZeroFrom(b, 80) && Number(b, 76, 4) == Crc(b[..76] + [0, 0, 0, 0] + b[80..128])
  {
    hide Crc, SuperBody, Number;
    var c := SuperChecksum(SuperBody(s), Zeros(48));
    HeaderParts(SuperBody(s), c);
    assert Zeros(4) == [0, 0, 0, 0];
    NumberIs(b, 76, 4);
    UnLEOfLE(c, 4);
    assert forall i :: 80 <= i < 4096 ==> b[i] == b[80..][i - 80];
  }

  // ---- Inodes ----

  /** An inode: letters, number, kind, parent, size, first block, block count, content checksum, generation, zeros. */
  lemma InodeLayout(b: seq<Byte>, i: Inode)
    requires InodeFits(i) && b == InodeBytes(i)
    ensures |b| == 128 && Letters(b, 0, "SZIN") && Number(b, 4, 4) == i.number && Number(b, 8, 1) == i.kind
    ensures Number(b, 9, 1) == 0 && Number(b, 10, 2) == 0 && Number(b, 12, 4) == i.parent && Number(b, 16, 8) == i.size
    ensures Number(b, 24, 4) == i.firstBlock && Number(b, 28, 4) == i.blockCount && Number(b, 32, 4) == i.contentCrc
    ensures Number(b, 36, 8) == i.generation && ZeroFrom(b, 44)
    ensures i.kind == 1 || i.kind == 2
  {
    InodeTail(b, i);
    hide InodeBytes, Number, Letters, ZeroFrom, Pack, Fits;
    InodeFront(b, i);
    InodeBack(b, i);
  }

  lemma InodeFront(b: seq<Byte>, i: Inode)
    requires Fits(INODE_FIELDS, InodeValues(i)) && |b| == 128 && b[0..44] == Pack(INODE_FIELDS, InodeValues(i))
    ensures Letters(b, 0, "SZIN") && Number(b, 4, 4) == i.number && Number(b, 8, 1) == i.kind
    ensures Number(b, 9, 1) == 0 && Number(b, 10, 2) == 0 && Number(b, 12, 4) == i.parent
  {
    hide Number, Letters, Pack, Fits;
    InodeOffsets();
    hide Width;
    PackedAt(INODE_FIELDS, InodeValues(i), b, 0, 0);
    PackedAt(INODE_FIELDS, InodeValues(i), b, 0, 1);
    PackedAt(INODE_FIELDS, InodeValues(i), b, 0, 2);
    PackedAt(INODE_FIELDS, InodeValues(i), b, 0, 3);
    PackedAt(INODE_FIELDS, InodeValues(i), b, 0, 4);
    PackedAt(INODE_FIELDS, InodeValues(i), b, 0, 5);
    FourLetters(b, 0, "SZIN");
  }

  lemma InodeBack(b: seq<Byte>, i: Inode)
    requires Fits(INODE_FIELDS, InodeValues(i)) && |b| == 128 && b[0..44] == Pack(INODE_FIELDS, InodeValues(i))
    ensures Number(b, 16, 8) == i.size && Number(b, 24, 4) == i.firstBlock && Number(b, 28, 4) == i.blockCount
    ensures Number(b, 32, 4) == i.contentCrc && Number(b, 36, 8) == i.generation
  {
    hide Number, Pack, Fits;
    InodeOffsets();
    hide Width;
    PackedAt(INODE_FIELDS, InodeValues(i), b, 0, 6);
    PackedAt(INODE_FIELDS, InodeValues(i), b, 0, 7);
    PackedAt(INODE_FIELDS, InodeValues(i), b, 0, 8);
    PackedAt(INODE_FIELDS, InodeValues(i), b, 0, 9);
    PackedAt(INODE_FIELDS, InodeValues(i), b, 0, 10);
  }

  lemma InodeTail(b: seq<Byte>, i: Inode)
    requires b == InodeBytes(i)
    ensures |b| == 128 && ZeroFrom(b, 44) && b[0..44] == Pack(INODE_FIELDS, InodeValues(i))
  {
    hide Pack;
    InodeBytesParts(i);
    assert forall k :: 44 <= k < 128 ==> b[k] == b[44..][k - 44];
  }

  lemma InodeOffsets()
    ensures Width(INODE_FIELDS) == 44 && |INODE_FIELDS| == 11
    ensures Width(INODE_FIELDS[..0]) == 0 && Width(INODE_FIELDS[..1]) == 4 && Width(INODE_FIELDS[..2]) == 8
    ensures Width(INODE_FIELDS[..3]) == 9 && Width(INODE_FIELDS[..4]) == 10 && Width(INODE_FIELDS[..5]) == 12
    ensures Width(INODE_FIELDS[..6]) == 16 && Width(INODE_FIELDS[..7]) == 24 && Width(INODE_FIELDS[..8]) == 28
    ensures Width(INODE_FIELDS[..9]) == 32 && Width(INODE_FIELDS[..10]) == 36
  {
    InodeWidth();
    assert INODE_FIELDS[..0] == [];
    assert Width(INODE_FIELDS[..0]) == 0;
    hide Width;
    OffsetStep(INODE_FIELDS, 0);
    OffsetStep(INODE_FIELDS, 1);
    OffsetStep(INODE_FIELDS, 2);
    OffsetStep(INODE_FIELDS, 3);
    OffsetStep(INODE_FIELDS, 4);
    OffsetStep(INODE_FIELDS, 5);
    OffsetStep(INODE_FIELDS, 6);
    OffsetStep(INODE_FIELDS, 7);
    OffsetStep(INODE_FIELDS, 8);
    OffsetStep(INODE_FIELDS, 9);
  }

  // ---- Data blocks ----

  /** A data block: letters, owner, next block, checksum of the payload, the piece, zeros. */
  lemma DataLayout(b: seq<Byte>, owner: nat, next: nat, chunk: seq<Byte>)
    requires |chunk| <= DATA_PAYLOAD_SIZE && owner < Pow256(4) && next < Pow256(4) && b == DataBlock(owner, next, chunk)
    ensures |b| == 4096 && Letters(b, 0, "SZDB") && Number(b, 4, 4) == owner && Number(b, 8, 4) == next
    ensures Number(b, 12, 4) == Crc(b[16..]) && b[16..16 + |chunk|] == chunk && ZeroFrom(b, 16 + |chunk|)
  {
    DataParts(b, owner, next, chunk);
    hide DataBlock, Number, Letters, ZeroFrom, Pack;
    DataHead(b, owner, next, Crc(b[16..]));
  }

  lemma DataHead(b: seq<Byte>, owner: nat, next: nat, c: nat)
    requires owner < Pow256(4) && next < Pow256(4) && c < Pow256(4) && |b| == 4096
    requires Width(DATA_FIELDS) == 16 && b[0..16] == Pack(DATA_FIELDS, [MAGIC_DATA, owner, next, c])
    ensures Letters(b, 0, "SZDB") && Number(b, 4, 4) == owner && Number(b, 8, 4) == next && Number(b, 12, 4) == c
  {
    hide Number, Letters, Pack;
    var vals := [MAGIC_DATA, owner, next, c];
    PowValues();
    DataOffsets();
    hide Width;
    PackedAt(DATA_FIELDS, vals, b, 0, 0);
    PackedAt(DATA_FIELDS, vals, b, 0, 1);
    PackedAt(DATA_FIELDS, vals, b, 0, 2);
    PackedAt(DATA_FIELDS, vals, b, 0, 3);
    FourLetters(b, 0, "SZDB");
  }

  lemma DataParts(b: seq<Byte>, owner: nat, next: nat, chunk: seq<Byte>)
    requires |chunk| <= DATA_PAYLOAD_SIZE && b == DataBlock(owner, next, chunk)
    ensures |b| == 4096 && b[16..16 + |chunk|] == chunk && ZeroFrom(b, 16 + |chunk|) && Width(DATA_FIELDS) == 16
    ensures b[0..16] == Pack(DATA_FIELDS, [MAGIC_DATA, owner, next, Crc(b[16..])])
  {
    hide Pack, Crc;
    DataWidth();
    assert b[16..] == Padded(chunk);
    assert forall k :: 16 + |chunk| <= k < 4096 ==> b[k] == b[16..][k - 16];
  }

  lemma DataOffsets()
    ensures Width(DATA_FIELDS) == 16 && |DATA_FIELDS| == 4
    ensures Width(DATA_FIELDS[..0]) == 0 && Width(DATA_FIELDS[..1]) == 4 && Width(DATA_FIELDS[..2]) == 8 && Width(DATA_FIELDS[..3]) == 12
  {
    DataWidth();
    assert DATA_FIELDS[..0] == [];
    assert Width(DATA_FIELDS[..0]) == 0;
    hide Width;
    OffsetStep(DATA_FIELDS, 0);
    OffsetStep(DATA_FIELDS, 1);
    OffsetStep(DATA_FIELDS, 2);
  }

  // ---- Directories ----

  /** The smallest multiple of four that holds the record of a name. */
  function RecordSize(length: nat): nat { (8 + length + 3) / 4 * 4 }

  function RecordStart(es: seq<Entry>, i: nat): nat
    requires i <= |es|
  {
    if i == 0 then 8 else RecordStart(es, i - 1) + RecordSize(|es[i - 1].name|)
  }

  /** Inode, kind, length of the name, two zero bytes, the name, zeros up to a multiple of four. */
  predicate RecordAt(b: seq<Byte>, at: nat, e: Entry) {
    var n := |e.name|;
    && at + RecordSize(n) <= |b| && Number(b, at, 4) == e.inode && Number(b, at + 4, 1) == e.kind
    && Number(b, at + 5, 1) == n && Number(b, at + 6, 2) == 0 && b[at + 8..at + 8 + n] == e.name
    && forall k :: at + 8 + n <= k < at + RecordSize(n) ==> b[k] == 0
  }

  lemma EntryOffsets()
    ensures Width(ENTRY_FIELDS) == 8 && |ENTRY_FIELDS| == 4 && Width(DIRECTORY_FIELDS) == 8 && |DIRECTORY_FIELDS| == 2
    ensures Width(ENTRY_FIELDS[..0]) == 0 && Width(ENTRY_FIELDS[..1]) == 4 && Width(ENTRY_FIELDS[..2]) == 5 && Width(ENTRY_FIELDS[..3]) == 6
    ensures Width(DIRECTORY_FIELDS[..0]) == 0 && Width(DIRECTORY_FIELDS[..1]) == 4
  {
    FieldWidths();
    assert ENTRY_FIELDS[..0] == [] && DIRECTORY_FIELDS[..0] == [];
    assert Width(ENTRY_FIELDS[..0]) == 0 && Width(DIRECTORY_FIELDS[..0]) == 0;
    hide Width;
    OffsetStep(ENTRY_FIELDS, 0);
    OffsetStep(ENTRY_FIELDS, 1);
    OffsetStep(ENTRY_FIELDS, 2);
    OffsetStep(DIRECTORY_FIELDS, 0);
  }

  lemma EntryLayout(b: seq<Byte>, at: nat, e: Entry)
    requires ValidEntry(e) && at + |EntryBytes(e)| <= |b| && b[at..at + |EntryBytes(e)|] == EntryBytes(e)
    ensures |EntryBytes(e)| == RecordSize(|e.name|) && RecordAt(b, at, e)
  {
    EntryParts2(b, at, e);
    hide EntryBytes, Number, Pack, ValidName;
    PowValues();
    EntryOffsets();
    hide Width;
    var vals := [e.inode, e.kind, |e.name|, 0];
    PackedAt(ENTRY_FIELDS, vals, b, at, 0);
    PackedAt(ENTRY_FIELDS, vals, b, at, 1);
    PackedAt(ENTRY_FIELDS, vals, b, at, 2);
    PackedAt(ENTRY_FIELDS, vals, b, at, 3);
  }

  lemma EntryParts2(b: seq<Byte>, at: nat, e: Entry)
    requires at + |EntryBytes(e)| <= |b| && b[at..at + |EntryBytes(e)|] == EntryBytes(e)
    ensures |EntryBytes(e)| == RecordSize(|e.name|) && at + 8 <= |b|
    ensures b[at..at + 8] == Pack(ENTRY_FIELDS, [e.inode, e.kind, |e.name|, 0])
    ensures b[at + 8..at + 8 + |e.name|] == e.name && forall k :: at + 8 + |e.name| <= k < at + |EntryBytes(e)| ==> b[k] == 0
  {
    hide Pack;
    var s, n := EntryBytes(e), |e.name|;
    FieldWidths();
    assert s[..8] == EntryHeader(e) && s[8..8 + n] == e.name && s[8 + n..] == Zeros(PadOf(n));
    SubSlice(b, at, s, 0, 8);
    SubSlice(b, at, s, 8, 8 + n);
    assert forall k :: at + 8 + n <= k < at + |s| ==> b[k] == s[8 + n..][k - at - 8 - n];
  }

  lemma SubSlice(b: seq<Byte>, at: nat, s: seq<Byte>, i: nat, j: nat)
    requires at + |s| <= |b| && b[at..at + |s|] == s && i <= j <= |s|
    ensures b[at + i..at + j] == s[i..j]
  {
    var all := b[at..at + |s|];
    forall k | 0 <= k < j - i ensures b[at + i..at + j][k] == s[i..j][k] {
      assert all[i + k] == s[i + k];
    }
  }

  lemma {:induction false} RecordsLayout(b: seq<Byte>, es: seq<Entry>, i: nat)
    requires AllValid(es) && i <= |es| && RecordStart(es, i) <= |b| && b[RecordStart(es, i)..] == Records(es[i..])
    ensures forall j :: i <= j < |es| ==> RecordAt(b, RecordStart(es, j), es[j])
    ensures |b| == RecordStart(es, |es|)
    decreases |es| - i
  {
    hide EntryBytes, RecordAt, ValidEntry, RecordSize;
    var at := RecordStart(es, i);
    if i < |es| {
      var e, rest := es[i], es[i + 1..];
      assert es[i..][0] == e && es[i..][1..] == rest;
      assert Records(es[i..]) == EntryBytes(e) + Records(rest);
      assert b[at..at + |EntryBytes(e)|] == b[at..][..|EntryBytes(e)|] == EntryBytes(e);
      EntryLayout(b, at, e);
      assert b[RecordStart(es, i + 1)..] == b[at..][|EntryBytes(e)|..] == Records(rest);
      RecordsLayout(b, es, i + 1);
    } else {
      assert es[i..] == [];
    }
  }

  /** A directory: letters, the number of entries, and their records one after the other. */
  lemma DirectoryLayout(b: seq<Byte>, es: seq<Entry>)
    requires Decode(b) == Some(es)
    ensures |b| >= 8 && Letters(b, 0, "SZDR") && Number(b, 4, 4) == |es| <= 254
    ensures forall j :: 0 <= j < |es| ==> RecordAt(b, RecordStart(es, j), es[j])
    ensures |b| == RecordStart(es, |es|)
  {
    DirectoryBytes(b, es);
    hide Decode, Records, Number, Letters, RecordAt, Pack;
    PowValues();
    assert es[0..] == es;
    RecordsLayout(b, es, 0);
    EntryOffsets();
    hide Width;
    PackedAt(DIRECTORY_FIELDS, [MAGIC_DIRECTORY, |es|], b, 0, 0);
    PackedAt(DIRECTORY_FIELDS, [MAGIC_DIRECTORY, |es|], b, 0, 1);
    FourLetters(b, 0, "SZDR");
  }

  lemma DirectoryBytes(b: seq<Byte>, es: seq<Entry>)
    requires Decode(b) == Some(es)
    ensures |b| >= 8 && b[0..8] == Pack(DIRECTORY_FIELDS, [MAGIC_DIRECTORY, |es|]) && b[8..] == Records(es)
    ensures AllValid(es) && |es| <= MAX_ENTRIES
  {
    hide Pack, Records, ValidEntry;
    EncodeOfDecode(b);
    SortOfSorted(es);
    FieldWidths();
    assert b == DirHeader(|es|) + Records(es);
  }

  // ---- Names ----

  /** One to 255 bytes, no slash, no NUL, and neither of the two dot names. */
  lemma NameRule(n: Name)
    ensures ValidName(n) <==>
      && 0 < |n| < 256 && !(|n| == 1 && Letters(n, 0, ".")) && !(|n| == 2 && Letters(n, 0, ".."))
      && forall i :: 0 <= i < |n| ==> n[i] != '/' as int && n[i] != 0
  {
    assert "."[0] as int == 46 && ".."[0] as int == 46 && ".."[1] as int == 46;
    assert Letters(n, 0, ".") ==> n[0 + 0] == "."[0] as int;
    assert Letters(n, 0, "..") ==> n[0 + 0] == ".."[0] as int && n[0 + 1] == ".."[1] as int;
    assert |n| == 1 && n[0] == 46 ==> n == [46];
    assert |n| == 2 && n[0] == 46 && n[1] == 46 ==> n == [46, 46];
  }

  // ---- Pieces, slots and bits ----

  /** The pieces of a content follow each other without gap; all but the last fill their block. */
  lemma ChunksCover(content: seq<Byte>, i: nat)
    requires i < BlocksFor(|content|)
    ensures Chunk(content, i) == content[4080 * i..if 4080 * i + 4080 <= |content| then 4080 * i + 4080 else |content|]
    ensures BlocksFor(|content|) == i + 1 <==> 4080 * i < |content| <= 4080 * i + 4080
  {
  }

  lemma NoChunks()
    ensures BlocksFor(0) == 0 && forall n: nat :: n > 0 ==> BlocksFor(n) > 0
  {
  }

  /** Inode `n` occupies the bytes from 128 n on. */
  lemma SlotPlace(inodes: seq<Byte>, n: nat)
    requires |inodes| == TABLE_SIZE && n < 256
    ensures |inodes| == 32768 && Slot(inodes, n) == inodes[128 * n..128 * n + 128]
  {
  }

  function PowerOfTwo(k: nat): nat
    requires k < 8
  {
    if k == 0 then 1 else if k == 1 then 2 else if k == 2 then 4 else if k == 3 then 8
    else if k == 4 then 16 else if k == 5 then 32 else if k == 6 then 64 else 128
  }

  /** Block `b` is bit `b % 8`, counted from the least, of byte `b / 8`. */
  lemma BitPlace(bm: seq<Byte>, b: nat)
    requires b < 8 * |bm|
    ensures GetBit(bm, b) <==> bm[b / 8] / PowerOfTwo(b % 8) % 2 == 1
  {
    BitIs(bm[b / 8], b % 8);
  }

  lemma {:induction false} BitIs(x: nat, k: nat)
    requires k < 8
    ensures Bit(x, k) <==> x / PowerOfTwo(k) % 2 == 1
    decreases k
  {
    if k > 0 {
      BitIs(x / 2, k - 1);
      DivDiv(x, 2, PowerOfTwo(k - 1));
      assert PowerOfTwo(k) == PowerOfTwo(k - 1) * 2;
    }
  }

  /** The two metadata copies follow the two superblocks; a copy is the bitmap and eight inode blocks. */
  lemma MetadataPlace(s: Super, slot: nat, size: nat)
    requires SuperValid(s, slot, size) && slot < 2
    ensures s.MetadataStart(0) == 2 && s.MetadataStart(1) == 2 + s.bitmapBlocks + 8
    ensures s.dataStart == 2 + 2 * (s.bitmapBlocks + 8) && 32 <= s.total <= 4194304 && size == s.total * 4096
    ensures 32768 * (s.bitmapBlocks - 1) < s.total <= 32768 * s.bitmapBlocks
  {
  }

  // ---- The checksum ----

  const DIGITS: seq<Byte> := [49, 50, 51, 52, 53, 54, 55, 56, 57]

  lemma FoldStep(c: bv32, data: seq<Byte>, b: Byte)
    ensures Fold(CrcByte, c, data + [b]) == CrcByte(Fold(CrcByte, c, data), b)
  {
    assert (data + [b])[..|data|] == data;
  }

  lemma CrcBytes()
    ensures CrcByte(0xFFFFFFFF, 49) == 0x7C231048
    ensures CrcByte(0x7C231048, 50) == 0xB0ACBB32
    ensures CrcByte(0xB0ACBB32, 51) == 0x77B79C2D
    ensures CrcByte(0x77B79C2D, 52) == 0x641C1F5C
    ensures CrcByte(0x641C1F5C, 53) == 0x340AC5E3
    ensures CrcByte(0x340AC5E3, 54) == 0xF68D2C9E
    ensures CrcByte(0xF68D2C9E, 55) == 0xAFFC9660
    ensures CrcByte(0xAFFC9660, 56) == 0x651F2550
    ensures CrcByte(0x651F2550, 57) == 0x340BC6D9
  {
  }

  /** The checksum of "123456789" is the check value of the CRC-32 that zlib computes. */
  lemma CrcCheck()
    ensures Crc(DIGITS) == 0xCBF4_3926
  {
    CrcBytes();
    hide CrcByte;
    var c: bv32 := 0xFFFF_FFFF;
    assert Fold(CrcByte, c, []) == c;
    FoldStep(c, DIGITS[..0], 49);
    assert DIGITS[..1] == DIGITS[..0] + [49];
    FoldStep(c, DIGITS[..1], 50);
    assert DIGITS[..2] == DIGITS[..1] + [50];
    FoldStep(c, DIGITS[..2], 51);
    assert DIGITS[..3] == DIGITS[..2] + [51];
    FoldStep(c, DIGITS[..3], 52);
    assert DIGITS[..4] == DIGITS[..3] + [52];
    FoldStep(c, DIGITS[..4], 53);
    assert DIGITS[..5] == DIGITS[..4] + [53];
    FoldStep(c, DIGITS[..5], 54);
    assert DIGITS[..6] == DIGITS[..5] + [54];
    FoldStep(c, DIGITS[..6], 55);
    assert DIGITS[..7] == DIGITS[..6] + [55];
    FoldStep(c, DIGITS[..7], 56);
    assert DIGITS[..8] == DIGITS[..7] + [56];
    FoldStep(c, DIGITS[..8], 57);
    assert DIGITS[..9] == DIGITS[..8] + [57];
    assert DIGITS[..0] == [] && DIGITS[..9] == DIGITS;
    assert Fold(CrcByte, c, DIGITS) == 0x340B_C6D9;
    assert Flip(0) == 0xFFFF_FFFF && Flip(0x340B_C6D9) == 0xCBF4_3926;
  }
}
