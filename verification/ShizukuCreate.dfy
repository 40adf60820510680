/**
 Creating a fresh image and opening an existing one.
 */
module ShizukuCreate {
  import opened Options
  import opened ByteStrings
  import opened ShizukuFormat
  import opened ShizukuDirectory
  import opened ShizukuBitmap
  import opened ShizukuTree
  import opened ShizukuImage
  import opened ShizukuStaging
  import opened ShizukuCrash
  import opened ShizukuTransaction
  import opened ShizukuRuns

  /** The tree of a fresh image: an empty root directory in the first data block. */
  function FreshNodes(dataStart: nat): Nodes {
    map[ROOT_INODE := Node(KIND_DIRECTORY, ROOT_INODE, DirHeader(0), [], [dataStart], 1)]
  }

  ghost predicate ShowsOnlyRoot(ns: Nodes) {
    forall q :: View(ns, q) == if q == [] then Some(Directory) else None
  }

  lemma {:induction false} FreshResolves(dataStart: nat, q: Path)
    ensures Resolve(FreshNodes(dataStart), q) == if q == [] then Some(ROOT_INODE) else None
  {
    if q != [] {
      FreshResolves(dataStart, q[..|q| - 1]);
    }
  }

  lemma FreshTree(dataStart: nat)
    ensures TreeOk(FreshNodes(dataStart)) && ShowsOnlyRoot(FreshNodes(dataStart))
  {
    var ns := FreshNodes(dataStart);
    forall q ensures View(ns, q) == if q == [] then Some(Directory) else None {
      FreshResolves(dataStart, q);
    }
    assert Resolve(ns, []) == Some(ROOT_INODE);
    assert Reachable(ns, ROOT_INODE);
  }

  lemma EmptyDirectoryBytes()
    ensures Encode([]) == Encoded(DirHeader(0)) && Decode(DirHeader(0)) == Some([]) && |DirHeader(0)| == 8
  {
    hide Decode, DirHeader;
    DecodeOfEncode([]);
    FieldWidths();
    assert DirHeader(0) + Records([]) == DirHeader(0);
  }

  lemma FreshUsed(dataStart: nat)
    ensures UsedBlocks(FreshNodes(dataStart)) == {dataStart} && ChainsDisjoint(FreshNodes(dataStart))
  {
    var ns := FreshNodes(dataStart);
    forall b ensures b in UsedBlocks(ns) <==> b == dataStart {
      assert ns[ROOT_INODE].blocks[0] == dataStart;
    }
  }

  ghost predicate FreshBitmap(super: Super, bitmap: seq<Byte>) {
    && |bitmap| == super.bitmapBlocks * BLOCK_SIZE
    && forall b :: 0 <= b < 8 * |bitmap| ==> (GetBit(bitmap, b) <==> b <= super.dataStart || b >= super.total)
  }

  ghost predicate FreshSuper(s: Super) {
    && MIN_BLOCKS <= s.total <= MAX_TOOL_BLOCKS && s.bitmapBlocks == BitmapBlocksFor(s.total)
    && s.dataStart == 2 + 2 * s.MetadataBlocks() && s.slot == 0 && s.generation == 1
    && s.freeBlocks == s.total - s.dataStart - 1 && s.freeInodes == INODE_COUNT - 2
  }

  lemma FreshDimensions(s: Super, disk: Disk)
    requires FreshSuper(s) && |disk| == s.total
    ensures s.dataStart + 1 < s.total && SuperValid(s, 0, |disk| * BLOCK_SIZE)
    ensures s.MetadataStart(0) == 2 && 2 + s.MetadataBlocks() <= s.dataStart
  {
  }

  lemma FreshMetadata(s: Super, bitmap: nat)
    requires FreshSuper(s) && bitmap == s.bitmapBlocks * BLOCK_SIZE
    ensures (bitmap + TABLE_SIZE) % BLOCK_SIZE == 0 && (bitmap + TABLE_SIZE) / BLOCK_SIZE == s.MetadataBlocks()
    ensures 2 + s.MetadataBlocks() <= s.dataStart < s.total
  {
  }

  lemma FreshSpace(s: Super, bitmap: seq<Byte>)
    requires FreshSuper(s) && FreshBitmap(s, bitmap) && s.dataStart < s.total
    ensures SpaceOk(s, bitmap, FreshNodes(s.dataStart))
  {
    hide GetBit;
    FreshUsed(s.dataStart);
  }

  lemma ZeroSlot(m: nat)
    requires m < INODE_COUNT
    ensures InodeAt(Zeros(TABLE_SIZE), m) == Free
  {
    hide Unpack;
    var raw := Slot(Zeros(TABLE_SIZE), m);
    assert AllZero(raw);
  }

  lemma FreshNode(disk: Disk, img: Img)
    requires FreshSuper(img.super) && FreshBitmap(img.super, img.bitmap) && |disk| == img.super.total
    requires |img.inodes| == TABLE_SIZE && img.super.dataStart < |disk|
    requires disk[img.super.dataStart] == DataBlock(ROOT_INODE, 0, DirHeader(0))
    requires InodeAt(img.inodes, ROOT_INODE) == Used(InodeFor(ROOT_INODE, FreshNodes(img.super.dataStart)[ROOT_INODE]))
    ensures NodeOn(disk, img, ROOT_INODE, FreshNodes(img.super.dataStart)[ROOT_INODE])
  {
    hide InodeAt, DataBlock, Crc, Decode, DirHeader, GetBit;
    EmptyDirectoryBytes();
    var nd := FreshNodes(img.super.dataStart)[ROOT_INODE];
    assert Chunk(nd.content, 0) == nd.content;
    assert LinkOn(disk, ROOT_INODE, nd.blocks, nd.content, 0);
    assert Allocated(img.super, img.bitmap, nd.blocks[0]);
  }

  /** The image that `create` lays out. */
  ghost predicate FreshImage(disk: Disk, img: Img) {
    && FreshSuper(img.super) && FreshBitmap(img.super, img.bitmap) && |disk| == img.super.total
    && img.super.dataStart < |disk|
    && img.inodes == WithSlot(Zeros(TABLE_SIZE), ROOT_INODE,
                              InodeBytes(InodeFor(ROOT_INODE, FreshNodes(img.super.dataStart)[ROOT_INODE])))
    && disk[img.super.dataStart] == DataBlock(ROOT_INODE, 0, DirHeader(0))
  }

  lemma FreshWellFormed(disk: Disk, img: Img)
    requires FreshImage(disk, img)
    ensures WellFormed(disk, img, FreshNodes(img.super.dataStart))
  {
    hide InodeAt, DataBlock, Crc, Decode, DirHeader, GetBit, SpaceOk, TreeOk, NodeOn, WithSlot, InodeBytes, SuperValid;
    var ns := FreshNodes(img.super.dataStart);
    var nd := ns[ROOT_INODE];
    FreshDimensions(img.super, disk);
    EmptyDirectoryBytes();
    PowValues();
    InodeForFits(ROOT_INODE, nd);
    forall m: nat | m < INODE_COUNT
      ensures InodeAt(img.inodes, m) == if m == ROOT_INODE then Used(InodeFor(m, nd)) else Free
    {
      StoredSlot(Zeros(TABLE_SIZE), ROOT_INODE, nd, m);
      ZeroSlot(m);
    }
    FreshNode(disk, img);
    FreshTree(img.super.dataStart);
    FreshSpace(img.super, img.bitmap);
  }

  lemma ZeroBlockRefused(slot: nat, size: nat)
    ensures FromBlock(Zeros(BLOCK_SIZE), slot, size) == Corrupt
  {
    hide ParseSuper;
    SuperWidth();
    ZeroRefused(SUPER_FIELDS, slot, size);
  }

  lemma ZeroRefused(fmt: seq<nat>, slot: nat, size: nat)
    requires |fmt| == 16 && Width(fmt) == 76 && fmt[0] == 8
    ensures ParseSuper(fmt, Zeros(BLOCK_SIZE), slot, size) == Corrupt
  {
    hide SuperOfValues, SuperChecksum, Unpack, Width, UnLE;
    var b := Zeros(BLOCK_SIZE)[..76];
    FirstField(fmt, b);
    ZeroValue(8);
    assert b[..8] == Zeros(8);
  }

  lemma FirstField(fmt: seq<nat>, s: seq<Byte>)
    requires fmt != [] && |s| == Width(fmt)
    ensures fmt[0] <= |s| && Unpack(fmt, s)[0] == UnLE(s[..fmt[0]])
  {
    hide UnLE;
  }

  lemma {:induction false} ZeroValue(n: nat)
    ensures UnLE(Zeros(n)) == 0
  {
    if n > 0 {
      ZeroValue(n - 1);
      assert Zeros(n)[1..] == Zeros(n - 1);
    }
  }

  /** A fresh image on disk opens to itself, and the second slot holds nothing. */
  lemma FreshOpens(disk: Disk, img: Img)
    requires FreshImage(disk, img) && img.super.metadataCrc == Crc(img.bitmap + img.inodes)
    requires disk[0] == ToBlock(img.super) && disk[1] == Zeros(BLOCK_SIZE)
    requires 2 + img.super.MetadataBlocks() <= |disk|
    requires Join(disk[2..2 + img.super.MetadataBlocks()]) == img.bitmap + img.inodes
    ensures Clean(disk, img)
  {
    hide FromBlock, ToBlock, Crc, Join, DataBlock, GetBit, WithSlot, InodeBytes;
    FreshDimensions(img.super, disk);
    PowValues();
    SuperRoundTrip(img.super, 0, |disk| * BLOCK_SIZE);
    ZeroBlockRefused(1, |disk| * BLOCK_SIZE);
    var n := img.super.bitmapBlocks * BLOCK_SIZE;
    assert (img.bitmap + img.inodes)[..n] == img.bitmap && (img.bitmap + img.inodes)[n..] == img.inodes;
  }

  method FreshBits(super: Super) returns (bitmap: seq<Byte>)
    requires FreshSuper(super)
    ensures FreshBitmap(super, bitmap)
  {
    hide GetBit;
    bitmap := Zeros(super.bitmapBlocks * BLOCK_SIZE);
    forall b | 0 <= b < 8 * |bitmap| ensures !GetBit(bitmap, b) {
      ClearBit(bitmap, b);
    }
    bitmap := MarkAllocatedRange(bitmap, 0, super.dataStart);
    bitmap := MarkAllocatedRange(bitmap, super.total, |bitmap| * 8);
    forall b | 0 <= b < 8 * |bitmap|
      ensures GetBit(SetBit(bitmap, super.dataStart, true), b) <==> b == super.dataStart || GetBit(bitmap, b)
    {
      SetBitExact(bitmap, super.dataStart, true, b);
    }
    bitmap := SetBit(bitmap, super.dataStart, true);
  }

  /** Lays out a new image; it holds an empty root directory and nothing else. */
  method Create(blocks: int) returns (status: Status, disk: Disk, ghost img: Img)
    ensures status in {Done, InvalidLength}
    ensures status == Done <==> MIN_BLOCKS <= blocks <= MAX_TOOL_BLOCKS
    ensures status == Done ==> |disk| == blocks && Open(disk) == Opened(img)
    ensures status == Done ==> Holds(World(disk, [], img), FreshNodes(img.super.dataStart))
    ensures status == Done ==> ShowsOnlyRoot(FreshNodes(img.super.dataStart))
  {
    hide FromBlock, ToBlock, Crc, Join, Split, DataBlock, GetBit, WithSlot, InodeBytes, OpenSlot, Open, WellFormed, TreeOk, ShowsOnlyRoot, Encode, DirHeader;
    disk, img := [], Img(Super(0, 0, 0, 0, 0, 0, 0, 0), [], []);
    if !(MIN_BLOCKS <= blocks <= MAX_TOOL_BLOCKS) {
      return InvalidLength, disk, img;
    }
    var bitmapBlocks := BitmapBlocksFor(blocks);
    var dataStart := 2 + 2 * (bitmapBlocks + INODE_BLOCKS);
    if dataStart + 1 >= blocks {
      assert false;
    }
    var draft := Super(blocks, bitmapBlocks, dataStart, 0, 1, blocks - dataStart - 1, INODE_COUNT - 2, 0);
    var bitmap := FreshBits(draft);
    EmptyDirectoryBytes();
    var payload := EncodeDirectory([]);
    var root := Inode(ROOT_INODE, KIND_DIRECTORY, ROOT_INODE, |payload.bytes|, dataStart, 1, Crc(payload.bytes), 1);
    var inodes := WithSlot(Zeros(TABLE_SIZE), ROOT_INODE, InodeBytes(root));
    var metadata := bitmap + inodes;
    var super := draft.(metadataCrc := Crc(metadata));
    img := Img(super, bitmap, inodes);
    FreshMetadata(super, |bitmap|);
    disk := Layered(blocks, dataStart, ToBlock(super), Split(metadata), DataBlock(ROOT_INODE, 0, payload.bytes));
    JoinOfSplit(metadata);
    FreshWellFormed(disk, img);
    FreshTree(dataStart);
    FreshOpens(disk, img);
    OpensTo(disk, img, FreshNodes(dataStart));
    status := Done;
  }

  /** The three writes of a creation, on a zero-filled file. */
  method Layered(total: nat, dataStart: nat, header: Block, metadata: seq<Block>, root: Block) returns (disk: Disk)
    requires 2 + |metadata| <= dataStart < total
    ensures |disk| == total && disk[0] == header && disk[1] == Zeros(BLOCK_SIZE) && disk[dataStart] == root
    ensures disk[2..2 + |metadata|] == metadata
  {
    var device := new Device(seq(total, _ => Zeros(BLOCK_SIZE)));
    device.WriteAt(dataStart, [root]);
    device.WriteAt(2, metadata);
    device.WriteAt(0, [header]);
    disk := device.blocks;
  }

  // ---- Opening ----

  lemma SlotAttached(disk: Disk, slot: nat)
    requires |disk| >= MIN_BLOCKS && slot < 2 && OpenSlot(disk, slot).Some?
    ensures Attached(disk, OpenSlot(disk, slot).value) && Layout(disk, OpenSlot(disk, slot).value)
  {
    hide FromBlock, ToBlock, Crc, Join;
    SuperAcceptsOnlyWritten(disk[slot], slot, |disk| * BLOCK_SIZE);
    MetadataInside(OpenSlot(disk, slot).value.super, slot, |disk| * BLOCK_SIZE);
  }

  /** Tries both slots and keeps the candidate with the highest generation. */
  method OpenImage(device: Device, writable: bool) returns (status: Status, image: Image?)
    ensures status in {Done, UnsupportedImage, CorruptImage}
    ensures status == Done <==> Open(device.blocks).Opened?
    ensures status == UnsupportedImage <==> Open(device.blocks).OpenUnsupported?
    ensures status == Done ==> image != null && fresh(image) && image.device == device && image.writable == writable
    ensures status == Done ==> image.Valid() && Open(device.blocks) == Opened(image.Value())
  {
    hide OpenSlot, FromBlock, Layout;
    image := null;
    if |device.blocks| < MIN_BLOCKS {
      return CorruptImage, null;
    }
    var best: Option<Img>, unsupported := None, false;
    for slot := 0 to 2
      invariant unsupported <==> exists s :: 0 <= s < slot && FromBlock(device.blocks[s], s, |device.blocks| * BLOCK_SIZE).UnsupportedVersion?
      invariant slot == 0 ==> best == None
      invariant slot == 1 ==> best == OpenSlot(device.blocks, 0)
      invariant slot == 2 ==> if best.None? then !Open(device.blocks).Opened? else Open(device.blocks) == Opened(best.value)
      invariant best.Some? ==> Attached(device.blocks, best.value) && Layout(device.blocks, best.value)
    {
      var candidate := OpenSlot(device.blocks, slot);
      if candidate.Some? {
        SlotAttached(device.blocks, slot);
        if best.None? || candidate.value.super.generation > best.value.super.generation {
          best := candidate;
        }
      }
      unsupported := unsupported || FromBlock(device.blocks[slot], slot, |device.blocks| * BLOCK_SIZE).UnsupportedVersion?;
    }
    if best.None? {
      return if unsupported then UnsupportedImage else CorruptImage, null;
    }
    image := new Image(device, best.value, writable);
    status := Done;
  }
}
