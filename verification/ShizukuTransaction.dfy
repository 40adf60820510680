/**
 The block device, the opened image and the copy-on-write transaction, as the objects
 whose fields the program updates.
 */
module ShizukuTransaction {
  import opened Options
  import opened ByteStrings
  import opened ShizukuFormat
  import opened ShizukuDirectory
  import opened ShizukuBitmap
  import opened ShizukuTree
  import opened ShizukuImage
  import opened ShizukuStaging
  import opened ShizukuCrash
  import opened ShizukuVerify

  datatype Status =
    | Done | ReadOnly | CorruptImage | ChainLimit | NoSpace | NotFound | NotADirectory | AlreadyExists
    | IsADirectory | NotEmpty | InvalidPath | InvalidLength | UnsupportedImage | SourceChanged | FieldOverflow

  /** A file of whole blocks; the log records writes and flushes in the order issued. */
  class Device {
    var blocks: Disk
    ghost var log: seq<Event>

    constructor (contents: Disk)
      ensures blocks == contents && log == []
    {
      blocks := contents;
      log := [];
    }

    method WriteAt(at: nat, data: seq<Block>)
      requires at + |data| <= |blocks|
      modifies this
      ensures blocks == ApplyOne(old(blocks), Write(at, data))
      ensures log == old(log) + [Write(at, data)]
    {
      log := log + [Write(at, data)];
      blocks := blocks[..at] + data + blocks[at + |data|..];
    }

    method Flush()
      modifies this`log
      ensures log == old(log) + [Sync]
    {
      log := log + [Sync];
    }
  }

  class Image {
    const device: Device
    var super: Super
    var bitmap: seq<Byte>
    var inodes: seq<Byte>
    const writable: bool

    constructor (device: Device, img: Img, writable: bool)
      ensures this.device == device && this.writable == writable && Value() == img
    {
      this.device := device;
      this.super, this.bitmap, this.inodes := img.super, img.bitmap, img.inodes;
      this.writable := writable;
    }

    function Value(): Img
      reads this
    {
      Img(super, bitmap, inodes)
    }

    /** Writes a generation's metadata, then its superblock, each followed by a flush. */
    method Publish(staged: Img)
      requires staged.super.slot < 2 <= |device.blocks| && (|staged.bitmap| + |staged.inodes|) % BLOCK_SIZE == 0
      requires staged.super.MetadataStart(staged.super.slot) + |Split(staged.bitmap + staged.inodes)| <= |device.blocks|
      modifies this, device
      ensures Value() == staged
      ensures device.blocks == ApplyOne(ApplyOne(old(device.blocks), CommitTail(staged)[1]), CommitTail(staged)[3])
      ensures device.log == old(device.log) + [CommitTail(staged)[1]] + [Sync] + [CommitTail(staged)[3]] + [Sync]
    {
      hide Split, ToBlock;
      device.WriteAt(staged.super.MetadataStart(staged.super.slot), Split(staged.bitmap + staged.inodes));
      device.Flush();
      device.WriteAt(staged.super.slot, [ToBlock(staged.super)]);
      device.Flush();
      super, bitmap, inodes := staged.super, staged.bitmap, staged.inodes;
    }

    /** Opened from this device, which nobody else has written since. */
    ghost predicate Valid()
      reads this, device
    {
      Attached(device.blocks, Value()) && Layout(device.blocks, Value())
    }
  }

  lemma ApplyWriteOne(d: Disk, b: nat, block: Block)
    requires b < |d|
    ensures ApplyOne(d, Write(b, [block])) == d[b := block]
  {
  }

  class Transaction {
    const image: Image
    var bitmap: seq<Byte>
    var inodes: seq<Byte>
    var freeBlocks: nat
    var freeInodes: nat
    var releaseBlocks: set<nat>
    var nextSearch: nat
    var generation: nat

    // The committed state this transaction started from, and what is staged so far.
    ghost const d0: Disk
    ghost const i0: Img
    ghost const ns0: Nodes
    ghost const log0: seq<Event>
    ghost var nodes: Nodes
    ghost var alloc: set<nat>
    ghost var data: seq<Event>
    ghost var reserved: nat

    function Staging(): Img
      reads this, image
    {
      Img(image.super.(generation := generation), bitmap, inodes)
    }

    ghost predicate Logged()
      reads this, image, image.device
    {
      && image.device.log == log0 + data && DataLog(d0, i0, data)
      && image.device.blocks == Apply(d0, data)
    }

    ghost predicate Valid(pending: set<nat>)
      reads this, image, image.device
    {
      && image.Value() == i0 && generation == i0.super.generation + 1
      && Logged()
      && Staged(d0, i0, ns0, image.device.blocks, Staging(), nodes, freeBlocks, nextSearch, alloc, releaseBlocks, pending)
      && freeInodes + |nodes| + reserved == INODE_COUNT - 1
    }

    constructor (image: Image, ghost ns: Nodes)
      requires WellFormed(image.device.blocks, image.Value(), ns)
      ensures this.image == image && Valid({})
      ensures d0 == image.device.blocks && i0 == image.Value() && ns0 == ns && log0 == image.device.log
      ensures nodes == ns && data == [] && reserved == 0 && releaseBlocks == {} && alloc == {}
      ensures freeBlocks == image.super.freeBlocks && freeInodes == image.super.freeInodes
    {
      this.image := image;
      bitmap, inodes := image.bitmap, image.inodes;
      freeBlocks, freeInodes := image.super.freeBlocks, image.super.freeInodes;
      releaseBlocks, nextSearch := {}, image.super.dataStart;
      generation := image.super.generation + 1;
      d0, i0, ns0, log0 := image.device.blocks, image.Value(), ns, image.device.log;
      nodes, alloc, data, reserved := ns, {}, [], 0;
      new;
      StagedInitially(d0, i0, ns0);
      assert Staging() == i0.(super := i0.super.(generation := i0.super.generation + 1));
    }

    /** First-fit allocation; the free counter never promises a block the bitmap lacks. */
    method AllocateBlocks(count: nat) returns (status: Status, blocks: seq<nat>)
      requires Valid({})
      modifies this`bitmap, this`freeBlocks, this`nextSearch, this`alloc
      ensures status == Done || status == ChainLimit || status == NoSpace
      ensures status == ChainLimit <==> count > MAX_CHAIN_BLOCKS
      ensures status == NoSpace <==> old(freeBlocks) < count <= MAX_CHAIN_BLOCKS
      ensures status != Done ==> Valid({})
      ensures status == Done ==>
        && Valid(BlockSet(blocks)) && |blocks| == count && Distinct(blocks) && BlockSet(blocks) <= alloc
        && freeBlocks == old(freeBlocks) - count
        && forall i :: 0 <= i < |blocks| ==> IsFree(i0, blocks[i])
    {
      hide Staged, WellFormed, AllocatorOk, FreshBlocks, DataLog, Apply, IsFree, BlockSet, Distinct, Scanned;
      blocks := [];
      if count == 0 {
        EmptyBlocks();
        return Done, [];
      }
      if count > MAX_CHAIN_BLOCKS {
        return ChainLimit, [];
      }
      if count > freeBlocks {
        return NoSpace, [];
      }
      ghost var img, free, next, taken := Staging(), freeBlocks, nextSearch, alloc;
      AllocatorStaged(d0, i0, ns0, image.device.blocks, img, nodes, free, next, taken, releaseBlocks);
      bitmap, nextSearch, blocks := ScanFree(bitmap, nextSearch, image.super.total, count, i0, free, taken);
      freeBlocks := freeBlocks - count;
      alloc := taken + BlockSet(blocks);
      BlocksTaken(d0, i0, ns0, image.device.blocks, img, nodes, free, next, taken, releaseBlocks,
                  bitmap, freeBlocks, nextSearch, blocks);
      assert Staging() == img.(bitmap := bitmap);
      status := Done;
    }

    /** The lowest free inode number; the free counter never promises a slot the table lacks. */
    method AllocateInode() returns (status: Status, number: nat)
      requires Valid({}) && reserved == 0 && Numbered(nodes)
      modifies this`freeInodes, this`reserved
      ensures status == Done || status == NoSpace
      ensures status == NoSpace <==> old(freeInodes) == 0
      ensures status == NoSpace ==> Valid({})
      ensures status == Done ==> Valid({}) && reserved == 1 && 2 <= number < INODE_COUNT && number !in nodes
    {
      hide WellFormed, AllocatorOk, Accounted, DataLog, NodeOn;
      number := 0;
      if freeInodes == 0 {
        return NoSpace, 0;
      }
      for n := 2 to INODE_COUNT
        invariant freeInodes > 0 && reserved == 0 && Valid({})
        invariant forall m :: 2 <= m < n ==> m in nodes
      {
        SlotFree(image.device.blocks, Staging(), nodes, n);
        if AllZero(Slot(inodes, n)) {
          freeInodes := freeInodes - 1;
          reserved := 1;
          return Done, n;
        }
      }
      FullTable(nodes);
      assert false;
    }

    /** The transaction has been given up: nothing but free blocks was touched. */
    ghost predicate Abandoned()
      reads this, image, image.device
    {
      image.Value() == i0 && Logged()
    }

    /** Collects the blocks of an inode's committed chain by following its links on disk. */
    method ReleaseContent(inode: Inode, ghost nd: Node)
      requires Small(image.super)
      requires inode == InodeFor(inode.number, nd) && inode.number < INODE_COUNT
      requires ChainOn(image.device.blocks, inode.number, nd.blocks, nd.content)
      requires forall i :: 0 <= i < |nd.blocks| ==> nd.blocks[i] < image.super.total
      modifies this`releaseBlocks
      ensures releaseBlocks == old(releaseBlocks) + BlockSet(nd.blocks)
    {
      hide DataBlock, DataHeader, DataAccepted, Crc, BlockSet;
      var current := inode.firstBlock;
      EmptyBlocks();
      PowValues();
      for k := 0 to inode.blockCount
        invariant current == if k < |nd.blocks| then nd.blocks[k] else 0
        invariant releaseBlocks == old(releaseBlocks) + BlockSet(nd.blocks[..k])
      {
        assert LinkOn(image.device.blocks, inode.number, nd.blocks, nd.content, k);
        SnocBlocks(nd.blocks[..k], current);
        assert nd.blocks[..k + 1] == nd.blocks[..k] + [current];
        releaseBlocks := releaseBlocks + {current};
        DataRoundTrip(inode.number, NextOf(nd.blocks, k), Chunk(nd.content, k));
        current := DataHeader(image.device.blocks[current])[2];
      }
      assert nd.blocks[..|nd.blocks|] == nd.blocks;
    }

    /** What the caller of a store must know about the version it replaces, if any. */
    ghost predicate Replaces(number: nat, previous: Option<Inode>)
      reads this
    {
      match previous
      case Some(inode) =>
        number in nodes && number in ns0 && nodes[number] == ns0[number] && inode == InodeFor(number, nodes[number])
      case None => number !in nodes && reserved == 1
    }

    /** Puts the inode into the staged table and marks the replaced chain for release. */
    method StoreInode(inode: Inode, previous: Option<Inode>, ghost nd: Node, ghost d: Disk)
      requires image.Value() == i0 && generation == i0.super.generation + 1 && Logged()
      requires freeInodes + |nodes| + reserved == INODE_COUNT - 1
      requires inode.number < INODE_COUNT && inode == InodeFor(inode.number, nd) && Replaces(inode.number, previous)
      requires Staged(d0, i0, ns0, d, Staging(), nodes, freeBlocks, nextSearch, alloc, releaseBlocks, BlockSet(nd.blocks))
      requires nd.parent < INODE_COUNT && ValidKind(nd.kind) && nd.generation == generation < Pow256(8)
      requires |nd.blocks| <= MAX_CHAIN_BLOCKS && Distinct(nd.blocks) && BlockSet(nd.blocks) <= alloc
      requires ChainOn(image.device.blocks, inode.number, nd.blocks, nd.content)
      requires WrittenOnly(d, image.device.blocks, nd.blocks)
      requires NodeDecodes(nd)
      modifies this
      ensures Valid({}) && nodes == old(nodes)[inode.number := nd]
      ensures reserved == if previous.Some? then old(reserved) else 0
      ensures generation == old(generation) && freeBlocks == old(freeBlocks)
    {
      hide WellFormed, Staged, DataBlock, Decode, Crc, InodeBytes, WithSlot, DataLog, ChainOn, WrittenOnly, Apply, Distinct,
        BlockSet, InodeFits, BlocksFor;
      var number := inode.number;
      ghost var img, release, was, disk := Staging(), releaseBlocks, nodes, image.device.blocks;
      TableStaged(d0, i0, ns0, d, img, was, freeBlocks, nextSearch, alloc, release, BlockSet(nd.blocks));
      ghost var ns, img' := was[number := nd], img.(inodes := WithSlot(inodes, number, InodeBytes(inode)));
      OldBlocksUsed(was, ns0, number);
      StagedAfterStore(d0, i0, ns0, d, img, was, freeBlocks, nextSearch, alloc, release, disk, number, nd);
      SizeOfUpdate(was, number, nd);
      if previous.Some? {
        ChainStaged(d0, i0, ns0, disk, img', ns, freeBlocks, nextSearch, alloc, release + OldBlocks(was, number), number);
      }
      inodes := WithSlot(inodes, number, InodeBytes(inode));
      nodes := ns;
      if previous.Some? {
        ReleaseContent(previous.value, was[number]);
      } else {
        reserved := 0;
      }
      assert releaseBlocks == release + OldBlocks(was, number);
      assert Staging() == img';
    }

    /** Writes a chain to blocks that are free in the committed image, and records the writes. */
    method WriteData(blocks: seq<nat>, number: nat, stream: seq<Byte>, size: nat) returns (ok: bool, contentCrc: bv32)
      requires Logged() && |blocks| == BlocksFor(size) && Distinct(blocks)
      requires forall i :: 0 <= i < |blocks| ==> blocks[i] < |image.device.blocks| && IsFree(i0, blocks[i])
      modifies this`data, image.device
      ensures Logged() && (ok <==> |stream| == size)
      ensures WrittenOnly(old(image.device.blocks), image.device.blocks, blocks)
      ensures ok ==> ChainOn(image.device.blocks, number, blocks, stream) && contentCrc == Crc32(stream, 0)
    {
      hide DataLog, ChainOn, WrittenOnly, Apply, Distinct, BlockSet, BlocksFor, IsFree, Crc32;
      ghost var writes;
      ok, contentCrc, writes := WriteChain(image.device, blocks, number, stream, size);
      DataLogConcat(d0, i0, data, writes);
      assert log0 + data + writes == log0 + (data + writes);
      data := data + writes;
    }

    /**
     Writes content to freshly allocated blocks, stores the inode and, when it replaces an
     older version, marks that version's chain for release.
     */
    method WriteInodeContent(number: nat, kind: nat, parent: nat, stream: seq<Byte>, size: nat,
                             previous: Option<Inode>, ghost entries: seq<Entry>)
      returns (status: Status)
      requires Valid({}) && number < INODE_COUNT && parent < INODE_COUNT && ValidKind(kind)
      requires Replaces(number, previous)
      requires if kind == KIND_DIRECTORY then |stream| == size && Decode(stream) == Some(entries) else entries == []
      modifies this, image.device
      ensures status in {Done, ChainLimit, NoSpace, SourceChanged, FieldOverflow}
      ensures status != Done ==> Abandoned()
      ensures status == SourceChanged ==> |stream| != size
      ensures status == ChainLimit ==> BlocksFor(size) > MAX_CHAIN_BLOCKS
      ensures status == NoSpace ==> old(freeBlocks) < BlocksFor(size)
      ensures status == FieldOverflow ==> generation >= Pow256(8)
      ensures status == Done ==> freeBlocks == old(freeBlocks) - BlocksFor(size)
      ensures generation == old(generation)
      ensures status == Done ==> Valid({}) && |stream| == size && generation < Pow256(8)
      ensures status == Done ==> Stores(old(nodes), nodes, number, kind, parent, stream, entries, generation)
      ensures status == Done ==> reserved == if previous.Some? then old(reserved) else 0
    {
      hide WellFormed, Staged, Decode, Crc32, DataLog, ChainOn, WrittenOnly, Apply, Distinct, BlockSet, BlocksFor, IsFree;
      var count := BlocksFor(size);
      var blocks;
      status, blocks := AllocateBlocks(count);
      if status != Done {
        return;
      }
      ghost var d := image.device.blocks;
      BlocksStaged(d0, i0, ns0, d, Staging(), nodes, freeBlocks, nextSearch, alloc, releaseBlocks, BlockSet(blocks), blocks);
      var ok, contentCrc := WriteData(blocks, number, stream, size);
      if !ok {
        return SourceChanged;
      }
      PowValues();
      if generation >= 0x1_0000_0000_0000_0000 {
        return FieldOverflow;
      }
      ghost var nd := Node(kind, parent, stream, entries, blocks, generation);
      var inode := Inode(number, kind, parent, size, First(blocks), count, contentCrc as int, generation);
      assert inode == InodeFor(number, nd) by { CrcOf(stream, contentCrc); }
      StoreInode(inode, previous, nd, d);
      status := Done;
    }

    method RewriteDirectory(directory: Inode, entries: seq<Entry>) returns (status: Status)
      requires Valid({}) && directory.number < INODE_COUNT && directory.parent < INODE_COUNT
      requires Replaces(directory.number, Some(directory))
      modifies this, image.device
      ensures status in {Done, ChainLimit, NoSpace, FieldOverflow, InvalidPath}
      ensures status == InvalidPath ==> Encode(entries).InvalidName? || Encode(entries).InvalidEntry?
      ensures status == ChainLimit ==> Encode(entries).Encoded? && BlocksFor(|Encode(entries).bytes|) > MAX_CHAIN_BLOCKS
      ensures status == NoSpace ==> DirectoryTooBig(entries, old(freeBlocks))
      ensures status == FieldOverflow ==> generation >= Pow256(8)
      ensures status != Done ==> Abandoned()
      ensures generation == old(generation)
      ensures status == Done ==> Valid({}) && generation < Pow256(8) && reserved == old(reserved) && Encode(entries).Encoded?
      ensures status == Done ==> Stores(old(nodes), nodes, directory.number, KIND_DIRECTORY, directory.parent,
                                        Encode(entries).bytes, Sort(entries), generation)
    {
      hide Encode, Decode, Staged, DataLog, Stores;
      var encoded := EncodeDirectory(entries);
      match encoded
      case Encoded(bytes) =>
        DecodeOfEncode(entries);
        status := WriteInodeContent(directory.number, KIND_DIRECTORY, directory.parent, bytes, |bytes|,
                                    Some(directory), Sort(entries));
      case TooManyEntries =>
        status := NoSpace;
      case _ =>
        status := InvalidPath;
    }

    method ReleaseInode(inode: Inode)
      requires Valid({}) && inode.number < INODE_COUNT && Replaces(inode.number, Some(inode))
      modifies this
      ensures Valid({}) && nodes == old(nodes) - {inode.number}
      ensures generation == old(generation) && reserved == old(reserved)
    {
      hide WellFormed, AllocatorOk, DataBlock, Decode, NodeOn, Crc, DataLog, Accounted, TableOn, WithSlot;
      var n := inode.number;
      ghost var img, was, release := Staging(), nodes, releaseBlocks;
      ChainKept(d0, i0, ns0, image.device.blocks, n);
      OldBlocksUsed(was, ns0, n);
      StagedAfterRelease(d0, i0, ns0, image.device.blocks, img, was, freeBlocks, nextSearch, alloc, release, n);
      ReleaseContent(inode, was[n]);
      inodes := WithSlot(inodes, n, Zeros(INODE_SIZE));
      freeInodes := freeInodes + 1;
      nodes := was - {n};
      SizeOfRemove(was, n);
      assert Staging() == img.(inodes := inodes);
    }

    /** Stages a new inode and the directory that lists it; `ns1` are the nodes in between. */
    method StageEntry(entry: Entry, stream: seq<Byte>, size: nat, directory: Inode, entries: seq<Entry>)
      returns (status: Status, ghost ns1: Nodes)
      requires Valid({}) && reserved == 1 && entry.inode < INODE_COUNT && entry.inode !in nodes && ValidKind(entry.kind)
      requires entry.kind == KIND_DIRECTORY ==> |stream| == size && Decode(stream) == Some([])
      requires directory.number < INODE_COUNT && directory.parent < INODE_COUNT && Replaces(directory.number, Some(directory))
      modifies this, image.device
      ensures generation == old(generation) && (status != Done ==> Abandoned())
      ensures status == Done ==>
        && Valid({}) && reserved == 0 && generation < Pow256(8) && |stream| == size && Encode(entries).Encoded?
        && Stores(old(nodes), ns1, entry.inode, entry.kind, directory.number, stream, [], generation)
        && Stores(ns1, nodes, directory.number, KIND_DIRECTORY, directory.parent, Encode(entries).bytes, Sort(entries), generation)
      ensures status != Done ==> StagingCause(old(freeBlocks), generation, entries, stream, size, status)
    {
      hide Encode, Decode, Staged, DataLog, Apply, Sort, BlocksFor, DirectoryTooBig, Stores, InodeFor;
      ghost var ns := nodes;
      status := WriteInodeContent(entry.inode, entry.kind, directory.number, stream, size, None, []);
      ns1 := nodes;
      if status != Done {
        return;
      }
      OtherKept(ns, ns1, entry.inode, entry.kind, directory.number, stream, [], generation, directory.number);
      status := RewriteDirectory(directory, entries);
    }

    /** Stages a new entry under a fresh inode; `entry.inode` is 0 if no inode was free. */
    method AddEntry(name: Name, kind: nat, stream: seq<Byte>, size: nat, directory: Inode, entries: seq<Entry>)
      returns (status: Status, entry: Entry, ghost ns1: Nodes)
      requires Valid({}) && reserved == 0 && Numbered(nodes)
      requires ValidKind(kind) && (kind == KIND_DIRECTORY ==> |stream| == size && Decode(stream) == Some([]))
      requires directory.number < INODE_COUNT && directory.parent < INODE_COUNT && Replaces(directory.number, Some(directory))
      modifies this, image.device
      ensures generation == old(generation) && (status != Done ==> Abandoned())
      ensures entry.name == name && entry.kind == kind
      ensures entry.inode == 0 ==> status == NoSpace && old(freeInodes) == 0
      ensures entry.inode != 0 ==> 2 <= entry.inode < INODE_COUNT && entry.inode !in old(nodes)
      ensures var es := entries + [entry];
        && (status == Done ==>
              && Valid({}) && reserved == 0 && generation < Pow256(8) && |stream| == size && Encode(es).Encoded?
              && Stores(old(nodes), ns1, entry.inode, kind, directory.number, stream, [], generation)
              && Stores(ns1, nodes, directory.number, KIND_DIRECTORY, directory.parent, Encode(es).bytes, Sort(es), generation))
        && (entry.inode != 0 && status != Done ==> StagingCause(old(freeBlocks), generation, es, stream, size, status))
    {
      hide Encode, Decode, Staged, DataLog, Apply, Sort, BlocksFor, DirectoryTooBig, Stores, InodeFor, ValidKind, Numbered, StagingCause;
      var number;
      status, number := AllocateInode();
      ns1 := nodes;
      if status != Done {
        entry := Entry(name, 0, kind);
        return;
      }
      entry := Entry(name, number, kind);
      status, ns1 := StageEntry(entry, stream, size, directory, entries + [entry]);
    }

    /** Stages a directory without one entry, and the release of that entry's inode. */
    method StageRemoval(directory: Inode, entries: seq<Entry>, inode: Inode) returns (status: Status, ghost ns1: Nodes)
      requires Valid({}) && directory.number < INODE_COUNT && directory.parent < INODE_COUNT
      requires Replaces(directory.number, Some(directory))
      requires inode.number < INODE_COUNT && inode.number != directory.number && Replaces(inode.number, Some(inode))
      modifies this, image.device
      ensures generation == old(generation) && (status != Done ==> Abandoned())
      ensures status in {Done, ChainLimit, NoSpace, FieldOverflow, InvalidPath}
      ensures status == Done ==>
        && Valid({}) && reserved == old(reserved) && generation < Pow256(8) && Encode(entries).Encoded?
        && Stores(old(nodes), ns1, directory.number, KIND_DIRECTORY, directory.parent, Encode(entries).bytes, Sort(entries), generation)
        && nodes == ns1 - {inode.number}
      ensures status == InvalidPath ==> Encode(entries).InvalidName? || Encode(entries).InvalidEntry?
      ensures status == ChainLimit ==> Encode(entries).Encoded? && BlocksFor(|Encode(entries).bytes|) > MAX_CHAIN_BLOCKS
      ensures status == NoSpace ==> DirectoryTooBig(entries, old(freeBlocks))
      ensures status == FieldOverflow ==> generation >= Pow256(8)
    {
      hide Encode, Staged, DataLog, Apply, Sort, BlocksFor, DirectoryTooBig, Stores, InodeFor;
      ghost var ns := nodes;
      status := RewriteDirectory(directory, entries);
      ns1 := nodes;
      if status != Done {
        return;
      }
      OtherKept(ns, ns1, directory.number, KIND_DIRECTORY, directory.parent, Encode(entries).bytes, Sort(entries), generation,
                inode.number);
      ReleaseInode(inode);
    }

    /**
     Publishes the staged generation: flush data, write and flush the other metadata slot,
     write and flush its superblock. The release check and the staged image check never fail.
     */
    method Commit()
      requires Valid({}) && reserved == 0 && TreeOk(nodes) && generation < Pow256(8) && Attached(d0, i0)
      modifies this, image, image.device
      ensures nodes == old(nodes) && data == old(data)
      ensures CommittedTo(d0, i0, image.Value(), nodes, data, log0, image.device.log, image.device.blocks)
    {
      hide WellFormed, Staged, TreeOk, DataLog, ToBlock, Split, Attached, Crc, Apply, Published, CommitTail, Layout, Cleared;
      ghost var img, free, d := Staging(), freeBlocks, image.device.blocks;
      StagedFacts(d0, i0, ns0, d, img, nodes, freeBlocks, nextSearch, alloc, releaseBlocks);
      bitmap := ClearBlocks(bitmap, releaseBlocks);
      freeBlocks := freeBlocks + |releaseBlocks|;
      var metadata := bitmap + inodes;
      var slot := 1 - image.super.slot;
      var next := Super(image.super.total, image.super.bitmapBlocks, image.super.dataStart, slot, generation,
                        freeBlocks, freeInodes, Crc(metadata));
      var staged := Img(next, bitmap, inodes);
      CommitWellFormed(d0, i0, ns0, d, img, nodes, free, nextSearch, alloc, releaseBlocks, staged);
      LayoutOf(d, staged, nodes);
      CommittedLayout(d0, i0, ns0, d, img, nodes, free, nextSearch, alloc, old(releaseBlocks));
      PublishedIs(d0, i0, staged, nodes, data);
      MetadataFits(d, staged);
      image.device.Flush();
      var ok, _ := Verify(image.device.blocks, staged);
      if !ok {
        assert false;
      }
      image.Publish(staged);
      TailApplied(d0, data, staged);
      TailLogged(log0, data, staged);
      PublishedCompletes(d0, i0, staged, nodes, data);
    }
  }

  /** Why staging a new entry fails once it has an inode. */
  ghost predicate StagingCause(free: nat, generation: nat, es: seq<Entry>, stream: seq<Byte>, size: nat, status: Status) {
    match status
    case SourceChanged => |stream| != size
    case FieldOverflow => generation >= Pow256(8)
    case InvalidPath => Encode(es).InvalidName? || Encode(es).InvalidEntry?
    case ChainLimit =>
      BlocksFor(size) > MAX_CHAIN_BLOCKS || (Encode(es).Encoded? && BlocksFor(|Encode(es).bytes|) > MAX_CHAIN_BLOCKS)
    case NoSpace => free < BlocksFor(size) || DirectoryTooBig(es, free - BlocksFor(size))
    case _ => false
  }

  /** The root is there, and all numbers are in range. */
  ghost predicate Numbered(ns: Nodes) { ROOT_INODE in ns && forall n :: n in ns ==> 1 <= n < INODE_COUNT }

  /** More entries than a directory holds, or not enough free blocks for the encoding. */
  ghost predicate DirectoryTooBig(entries: seq<Entry>, free: nat) {
    Encode(entries).TooManyEntries? || (Encode(entries).Encoded? && free < BlocksFor(|Encode(entries).bytes|))
  }

  /** A transaction's data writes together with the generation they support. */
  ghost predicate Published(d0: Disk, i0: Img, i1: Img, ns1: Nodes, data: seq<Event>) {
    && Publishes(d0, i0, i1) && DataLog(d0, i0, data)
    && (|i1.bitmap| + |i1.inodes|) % BLOCK_SIZE == 0
    && WellFormed(Apply(d0, data), i1, ns1)
  }

  /** The commit ran to its end: the log it left, the disk it left, and the generation now on it. */
  ghost predicate CommittedTo(d0: Disk, i0: Img, i1: Img, ns1: Nodes, data: seq<Event>,
                              log0: seq<Event>, log: seq<Event>, disk: Disk) {
    && i1.super.slot < 2 && (|i1.bitmap| + |i1.inodes|) % BLOCK_SIZE == 0
    && log == log0 + (data + CommitTail(i1))
    && disk == Apply(d0, data + CommitTail(i1))
    && Published(d0, i0, i1, ns1, data)
    && Clean(disk, i1) && WellFormed(disk, i1, ns1)
  }

  lemma PublishedIs(d0: Disk, i0: Img, i1: Img, ns1: Nodes, data: seq<Event>)
    requires Layout(d0, i0) && WellFormed(Apply(d0, data), i1, ns1) && DataLog(d0, i0, data)
    requires i1.super == i0.super.(slot := 1 - i0.super.slot, generation := i0.super.generation + 1,
                                   freeBlocks := i1.super.freeBlocks, freeInodes := i1.super.freeInodes,
                                   metadataCrc := Crc(i1.bitmap + i1.inodes))
    requires i1.super.generation < Pow256(8)
    ensures Published(d0, i0, i1, ns1, data)
  {
    hide Crc, TableOn, TreeOk, SpaceOk;
    MetadataSize(Apply(d0, data), i1);
  }

  lemma ReleaseAllocated(d0: Disk, i0: Img, ns0: Nodes, d: Disk, img: Img, ns: Nodes,
                         free: nat, next: nat, alloc: set<nat>, release: set<nat>)
    requires Staged(d0, i0, ns0, d, img, ns, free, next, alloc, release, {})
    ensures forall b :: b in release ==> b < 8 * |img.bitmap| && GetBit(img.bitmap, b)
  {
    hide GetBit, TableOn, TreeOk;
    forall b | b in release ensures b < 8 * |img.bitmap| && GetBit(img.bitmap, b) {
      WellFormedUsed(d0, i0, ns0, b);
    }
  }

  /** Clears the released blocks; each of them is allocated when its turn comes. */
  method ClearBlocks(bitmap: seq<Byte>, release: set<nat>) returns (r: seq<Byte>)
    requires forall b :: b in release ==> b < 8 * |bitmap| && GetBit(bitmap, b)
    ensures Cleared(bitmap, r, release)
  {
    r := bitmap;
    var left := release;
    while left != {}
      invariant left <= release && |r| == |bitmap|
      invariant forall c :: 0 <= c < 8 * |bitmap| ==> (GetBit(r, c) <==> GetBit(bitmap, c) && c !in release - left)
    {
      var b :| b in left;
      if !GetBit(r, b) {
        assert false;
      }
      forall c | 0 <= c < 8 * |bitmap| ensures GetBit(SetBit(r, b, false), c) <==> GetBit(r, c) && c != b {
        SetBitExact(r, b, false, c);
      }
      r := SetBit(r, b, false);
      left := left - {b};
    }
  }

  lemma SizeOfRemove(ns: Nodes, n: nat)
    requires n in ns
    ensures |ns - {n}| == |ns| - 1
  {
    assert (ns - {n}).Keys == ns.Keys - {n};
    assert |ns - {n}| == |(ns - {n}).Keys| && |ns| == |ns.Keys|;
  }

  lemma StagedFacts(d0: Disk, i0: Img, ns0: Nodes, d: Disk, img: Img, ns: Nodes,
                    free: nat, next: nat, alloc: set<nat>, release: set<nat>)
    requires Staged(d0, i0, ns0, d, img, ns, free, next, alloc, release, {})
    ensures i0.super.slot < 2 && forall b :: b in release ==> b < 8 * |img.bitmap| && GetBit(img.bitmap, b)
  {
    hide GetBit, TableOn, TreeOk, SpaceOk, SuperValid, Staged;
    ReleaseAllocated(d0, i0, ns0, d, img, ns, free, next, alloc, release);
    CommittedLayout(d0, i0, ns0, d, img, ns, free, next, alloc, release);
  }

  lemma CommittedLayout(d0: Disk, i0: Img, ns0: Nodes, d: Disk, img: Img, ns: Nodes,
                        free: nat, next: nat, alloc: set<nat>, release: set<nat>)
    requires Staged(d0, i0, ns0, d, img, ns, free, next, alloc, release, {})
    ensures Layout(d0, i0) && i0.super.slot < 2 && |d| == |d0|
    ensures img.super == i0.super.(generation := i0.super.generation + 1)
  {
    hide GetBit, TableOn, TreeOk, SpaceOk, SuperValid, AllocatorOk, Accounted;
  }

  lemma MetadataFits(d: Disk, i1: Img)
    requires Layout(d, i1)
    ensures i1.super.slot < 2 <= |d| && (|i1.bitmap| + |i1.inodes|) % BLOCK_SIZE == 0
    ensures i1.super.MetadataStart(i1.super.slot) + |Split(i1.bitmap + i1.inodes)| <= |d|
  {
    MetadataSize(d, i1);
    LayoutFacts(d, i1);
  }

  lemma PublishedCompletes(d0: Disk, i0: Img, i1: Img, ns1: Nodes, data: seq<Event>)
    requires Attached(d0, i0) && Published(d0, i0, i1, ns1, data) && i1.super.slot < 2
    ensures (|i1.bitmap| + |i1.inodes|) % BLOCK_SIZE == 0
    ensures var disk := Apply(d0, data + CommitTail(i1)); Clean(disk, i1) && WellFormed(disk, i1, ns1)
  {
    hide WellFormed, Attached, DataLog, Apply, CommitTail, Clean;
    CommitCompletes(d0, i0, i1, ns1, data, data + CommitTail(i1));
  }

  lemma TailLogged(log0: seq<Event>, data: seq<Event>, i1: Img)
    requires i1.super.slot < 2 && (|i1.bitmap| + |i1.inodes|) % BLOCK_SIZE == 0
    ensures log0 + data + [Sync] + [CommitTail(i1)[1]] + [Sync] + [CommitTail(i1)[3]] + [Sync] == log0 + (data + CommitTail(i1))
  {
    hide Split, ToBlock;
  }

  lemma TailApplied(d0: Disk, data: seq<Event>, i1: Img)
    requires i1.super.slot < 2 && (|i1.bitmap| + |i1.inodes|) % BLOCK_SIZE == 0
    ensures Apply(d0, data + CommitTail(i1))
            == ApplyOne(ApplyOne(Apply(d0, data), CommitTail(i1)[1]), CommitTail(i1)[3])
  {
    hide ToBlock, Split, ApplyOne;
    var t := CommitTail(i1);
    assert data + t == data + [Sync] + [t[1]] + [Sync] + [t[3]] + [Sync];
    SyncChangesNothing(d0, data);
    ApplySnoc(d0, data + [Sync], t[1]);
    SyncChangesNothing(d0, data + [Sync] + [t[1]]);
    ApplySnoc(d0, data + [Sync] + [t[1]] + [Sync], t[3]);
    SyncChangesNothing(d0, data + [Sync] + [t[1]] + [Sync] + [t[3]]);
  }

  ghost predicate NodeDecodes(nd: Node) {
    if nd.kind == KIND_DIRECTORY then Decode(nd.content) == Some(nd.entries) else nd.entries == []
  }

  /** The staged node map gained or replaced exactly one node, with the given contents. */
  ghost predicate Stores(before: Nodes, after: Nodes, number: nat, kind: nat, parent: nat,
                         content: seq<Byte>, entries: seq<Entry>, generation: nat) {
    && number in after && after == before[number := after[number]]
    && after[number] == Node(kind, parent, content, entries, after[number].blocks, generation)
  }

  lemma OtherKept(ns: Nodes, ns1: Nodes, n: nat, kind: nat, parent: nat, content: seq<Byte>, entries: seq<Entry>,
                  generation: nat, other: nat)
    requires Stores(ns, ns1, n, kind, parent, content, entries, generation) && other in ns && other != n
    ensures other in ns1 && ns1[other] == ns[other]
  {
  }

  lemma SizeOfUpdate(ns: Nodes, n: nat, nd: Node)
    ensures |ns[n := nd]| == if n in ns then |ns| else |ns| + 1
  {
    assert ns[n := nd].Keys == ns.Keys + {n};
    assert |ns[n := nd]| == |ns[n := nd].Keys| && |ns| == |ns.Keys|;
  }

  lemma SlotFree(d: Disk, img: Img, ns: Nodes, n: nat)
    requires |img.inodes| == TABLE_SIZE && TableOn(d, img, ns) && n < INODE_COUNT
    ensures AllZero(Slot(img.inodes, n)) <==> n !in ns
  {
    hide Chained, Decode;
    if n in ns {
      assert NodeOn(d, img, n, ns[n]);
    }
  }

  lemma {:induction false} RangeCard(s: set<nat>, n: nat)
    requires forall m :: 1 <= m <= n ==> m in s
    ensures |s| >= n
  {
    if n > 0 {
      RangeCard(s - {n}, n - 1);
    }
  }

  lemma FullTable(ns: Nodes)
    requires ROOT_INODE in ns && forall m :: 2 <= m < INODE_COUNT ==> m in ns
    ensures |ns| >= INODE_COUNT - 1
  {
    RangeCard(ns.Keys, INODE_COUNT - 1);
    assert |ns| == |ns.Keys|;
  }

  lemma BlocksInside(d0: Disk, i0: Img, ns0: Nodes, d: Disk, blocks: seq<nat>)
    requires WellFormed(d0, i0, ns0) && |d| == |d0| && forall i :: 0 <= i < |blocks| ==> IsFree(i0, blocks[i])
    ensures forall i :: 0 <= i < |blocks| ==> blocks[i] < |d|
  {
    hide TableOn, TreeOk, GetBit;
    forall i | 0 <= i < |blocks| ensures blocks[i] < |d| {
      assert IsFree(i0, blocks[i]);
      assert !GetBit(i0.bitmap, blocks[i]);
    }
  }

  lemma CrcOf(stream: seq<Byte>, c: bv32)
    requires c == Crc32(stream, 0)
    ensures c as int == Crc(stream)
  {
  }

  lemma OldBlocksUsed(ns: Nodes, ns0: Nodes, n: nat)
    requires n in ns ==> n in ns0 && ns[n] == ns0[n]
    ensures OldBlocks(ns, n) <= UsedBlocks(ns0)
  {
    if n in ns {
      forall b | b in BlockSet(ns[n].blocks) ensures b in UsedBlocks(ns0) {
        var i :| 0 <= i < |ns0[n].blocks| && ns0[n].blocks[i] == b;
      }
    }
  }

  lemma AllocatorStaged(d0: Disk, i0: Img, ns0: Nodes, d: Disk, img: Img, ns: Nodes,
                        free: nat, next: nat, alloc: set<nat>, release: set<nat>)
    requires Staged(d0, i0, ns0, d, img, ns, free, next, alloc, release, {})
    ensures i0.super.total == img.super.total <= 8 * |i0.bitmap| && AllocatorOk(i0, img.bitmap, free, next, alloc)
  {
    hide WellFormed, Accounted, TableOn, OnlyFreeWritten, BitsAre;
  }

  lemma BlocksTaken(d0: Disk, i0: Img, ns0: Nodes, d: Disk, img: Img, ns: Nodes, free: nat, next: nat, taken: set<nat>,
                    release: set<nat>, bitmap': seq<Byte>, free': nat, next': nat, blocks: seq<nat>)
    requires Staged(d0, i0, ns0, d, img, ns, free, next, taken, release, {})
    requires i0.super.total <= 8 * |i0.bitmap| && Scanned(i0, bitmap', free', next', taken, blocks)
    ensures Staged(d0, i0, ns0, d, img.(bitmap := bitmap'), ns, free', next', taken + BlockSet(blocks), release, BlockSet(blocks))
    ensures Distinct(blocks) && forall i :: 0 <= i < |blocks| ==> IsFree(i0, blocks[i])
  {
    hide Staged, Scanned, FreshBlocks, AllocatorOk, IsFree, Distinct, BlockSet;
    ScannedFacts(i0, bitmap', free', next', taken, blocks);
    StagedAfterAllocation(d0, i0, ns0, d, img, ns, free, next, taken, release, bitmap', free', next', BlockSet(blocks));
  }

  lemma BlocksStaged(d0: Disk, i0: Img, ns0: Nodes, d: Disk, img: Img, ns: Nodes,
                     free: nat, next: nat, alloc: set<nat>, release: set<nat>, pending: set<nat>, blocks: seq<nat>)
    requires Staged(d0, i0, ns0, d, img, ns, free, next, alloc, release, pending)
    requires forall i :: 0 <= i < |blocks| ==> IsFree(i0, blocks[i])
    ensures forall i :: 0 <= i < |blocks| ==> blocks[i] < |d|
  {
    hide WellFormed, Accounted, TableOn, IsFree;
    BlocksInside(d0, i0, ns0, d, blocks);
  }

  /** A committed chain is still on the staged disk. */
  lemma ChainKept(d0: Disk, i0: Img, ns0: Nodes, d: Disk, n: nat)
    requires WellFormed(d0, i0, ns0) && OnlyFreeWritten(d0, i0, d) && n in ns0
    ensures n < INODE_COUNT && Small(i0.super)
    ensures ChainOn(d, n, ns0[n].blocks, ns0[n].content)
    ensures forall i :: 0 <= i < |ns0[n].blocks| ==> ns0[n].blocks[i] < i0.super.total
  {
    hide InodeAt, Decode, SpaceOk, AllReachable, GetBit;
    assert NodeOk(ns0, n);
    assert NodeOn(d0, i0, n, ns0[n]);
    forall i | 0 <= i < |ns0[n].blocks| ensures Allocated(i0.super, i0.bitmap, ns0[n].blocks[i]) {
    }
    ChainFrame(d0, d, n, ns0[n].blocks, ns0[n].content);
  }

  lemma TableStaged(d0: Disk, i0: Img, ns0: Nodes, d: Disk, img: Img, ns: Nodes,
                    free: nat, next: nat, alloc: set<nat>, release: set<nat>, pending: set<nat>)
    requires Staged(d0, i0, ns0, d, img, ns, free, next, alloc, release, pending)
    ensures |img.inodes| == TABLE_SIZE
  {
    hide WellFormed, AllocatorOk, Accounted, TableOn, OnlyFreeWritten;
  }

  /** A committed chain is still on the staged disk. */
  lemma ChainStaged(d0: Disk, i0: Img, ns0: Nodes, d: Disk, img: Img, ns: Nodes,
                    free: nat, next: nat, alloc: set<nat>, release: set<nat>, n: nat)
    requires n in ns0 && Staged(d0, i0, ns0, d, img, ns, free, next, alloc, release, {})
    ensures Small(i0.super) && ChainOn(d, n, ns0[n].blocks, ns0[n].content)
    ensures forall i :: 0 <= i < |ns0[n].blocks| ==> ns0[n].blocks[i] < i0.super.total
  {
    hide WellFormed, AllocatorOk, Accounted, TableOn, ChainOn, OnlyFreeWritten;
    ChainKept(d0, i0, ns0, d, n);
  }

  // ---- Writing one chain ----

  ghost predicate ChainWrites(blocks: seq<nat>, writes: seq<Event>) {
    && |writes| <= |blocks|
    && forall j :: 0 <= j < |writes| ==> writes[j].Write? && writes[j].at == blocks[j] && |writes[j].blocks| == 1
  }

  lemma {:induction false} ApplyConcat(d: Disk, a: seq<Event>, b: seq<Event>)
    ensures Apply(d, a + b) == Apply(Apply(d, a), b)
    decreases |b|
  {
    if b == [] {
      assert a + b == a;
    } else {
      assert (a + b)[..|a + b| - 1] == a + b[..|b| - 1];
      ApplyConcat(d, a, b[..|b| - 1]);
    }
  }

  lemma DataLogConcat(d0: Disk, i0: Img, data: seq<Event>, writes: seq<Event>)
    requires DataLog(d0, i0, data)
    requires forall j :: 0 <= j < |writes| ==> writes[j].Write? && |writes[j].blocks| == 1 && IsFree(i0, writes[j].at)
    ensures DataLog(d0, i0, data + writes)
    ensures Apply(d0, data + writes) == Apply(Apply(d0, data), writes)
  {
    hide IsFree;
    forall j | 0 <= j < |data + writes| ensures FreeWrite(d0, i0, (data + writes)[j]) {
      if j < |data| {
        assert FreeWrite(d0, i0, data[j]);
      }
    }
    ApplyConcat(d0, data, writes);
  }

  /** How many bytes the first `i` blocks of a chain take. */
  function PieceStart(i: nat, size: nat): nat {
    if DATA_PAYLOAD_SIZE * i < size then DATA_PAYLOAD_SIZE * i else size
  }

  ghost predicate PieceWritten(d: Disk, number: nat, blocks: seq<nat>, stream: seq<Byte>, size: nat, i: nat)
    requires i < |blocks| == BlocksFor(size)
  {
    && blocks[i] < |d| && PieceStart(i, size) <= PieceStart(i + 1, size) <= |stream|
    && d[blocks[i]] == DataBlock(number, NextOf(blocks, i), stream[PieceStart(i, size)..PieceStart(i + 1, size)])
  }

  lemma PieceSize(i: nat, size: nat)
    requires i < BlocksFor(size)
    ensures var left := size - PieceStart(i, size);
      && left >= 0 && PieceStart(i, size) == DATA_PAYLOAD_SIZE * i
      && PieceStart(i + 1, size) == PieceStart(i, size) + if left < DATA_PAYLOAD_SIZE then left else DATA_PAYLOAD_SIZE
  {
  }

  lemma AllPieces(size: nat)
    ensures PieceStart(BlocksFor(size), size) == size
  {
  }

  /** Writing one more block of a chain does not disturb the pieces already there. */
  lemma PieceAdded(d: Disk, d': Disk, number: nat, blocks: seq<nat>, stream: seq<Byte>, size: nat, k: nat)
    requires k < |blocks| == BlocksFor(size) && Distinct(blocks) && blocks[k] < |d| && PieceStart(k + 1, size) <= |stream|
    requires PieceStart(k, size) <= PieceStart(k + 1, size)
    requires PieceStart(k + 1, size) - PieceStart(k, size) <= DATA_PAYLOAD_SIZE
    requires d' == d[blocks[k] := DataBlock(number, NextOf(blocks, k), stream[PieceStart(k, size)..PieceStart(k + 1, size)])]
    requires forall i :: 0 <= i < k ==> PieceWritten(d, number, blocks, stream, size, i)
    ensures forall i :: 0 <= i <= k ==> PieceWritten(d', number, blocks, stream, size, i)
  {
    hide DataBlock, PieceStart, BlocksFor;
    forall i | 0 <= i <= k ensures PieceWritten(d', number, blocks, stream, size, i) {
      if i < k {
        assert PieceWritten(d, number, blocks, stream, size, i);
      }
    }
  }

  lemma PieceIsLink(d: Disk, number: nat, blocks: seq<nat>, stream: seq<Byte>, i: nat)
    requires i < |blocks| == BlocksFor(|stream|) && PieceWritten(d, number, blocks, stream, |stream|, i)
    ensures LinkOn(d, number, blocks, stream, i)
  {
    hide DataBlock;
    PieceSize(i, |stream|);
  }

  method WriteChain(device: Device, blocks: seq<nat>, number: nat, stream: seq<Byte>, size: nat)
    returns (ok: bool, contentCrc: bv32, ghost writes: seq<Event>)
    requires |blocks| == BlocksFor(size) && Distinct(blocks)
    requires forall i :: 0 <= i < |blocks| ==> blocks[i] < |device.blocks|
    modifies device
    ensures ok <==> |stream| == size
    ensures device.log == old(device.log) + writes && ChainWrites(blocks, writes)
    ensures device.blocks == Apply(old(device.blocks), writes)
    ensures WrittenOnly(old(device.blocks), device.blocks, blocks)
    ensures ok ==> ChainOn(device.blocks, number, blocks, stream) && contentCrc == Crc32(stream, 0)
  {
    hide DataBlock, Crc32, Covers, PieceWritten, PieceStart, BlocksFor, Apply, ApplyOne, LinkOn;
    writes := [];
    contentCrc := 0;
    var position := 0;
    NothingYet(old(device.blocks), size);
    for k := 0 to |blocks|
      invariant position == PieceStart(k, size) <= |stream|
      invariant contentCrc == Crc32(stream[..position], 0)
      invariant |writes| == k && ChainWrites(blocks, writes)
      invariant device.log == old(device.log) + writes && device.blocks == Apply(old(device.blocks), writes)
      invariant WrittenOnly(old(device.blocks), device.blocks, blocks)
      invariant forall i :: 0 <= i < k ==> PieceWritten(device.blocks, number, blocks, stream, size, i)
    {
      PieceSize(k, size);
      var take := if size - position < DATA_PAYLOAD_SIZE then size - position else DATA_PAYLOAD_SIZE;
      if |stream| - position < take {
        return false, contentCrc, writes;
      }
      var chunk := stream[position..position + take];
      Crc32Concat(stream[..position], chunk, 0);
      assert stream[..position] + chunk == stream[..position + take];
      contentCrc := Crc32(chunk, contentCrc);
      var block := DataBlock(number, NextOf(blocks, k), chunk);
      ghost var before := device.blocks;
      device.WriteAt(blocks[k], [block]);
      ApplyWriteOne(before, blocks[k], block);
      ApplySnoc(old(device.blocks), writes, Write(blocks[k], [block]));
      writes := writes + [Write(blocks[k], [block])];
      assert blocks[k] in BlockSet(blocks);
      PieceAdded(before, device.blocks, number, blocks, stream, size, k);
      position := position + take;
    }
    AllPieces(size);
    if position < |stream| {
      return false, contentCrc, writes;
    }
    assert stream[..position] == stream;
    forall i | 0 <= i < |blocks| ensures LinkOn(device.blocks, number, blocks, stream, i) {
      PieceIsLink(device.blocks, number, blocks, stream, i);
    }
    ok := true;
  }

  lemma NothingYet(d: Disk, size: nat)
    ensures Apply(d, []) == d && PieceStart(0, size) == 0 && Crc32([], 0) == 0
  {
    CrcOfNothing();
  }

  lemma CrcOfNothing()
    ensures Crc32([], 0) == 0
  {
    FlipTwice(0);
  }

  lemma EmptyBlocks()
    ensures BlockSet([]) == {} && Distinct([])
  {
  }

  /** What one scan has taken so far: `blocks`, all of them clear in the committed bitmap. */
  ghost predicate Scanned(i0: Img, bitmap: seq<Byte>, left: nat, from: nat, taken: set<nat>, blocks: seq<nat>)
    requires i0.super.total <= 8 * |i0.bitmap|
  {
    && Distinct(blocks) && FreshBlocks(i0, taken, BlockSet(blocks))
    && (forall i :: 0 <= i < |blocks| ==> IsFree(i0, blocks[i]))
    && AllocatorOk(i0, bitmap, left, from, taken + BlockSet(blocks))
  }

  lemma TakeBlock(i0: Img, taken: set<nat>, blocks: seq<nat>, b: nat)
    requires Distinct(blocks) && FreshBlocks(i0, taken, BlockSet(blocks)) && IsFree(i0, b)
    requires b !in taken + BlockSet(blocks)
    ensures Distinct(blocks + [b]) && FreshBlocks(i0, taken, BlockSet(blocks + [b]))
    ensures taken + BlockSet(blocks) + {b} == taken + BlockSet(blocks + [b])
  {
    hide GetBit;
    SnocBlocks(blocks, b);
    forall i | 0 <= i < |blocks| ensures blocks[i] != b {
      assert blocks[i] in BlockSet(blocks);
    }
  }

  lemma ScanTakes(i0: Img, bitmap: seq<Byte>, left: nat, from: nat, taken: set<nat>, blocks: seq<nat>, b: nat)
    requires i0.super.total <= 8 * |i0.bitmap|
    requires Scanned(i0, bitmap, left, from, taken, blocks)
    requires from <= b < i0.super.total <= 8 * |bitmap| && !GetBit(bitmap, b)
    requires forall c :: from <= c < b ==> GetBit(bitmap, c)
    ensures left > 0 && Scanned(i0, SetBit(bitmap, b, true), left - 1, b + 1, taken, blocks + [b])
  {
    hide GetBit, SetBit, Distinct, FreshBlocks, BlockSet, BitsAre, CountClear;
    assert i0.super.dataStart <= b;
    hide AllocatorOk;
    AllocateOne(i0, bitmap, left, from, taken + BlockSet(blocks), b);
    TakeBlock(i0, taken, blocks, b);
  }

  lemma ScannedFacts(i0: Img, bitmap: seq<Byte>, left: nat, from: nat, taken: set<nat>, blocks: seq<nat>)
    requires i0.super.total <= 8 * |i0.bitmap| && Scanned(i0, bitmap, left, from, taken, blocks)
    ensures Distinct(blocks) && FreshBlocks(i0, taken, BlockSet(blocks)) && AllocatorOk(i0, bitmap, left, from, taken + BlockSet(blocks))
    ensures forall i :: 0 <= i < |blocks| ==> IsFree(i0, blocks[i])
  {
    hide AllocatorOk, FreshBlocks, IsFree, Distinct;
  }

  lemma ScanStarts(i0: Img, bitmap: seq<Byte>, free: nat, next: nat, taken: set<nat>)
    requires i0.super.total <= 8 * |i0.bitmap| && AllocatorOk(i0, bitmap, free, next, taken)
    ensures Scanned(i0, bitmap, free, next, taken, []) && |bitmap| == |i0.bitmap| && next <= i0.super.total
  {
    hide GetBit, CountClear;
    EmptyBlocks();
    NothingTaken(i0, taken);
    assert taken + BlockSet([]) == taken;
  }

  lemma ScanEnds(i0: Img, bitmap: seq<Byte>, left: nat, from: nat, taken: set<nat>, blocks: seq<nat>)
    requires i0.super.total <= 8 * |i0.bitmap| && Scanned(i0, bitmap, left, from, taken, blocks)
    requires forall c :: from <= c < i0.super.total ==> c < 8 * |bitmap| && GetBit(bitmap, c)
    ensures left == 0
  {
    hide GetBit, FreshBlocks;
    NoneClear(bitmap, from, i0.super.total);
  }

  /** The allocation loop: it always finds the blocks that the free counter promises. */
  method ScanFree(bitmap: seq<Byte>, next: nat, total: nat, count: nat, ghost i0: Img, ghost free: nat, ghost taken: set<nat>)
    returns (bitmap': seq<Byte>, next': nat, blocks: seq<nat>)
    requires i0.super.total == total <= 8 * |i0.bitmap|
    requires AllocatorOk(i0, bitmap, free, next, taken) && 0 < count <= free
    ensures |blocks| == count && Scanned(i0, bitmap', free - count, next', taken, blocks)
  {
    hide GetBit, AllocatorOk, Scanned;
    bitmap', next', blocks := bitmap, next, [];
    ghost var left, from := free, next;
    ScanStarts(i0, bitmap, free, next, taken);
    for block := next to total
      invariant |blocks| < count && from <= block && left + |blocks| == free && |bitmap'| == |i0.bitmap|
      invariant Scanned(i0, bitmap', left, from, taken, blocks)
      invariant forall c :: from <= c < block ==> GetBit(bitmap', c)
    {
      if !GetBit(bitmap', block) {
        ScanTakes(i0, bitmap', left, from, taken, blocks, block);
        bitmap' := SetBit(bitmap', block, true);
        blocks := blocks + [block];
        left, from := left - 1, block + 1;
        if |blocks| == count {
          next' := block + 1;
          return;
        }
      }
    }
    ScanEnds(i0, bitmap', left, from, taken, blocks);
    assert false;
  }

  lemma NothingTaken(i0: Img, taken: set<nat>)
    ensures FreshBlocks(i0, taken, BlockSet([]))
  {
  }

  lemma SnocBlocks(blocks: seq<nat>, b: nat)
    ensures BlockSet(blocks + [b]) == BlockSet(blocks) + {b}
  {
    forall x ensures x in BlockSet(blocks + [b]) <==> x in BlockSet(blocks) || x == b {
      if x in BlockSet(blocks) {
        var i :| 0 <= i < |blocks| && blocks[i] == x;
        assert (blocks + [b])[i] == x;
      }
      assert (blocks + [b])[|blocks|] == b;
    }
  }
}
