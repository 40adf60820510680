/**
 What a generation on disk means: inode slots, data chains and the node map they hold,
 and the well-formedness condition that `verify` decides.
 */
module ShizukuImage {
  import opened Options
  import opened ByteStrings
  import opened ShizukuFormat
  import opened ShizukuDirectory
  import opened ShizukuBitmap
  import opened ShizukuTree

  type Disk = seq<Block>

  /** The in-memory part of an opened image. */
  datatype Img = Img(super: Super, bitmap: seq<Byte>, inodes: seq<Byte>)

  const TABLE_SIZE := INODE_COUNT * INODE_SIZE

  // ---- Inode table ----

  function Slot(inodes: seq<Byte>, n: nat): (r: seq<Byte>)
    requires |inodes| == TABLE_SIZE && n < INODE_COUNT
    ensures |r| == INODE_SIZE
  {
    inodes[n * INODE_SIZE..n * INODE_SIZE + INODE_SIZE]
  }

  function InodeAt(inodes: seq<Byte>, n: nat): InodeSlot
    requires |inodes| == TABLE_SIZE && n < INODE_COUNT
  {
    InodeFromBytes(Slot(inodes, n), n)
  }

  function WithSlot(inodes: seq<Byte>, n: nat, raw: seq<Byte>): (r: seq<Byte>)
    requires |inodes| == TABLE_SIZE && n < INODE_COUNT && |raw| == INODE_SIZE
    ensures |r| == TABLE_SIZE
  {
    inodes[..n * INODE_SIZE] + raw + inodes[n * INODE_SIZE + INODE_SIZE..]
  }

  lemma SlotOfWithSlot(inodes: seq<Byte>, n: nat, raw: seq<Byte>, m: nat)
    requires |inodes| == TABLE_SIZE && n < INODE_COUNT && |raw| == INODE_SIZE && m < INODE_COUNT
    ensures Slot(WithSlot(inodes, n, raw), m) == if m == n then raw else Slot(inodes, m)
  {
    var r := WithSlot(inodes, n, raw);
    if m < n {
      assert m * INODE_SIZE + INODE_SIZE <= n * INODE_SIZE;
    } else if m > n {
      assert n * INODE_SIZE + INODE_SIZE <= m * INODE_SIZE;
    }
  }

  // ---- Data chains ----

  function BlocksFor(size: nat): nat {
    (size + DATA_PAYLOAD_SIZE - 1) / DATA_PAYLOAD_SIZE
  }

  function ChunkEnd(content: seq<Byte>, i: nat): nat {
    if DATA_PAYLOAD_SIZE * (i + 1) < |content| then DATA_PAYLOAD_SIZE * (i + 1) else |content|
  }

  function Chunk(content: seq<Byte>, i: nat): (r: seq<Byte>)
    requires i < BlocksFor(|content|)
    ensures |r| <= DATA_PAYLOAD_SIZE
  {
    content[DATA_PAYLOAD_SIZE * i..ChunkEnd(content, i)]
  }

  function NextOf(blocks: seq<nat>, i: nat): nat {
    if i + 1 < |blocks| then blocks[i + 1] else 0
  }

  function First(blocks: seq<nat>): nat {
    if blocks == [] then 0 else blocks[0]
  }

  ghost predicate LinkOn(disk: Disk, owner: nat, blocks: seq<nat>, content: seq<Byte>, i: nat)
    requires |blocks| == BlocksFor(|content|) && i < |blocks|
  {
    blocks[i] < |disk| && disk[blocks[i]] == DataBlock(owner, NextOf(blocks, i), Chunk(content, i))
  }

  /** Every block of the chain is the data block that holds its piece of the content. */
  ghost predicate ChainOn(disk: Disk, owner: nat, blocks: seq<nat>, content: seq<Byte>) {
    && |blocks| == BlocksFor(|content|)
    && forall i :: 0 <= i < |blocks| ==> LinkOn(disk, owner, blocks, content, i)
  }

  ghost predicate Distinct(blocks: seq<nat>) {
    forall i, j :: 0 <= i < j < |blocks| ==> blocks[i] != blocks[j]
  }

  predicate Allocated(super: Super, bitmap: seq<Byte>, b: nat) {
    super.dataStart <= b < super.total && b < 8 * |bitmap| && GetBit(bitmap, b)
  }

  ghost predicate BlocksOk(super: Super, bitmap: seq<Byte>, blocks: seq<nat>) {
    Distinct(blocks) && forall i :: 0 <= i < |blocks| ==> Allocated(super, bitmap, blocks[i])
  }

  function InodeFor(n: nat, nd: Node): Inode {
    Inode(n, nd.kind, nd.parent, |nd.content|, First(nd.blocks), |nd.blocks|, Crc(nd.content), nd.generation)
  }

  /** The chain that an inode describes, as the content reader accepts it. */
  ghost predicate Chained(disk: Disk, super: Super, bitmap: seq<Byte>, inode: Inode,
                          blocks: seq<nat>, content: seq<Byte>) {
    && |content| == inode.size && |blocks| == inode.blockCount <= MAX_CHAIN_BLOCKS
    && First(blocks) == inode.firstBlock && Crc(content) == inode.contentCrc
    && BlocksOk(super, bitmap, blocks)
    && ChainOn(disk, inode.number, blocks, content)
  }

  /** Inode `n` is stored in the table and its chain holds the node's content. */
  ghost predicate NodeOn(disk: Disk, img: Img, n: nat, nd: Node)
    requires |img.inodes| == TABLE_SIZE && n < INODE_COUNT
  {
    && InodeAt(img.inodes, n) == Used(InodeFor(n, nd))
    && Chained(disk, img.super, img.bitmap, InodeFor(n, nd), nd.blocks, nd.content)
    && nd.generation <= img.super.generation
    && if nd.kind == KIND_DIRECTORY then Decode(nd.content) == Some(nd.entries) else nd.entries == []
  }

  ghost predicate TableOn(disk: Disk, img: Img, ns: Nodes)
    requires |img.inodes| == TABLE_SIZE
  {
    forall n :: 0 <= n < INODE_COUNT ==>
      if n in ns then NodeOn(disk, img, n, ns[n]) else InodeAt(img.inodes, n) == Free
  }

  // ---- Space accounting ----

  ghost function BlockSet(blocks: seq<nat>): set<nat> {
    set i | 0 <= i < |blocks| :: blocks[i]
  }

  ghost function UsedBlocks(ns: Nodes): set<nat> {
    set n, i | n in ns && 0 <= i < |ns[n].blocks| :: ns[n].blocks[i]
  }

  ghost predicate ChainsDisjoint(ns: Nodes) {
    forall n, m :: n in ns && m in ns && n != m ==> BlockSet(ns[n].blocks) !! BlockSet(ns[m].blocks)
  }

  ghost predicate BitmapExact(super: Super, bitmap: seq<Byte>, used: set<nat>) {
    forall b :: 0 <= b < 8 * |bitmap| ==>
      (GetBit(bitmap, b) <==> b < super.dataStart || b >= super.total || b in used)
  }

  ghost predicate SpaceOk(super: Super, bitmap: seq<Byte>, ns: Nodes) {
    && ChainsDisjoint(ns)
    && BitmapExact(super, bitmap, UsedBlocks(ns))
    && super.freeBlocks + |UsedBlocks(ns)| == super.total - super.dataStart
  }

  ghost predicate Layout(disk: Disk, img: Img) {
    && img.super.slot < 2
    && SuperValid(img.super, img.super.slot, |disk| * BLOCK_SIZE)
    && |img.bitmap| == img.super.bitmapBlocks * BLOCK_SIZE
    && |img.inodes| == TABLE_SIZE
  }

  /** The image invariant: a consistent tree stored in disjoint chains with exact accounting. */
  ghost predicate WellFormed(disk: Disk, img: Img, ns: Nodes) {
    && Layout(disk, img)
    && TableOn(disk, img, ns)
    && TreeOk(ns)
    && SpaceOk(img.super, img.bitmap, ns)
    && img.super.freeInodes + |ns| == INODE_COUNT - 1
  }

  lemma BitmapCovers(disk: Disk, img: Img)
    requires Layout(disk, img)
    ensures img.super.total <= 8 * |img.bitmap|
  {
  }

  lemma UsedIsAllocated(disk: Disk, img: Img, ns: Nodes, n: nat, i: nat)
    requires Layout(disk, img) && TableOn(disk, img, ns) && TreeOk(ns)
    requires n in ns && i < |ns[n].blocks|
    ensures Allocated(img.super, img.bitmap, ns[n].blocks[i])
  {
    assert NodeOk(ns, n);
    assert NodeOn(disk, img, n, ns[n]);
  }

  // ---- The node map is determined by the bytes ----

  lemma DataBlockInjective(owner: nat, a: nat, c: seq<Byte>, b: nat, d: seq<Byte>)
    requires owner < Pow256(4) && a < Pow256(4) && b < Pow256(4)
    requires |c| == |d| <= DATA_PAYLOAD_SIZE
    requires DataBlock(owner, a, c) == DataBlock(owner, b, d)
    ensures a == b && c == d
  {
    DataRoundTrip(owner, a, c);
    DataRoundTrip(owner, b, d);
  }

  lemma ChunksDetermine(c: seq<Byte>, d: seq<Byte>)
    requires |c| == |d|
    requires forall i :: 0 <= i < BlocksFor(|c|) ==> Chunk(c, i) == Chunk(d, i)
    ensures c == d
  {
    forall k | 0 <= k < |c| ensures c[k] == d[k] {
      var i := k / DATA_PAYLOAD_SIZE;
      assert Chunk(c, i)[k - DATA_PAYLOAD_SIZE * i] == Chunk(d, i)[k - DATA_PAYLOAD_SIZE * i];
    }
  }

  ghost predicate Small(super: Super) {
    super.total <= MAX_TOOL_BLOCKS
  }

  lemma NextIsSmall(super: Super, bitmap: seq<Byte>, blocks: seq<nat>, i: nat)
    requires Small(super) && BlocksOk(super, bitmap, blocks) && i < |blocks|
    ensures blocks[i] < Pow256(4) && NextOf(blocks, i) < Pow256(4)
  {
    PowValues();
    assert Allocated(super, bitmap, blocks[i]);
    if i + 1 < |blocks| {
      assert Allocated(super, bitmap, blocks[i + 1]);
    }
  }

  /** Equal positions in two chains of one inode have equal successors and equal chunks. */
  lemma ChainStepUnique(disk: Disk, super: Super, bitmap: seq<Byte>, inode: Inode,
                        bs: seq<nat>, c: seq<Byte>, bs': seq<nat>, c': seq<Byte>, i: nat)
    requires Small(super) && inode.number < INODE_COUNT
    requires Chained(disk, super, bitmap, inode, bs, c) && Chained(disk, super, bitmap, inode, bs', c')
    requires i < |bs| && bs[i] == bs'[i]
    ensures NextOf(bs, i) == NextOf(bs', i) && Chunk(c, i) == Chunk(c', i)
  {
    PowValues();
    assert LinkOn(disk, inode.number, bs, c, i) && LinkOn(disk, inode.number, bs', c', i);
    NextIsSmall(super, bitmap, bs, i);
    NextIsSmall(super, bitmap, bs', i);
    DataBlockInjective(inode.number, NextOf(bs, i), Chunk(c, i), NextOf(bs', i), Chunk(c', i));
  }

  lemma {:induction false} ChainPrefixUnique(disk: Disk, super: Super, bitmap: seq<Byte>, inode: Inode,
                                             bs: seq<nat>, c: seq<Byte>, bs': seq<nat>, c': seq<Byte>, i: nat)
    requires Small(super) && inode.number < INODE_COUNT
    requires Chained(disk, super, bitmap, inode, bs, c) && Chained(disk, super, bitmap, inode, bs', c')
    requires i < |bs|
    ensures bs[i] == bs'[i]
  {
    if i > 0 {
      ChainPrefixUnique(disk, super, bitmap, inode, bs, c, bs', c', i - 1);
      ChainStepUnique(disk, super, bitmap, inode, bs, c, bs', c', i - 1);
    }
  }

  lemma ChainUnique(disk: Disk, super: Super, bitmap: seq<Byte>, inode: Inode,
                    bs: seq<nat>, c: seq<Byte>, bs': seq<nat>, c': seq<Byte>)
    requires Small(super) && inode.number < INODE_COUNT
    requires Chained(disk, super, bitmap, inode, bs, c) && Chained(disk, super, bitmap, inode, bs', c')
    ensures bs == bs' && c == c'
  {
    forall i | 0 <= i < |bs| ensures bs[i] == bs'[i] && Chunk(c, i) == Chunk(c', i) {
      ChainPrefixUnique(disk, super, bitmap, inode, bs, c, bs', c', i);
      ChainStepUnique(disk, super, bitmap, inode, bs, c, bs', c', i);
    }
    ChunksDetermine(c, c');
  }

  lemma NodeUnique(disk: Disk, img: Img, n: nat, a: Node, b: Node)
    requires |img.inodes| == TABLE_SIZE && n < INODE_COUNT && Small(img.super)
    requires NodeOn(disk, img, n, a) && NodeOn(disk, img, n, b)
    ensures a == b
  {
    assert InodeFor(n, a) == InodeFor(n, b);
    ChainUnique(disk, img.super, img.bitmap, InodeFor(n, a), a.blocks, a.content, b.blocks, b.content);
  }

  lemma SameNode(disk: Disk, img: Img, ns: Nodes, ns': Nodes, n: nat)
    requires WellFormed(disk, img, ns) && WellFormed(disk, img, ns') && n in ns
    ensures n in ns' && ns[n] == ns'[n]
  {
    hide NodeOn, SpaceOk, AllReachable;
    assert NodeOk(ns, n);
    assert NodeOn(disk, img, n, ns[n]);
    NodeIsUsed(disk, img, n, ns[n]);
    NodeUnique(disk, img, n, ns[n], ns'[n]);
  }

  lemma NodeIsUsed(disk: Disk, img: Img, n: nat, nd: Node)
    requires |img.inodes| == TABLE_SIZE && n < INODE_COUNT && NodeOn(disk, img, n, nd)
    ensures InodeAt(img.inodes, n) != Free
  {
    hide InodeAt;
  }

  /** The bytes of a well-formed image determine its node map, hence everything a reader sees. */
  lemma NodesUnique(disk: Disk, img: Img, ns: Nodes, ns': Nodes)
    requires WellFormed(disk, img, ns) && WellFormed(disk, img, ns')
    ensures ns == ns'
  {
    hide WellFormed;
    forall n | n in ns || n in ns' ensures n in ns && n in ns' && ns[n] == ns'[n] {
      if n in ns {
        SameNode(disk, img, ns, ns', n);
      } else {
        SameNode(disk, img, ns', ns, n);
      }
    }
  }

  // ---- Frames: what a generation does not depend on ----

  ghost predicate SameOn(disk: Disk, disk': Disk, blocks: seq<nat>) {
    |disk'| == |disk| && forall i :: 0 <= i < |blocks| && blocks[i] < |disk| ==> disk'[blocks[i]] == disk[blocks[i]]
  }

  lemma ChainFrame(disk: Disk, disk': Disk, owner: nat, blocks: seq<nat>, content: seq<Byte>)
    requires ChainOn(disk, owner, blocks, content) && SameOn(disk, disk', blocks)
    ensures ChainOn(disk', owner, blocks, content)
  {
    forall i | 0 <= i < |blocks| ensures LinkOn(disk', owner, blocks, content, i) {
      assert LinkOn(disk, owner, blocks, content, i);
    }
  }

  /** A node survives any change that keeps its slot, its blocks and their bits. */
  lemma NodeFrame(disk: Disk, img: Img, disk': Disk, img': Img, n: nat, nd: Node)
    requires |img.inodes| == TABLE_SIZE == |img'.inodes| && n < INODE_COUNT
    requires NodeOn(disk, img, n, nd)
    requires InodeAt(img'.inodes, n) == InodeAt(img.inodes, n)
    requires SameOn(disk, disk', nd.blocks)
    requires img'.super.dataStart == img.super.dataStart && img'.super.total == img.super.total
    requires img.super.generation <= img'.super.generation
    requires forall i :: 0 <= i < |nd.blocks| ==> Allocated(img'.super, img'.bitmap, nd.blocks[i])
    ensures NodeOn(disk', img', n, nd)
  {
    ChainFrame(disk, disk', n, nd.blocks, nd.content);
  }

  /** An image reads the same from any disk that agrees on its allocated data blocks. */
  lemma WellFormedFrame(disk: Disk, disk': Disk, img: Img, ns: Nodes)
    requires WellFormed(disk, img, ns) && |disk'| == |disk|
    requires forall b :: 0 <= b < |disk| && Allocated(img.super, img.bitmap, b) ==> disk'[b] == disk[b]
    ensures WellFormed(disk', img, ns)
  {
    forall n | 0 <= n < INODE_COUNT && n in ns ensures NodeOn(disk', img, n, ns[n]) {
      assert NodeOn(disk, img, n, ns[n]);
      NodeFrame(disk, img, disk', img, n, ns[n]);
    }
  }
}
